/** The four entities of the address hierarchy (Country, State, Locality,
    Address) and the store that holds them. Each table is a sequence and a
    record's id is its index; the store is a value threaded through every
    operation that reads or creates rows. */
module Records {
  import opened Wrappers
  import opened Values

  /** `max_length` of `Country.code` and of `State.code`. */
  const CountryCodeMaxLength: nat := 2
  const StateCodeMaxLength: nat := 3

  /** `name` is unique among countries; `code` is not (several countries share one). */
  datatype Country = Country(name: string, code: string)

  /** `country` is a required foreign key; (name, country) is unique. */
  datatype State = State(name: string, code: string, country: nat)

  /** `state` is a required foreign key; (name, postal_code, state) is unique. */
  datatype Locality = Locality(name: string, postalCode: string, state: nat)

  /** `subpremise` and `locality` are nullable columns; `latitude` and `longitude`
      hold the value the record was built with. */
  datatype Address = Address(
    streetNumber: string,
    route: string,
    subpremise: Option<string>,
    locality: Option<nat>,
    raw: string,
    formatted: string,
    latitude: Val,
    longitude: Val)

  /** An Address built from `raw` alone: every other column takes its default. */
  function RawOnly(raw: string): (a: Address)
    ensures a.raw == raw && a.locality == None
  {
    Address("", "", None, None, raw, "", Null, Null)
  }

  datatype Store = Store(
    countries: seq<Country>,
    states: seq<State>,
    localities: seq<Locality>,
    addresses: seq<Address>)
  {
    /** Referential integrity: every foreign key names an existing row. */
    predicate Valid() {
      && (forall i :: 0 <= i < |states| ==> states[i].country < |countries|)
      && (forall i :: 0 <= i < |localities| ==> localities[i].state < |states|)
      && (forall i :: 0 <= i < |addresses| ==> LocalityRefOk(addresses[i].locality))
    }

    predicate LocalityRefOk(l: Option<nat>) {
      l.Some? ==> l.value < |localities|
    }

    /** The uniqueness constraints of the three hierarchy tables. */
    predicate Unique() {
      && (forall i, j :: 0 <= i < j < |countries| ==> countries[i].name != countries[j].name)
      && (forall i, j :: 0 <= i < j < |states| ==>
            (states[i].name, states[i].country) != (states[j].name, states[j].country))
      && (forall i, j :: 0 <= i < j < |localities| ==>
            (localities[i].name, localities[i].postalCode, localities[i].state)
            != (localities[j].name, localities[j].postalCode, localities[j].state))
    }
  }

  /** `after` keeps every row of `before` unchanged, at the same id. */
  predicate Extends(before: Store, after: Store) {
    && before.countries <= after.countries
    && before.states <= after.states
    && before.localities <= after.localities
    && before.addresses <= after.addresses
  }

  /** `after` extends `before` by at most one row in each table. */
  predicate GrowsByAtMostOne(before: Store, after: Store) {
    && Extends(before, after)
    && |after.countries| <= |before.countries| + 1
    && |after.states| <= |before.states| + 1
    && |after.localities| <= |before.localities| + 1
    && |after.addresses| <= |before.addresses| + 1
  }

  /** The outcome of `Model.objects.get(...)`: no row, exactly one, or several. */
  datatype Lookup = Missing | Found(id: nat) | Ambiguous

  /** The rows satisfying `key`, reported the way `get` sees them. */
  function Find<T>(rows: seq<T>, key: T -> bool): (r: Lookup)
    ensures r.Missing? <==> (forall i :: 0 <= i < |rows| ==> !key(rows[i]))
    ensures r.Found? ==> r.id < |rows| && key(rows[r.id])
    ensures r.Found? ==> forall j :: 0 <= j < |rows| && key(rows[j]) ==> j == r.id
    ensures r.Ambiguous? ==> exists i, j :: 0 <= i < j < |rows| && key(rows[i]) && key(rows[j])
    decreases |rows|
  {
    if |rows| == 0 then Missing
    else
      var last := |rows| - 1;
      var prefix := rows[..last];
      assert forall i :: 0 <= i < last ==> prefix[i] == rows[i];
      match Find(prefix, key)
      case Missing => if key(rows[last]) then Found(last) else Missing
      case Found(i) => if key(rows[last]) then Ambiguous else Found(i)
      case Ambiguous => Ambiguous
  }

  /** A row that matches when nothing matched before is the unique match. */
  lemma FindAfterAppendMatching<T>(rows: seq<T>, key: T -> bool, x: T)
    requires Find(rows, key).Missing?
    requires key(x)
    ensures Find(rows + [x], key) == Found(|rows|)
  {
    assert (rows + [x])[..|rows|] == rows;
  }

  /** Appending a row that does not match leaves the lookup unchanged. */
  lemma FindAfterAppendOther<T>(rows: seq<T>, key: T -> bool, x: T)
    requires !key(x)
    ensures Find(rows + [x], key) == Find(rows, key)
  {
    assert (rows + [x])[..|rows|] == rows;
  }

  /** Two matching rows make `get` report several. */
  lemma TwoMatchesAreAmbiguous<T>(rows: seq<T>, key: T -> bool, i: nat, j: nat)
    requires i < j < |rows| && key(rows[i]) && key(rows[j])
    ensures Find(rows, key) == Ambiguous
  {
  }

  /** The lookup keys of `_to_python`; `None` never equals a NOT NULL column. */
  function CountryKey(name: Option<string>): Country -> bool {
    (c: Country) => Some(c.name) == name
  }

  function StateKey(name: Option<string>, country: Option<nat>): State -> bool {
    (s: State) => Some(s.name) == name && Some(s.country) == country
  }

  function LocalityKey(name: Option<string>, postalCode: Option<string>, state: Option<nat>): Locality -> bool {
    (l: Locality) => Some(l.name) == name && Some(l.postalCode) == postalCode && Some(l.state) == state
  }

  function RawKey(raw: string): Address -> bool {
    (a: Address) => a.raw == raw
  }

  /** `subpremise` is nullable, so a `None` there matches rows whose column is NULL. */
  function StreetKey(streetNumber: Option<string>, route: Option<string>, subpremise: Option<string>,
                     locality: Option<nat>): Address -> bool {
    (a: Address) =>
      && Some(a.streetNumber) == streetNumber
      && Some(a.route) == route
      && a.subpremise == subpremise
      && a.locality == locality
  }

  /** Under the uniqueness constraints the hierarchy lookups never see two rows. */
  lemma UniqueLookupsAreUnambiguous(st: Store, name: Option<string>, postal: Option<string>, parent: Option<nat>)
    requires st.Unique()
    ensures !Find(st.countries, CountryKey(name)).Ambiguous?
    ensures !Find(st.states, StateKey(name, parent)).Ambiguous?
    ensures !Find(st.localities, LocalityKey(name, postal, parent)).Ambiguous?
  {
  }
}
