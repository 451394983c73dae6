/** The canonicaliser of `models.py`: `to_python` and `_to_python`, which turn a
    value into an Address linked into the Country -> State -> Locality
    hierarchy, looking every level up before creating it. */
module Canonical {
  import opened Wrappers
  import opened Values
  import opened Records
  import opened Display

  /** The components `_to_python` reads from a dictionary, after checking that
      no text key holds a float. `None` stands for a Python `None`. */
  datatype Request = Request(
    raw: string,
    country: Option<string>,
    countryCode: Option<string>,
    state: Option<string>,
    stateCode: Option<string>,
    locality: Option<string>,
    sublocality: Option<string>,
    postalCode: Option<string>,
    streetNumber: Option<string>,
    route: Option<string>,
    subpremise: Option<string>,
    formatted: Option<string>,
    latitude: Val,
    longitude: Val)

  /** `value.get(key, '')` for a text key. */
  function TextField(d: map<string, Val>, key: string): (r: Result<Option<string>, Error>)
    ensures r.Ok? <==> !Get(d, key, Str("")).Num?
    ensures r.Ok? ==> TextVal(r.value) == Get(d, key, Str(""))
    ensures r.Err? ==> r.error == UnsupportedValue(key)
  {
    match Get(d, key, Str(""))
    case Null => Ok(None)
    case Str(s) => Ok(Some(s))
    case Num(_) => Err(UnsupportedValue(key))
  }

  /** The text keys `_to_python` reads. */
  const TextKeys: set<string> := {"country", "country_code", "state", "state_code", "locality",
    "sublocality", "postal_code", "street_number", "route", "subpremise", "formatted"}

  /** Every component `_to_python` reads, each defaulting to `''` (the
      coordinates to `None`); a float under a text key is not supported. */
  function ReadRequest(d: map<string, Val>, raw: string): (r: Result<Request, Error>)
    ensures r.Err? ==> r.error.UnsupportedValue?
  {
    var country :- TextField(d, "country");
    var countryCode :- TextField(d, "country_code");
    var state :- TextField(d, "state");
    var stateCode :- TextField(d, "state_code");
    var locality :- TextField(d, "locality");
    var sublocality :- TextField(d, "sublocality");
    var postalCode :- TextField(d, "postal_code");
    var streetNumber :- TextField(d, "street_number");
    var route :- TextField(d, "route");
    var subpremise :- TextField(d, "subpremise");
    var formatted :- TextField(d, "formatted");
    Ok(Request(raw, country, countryCode, state, stateCode, locality, sublocality, postalCode,
               streetNumber, route, subpremise, formatted,
               Get(d, "latitude", Null), Get(d, "longitude", Null)))
  }

  /** A request is read exactly when no text key holds a float, and it carries
      every text key's value (`None` where the dictionary holds `None`). */
  lemma ReadRequestReadsTextKeys(d: map<string, Val>, raw: string)
    ensures ReadRequest(d, raw).Ok? <==> forall k :: k in TextKeys ==> !Get(d, k, Str("")).Num?
    ensures var r := ReadRequest(d, raw);
      r.Ok? ==>
      && r.value.raw == raw
      && TextVal(r.value.country) == Get(d, "country", Str(""))
      && TextVal(r.value.countryCode) == Get(d, "country_code", Str(""))
      && TextVal(r.value.state) == Get(d, "state", Str(""))
      && TextVal(r.value.stateCode) == Get(d, "state_code", Str(""))
      && TextVal(r.value.locality) == Get(d, "locality", Str(""))
      && TextVal(r.value.sublocality) == Get(d, "sublocality", Str(""))
      && TextVal(r.value.postalCode) == Get(d, "postal_code", Str(""))
      && TextVal(r.value.streetNumber) == Get(d, "street_number", Str(""))
      && TextVal(r.value.route) == Get(d, "route", Str(""))
      && TextVal(r.value.subpremise) == Get(d, "subpremise", Str(""))
      && TextVal(r.value.formatted) == Get(d, "formatted", Str(""))
      && r.value.latitude == Get(d, "latitude", Null)
      && r.value.longitude == Get(d, "longitude", Null)
  {
  }

  /** The locality `_to_python` works with: the sublocality stands in for an
      empty locality (New York boroughs are reported as sublocalities). */
  function EffectiveLocality(req: Request): (l: Option<string>)
    ensures Filled(l) <==> Filled(req.locality) || Filled(req.sublocality)
    ensures Filled(req.locality) ==> l == req.locality
    ensures !Filled(req.locality) && Filled(req.sublocality) ==> l == req.sublocality
    ensures !Filled(req.sublocality) ==> l == req.locality
  {
    if !Filled(req.locality) && Filled(req.sublocality) then req.sublocality else req.locality
  }

  /** Some but not all of country, state and locality are non-empty. */
  predicate Inconsistent(country: Option<string>, state: Option<string>, locality: Option<string>) {
    (Filled(country) || Filled(state) || Filled(locality)) && !(Filled(country) && Filled(state) && Filled(locality))
  }

  /** The code a new Country or State is stored with: an over-long code equal
      to the name is cleared, an over-long code that differs is rejected. */
  function CheckedCode(name: string, code: Option<string>, maxLength: nat, reject: string -> Error)
    : (r: Result<string, Error>)
    ensures r.Ok? ==> code.Some? && |r.value| <= maxLength
    ensures r.Ok? ==> r.value == code.value || (r.value == "" && code.value == name)
    ensures code.Some? && |code.value| <= maxLength ==> r == Ok(code.value)
    ensures code.Some? && |code.value| > maxLength ==>
      r == (if code.value == name then Ok("") else Err(reject(code.value)))
    ensures code.None? ==> r == Err(TypeError)
  {
    match code
    case None => Err(TypeError)   // len(None)
    case Some(c) =>
      if |c| > maxLength then
        if c != name then Err(reject(c)) else Ok("")
      else Ok(c)
  }

  /** `Country.objects.get(name=country)`, creating the Country when it is
      missing and the name is non-empty. */
  function ResolveCountry(st: Store, name: Option<string>, code: Option<string>)
    : (r: Result<(Option<nat>, Store), Error>)
    ensures r.Ok? ==> GrowsByAtMostOne(st, r.value.1)
    ensures r.Ok? ==> (r.value.1.states == st.states && r.value.1.localities == st.localities
                       && r.value.1.addresses == st.addresses)
    ensures r.Ok? && r.value.0.Some? ==>
      r.value.0.value < |r.value.1.countries| && CountryKey(name)(r.value.1.countries[r.value.0.value])
    ensures r.Ok? && r.value.0.None? ==> !Filled(name) && r.value.1 == st
    ensures r.Ok? && r.value.1 != st ==> r.value.0 == Some(|st.countries|)
    ensures r.Ok? ==>
      Find(r.value.1.countries, CountryKey(name)) == (if r.value.0.Some? then Found(r.value.0.value) else Missing)
    ensures Find(st.countries, CountryKey(name)).Ambiguous? <==> r == Err(MultipleObjects("Country"))
    ensures r.Err? ==> r.error.MultipleObjects? || r.error.InvalidCountryCode? || r.error == TypeError
  {
    var key := CountryKey(name);
    match Find(st.countries, key)
    case Ambiguous => Err(MultipleObjects("Country"))
    case Found(i) => Ok((Some(i), st))
    case Missing =>
      if !Filled(name) then Ok((None, st))
      else
        var code :- CheckedCode(name.value, code, CountryCodeMaxLength, c => InvalidCountryCode(c));
        var row := Country(name.value, code);
        FindAfterAppendMatching(st.countries, key, row);
        Ok((Some(|st.countries|), st.(countries := st.countries + [row])))
  }

  /** `State.objects.get(name=state, country=country_obj)`, creating the State
      when it is missing and the name is non-empty. */
  function ResolveState(st: Store, name: Option<string>, code: Option<string>, country: Option<nat>)
    : (r: Result<(Option<nat>, Store), Error>)
    ensures r.Ok? ==> GrowsByAtMostOne(st, r.value.1)
    ensures r.Ok? ==> (r.value.1.countries == st.countries && r.value.1.localities == st.localities
                       && r.value.1.addresses == st.addresses)
    ensures r.Ok? && r.value.0.Some? ==>
      r.value.0.value < |r.value.1.states| && StateKey(name, country)(r.value.1.states[r.value.0.value])
    ensures r.Ok? && r.value.0.None? ==> !Filled(name) && r.value.1 == st
    ensures r.Ok? && r.value.1 != st ==> r.value.0 == Some(|st.states|)
    ensures r.Ok? ==>
      Find(r.value.1.states, StateKey(name, country)) == (if r.value.0.Some? then Found(r.value.0.value) else Missing)
    ensures Find(st.states, StateKey(name, country)).Ambiguous? <==> r == Err(MultipleObjects("State"))
    ensures r.Err? ==> r.error.MultipleObjects? || r.error.InvalidStateCode? || r.error == TypeError
                       || r.error == NotNull("state.country")
  {
    var key := StateKey(name, country);
    match Find(st.states, key)
    case Ambiguous => Err(MultipleObjects("State"))
    case Found(i) => Ok((Some(i), st))
    case Missing =>
      if !Filled(name) then Ok((None, st))
      else
        var code :- CheckedCode(name.value, code, StateCodeMaxLength, c => InvalidStateCode(c));
        if country.None? then Err(NotNull("state.country"))
        else
          var row := State(name.value, code, country.value);
          FindAfterAppendMatching(st.states, key, row);
          Ok((Some(|st.states|), st.(states := st.states + [row])))
  }

  /** `Locality.objects.get(name=locality, postal_code=postal_code, state=state_obj)`,
      creating the Locality when it is missing and the name is non-empty. */
  function ResolveLocality(st: Store, name: Option<string>, postalCode: Option<string>, state: Option<nat>)
    : (r: Result<(Option<nat>, Store), Error>)
    ensures r.Ok? ==> GrowsByAtMostOne(st, r.value.1)
    ensures r.Ok? ==> (r.value.1.countries == st.countries && r.value.1.states == st.states
                       && r.value.1.addresses == st.addresses)
    ensures r.Ok? && r.value.0.Some? ==>
      r.value.0.value < |r.value.1.localities|
      && LocalityKey(name, postalCode, state)(r.value.1.localities[r.value.0.value])
    ensures r.Ok? && r.value.0.None? ==> !Filled(name) && r.value.1 == st
    ensures r.Ok? && r.value.1 != st ==> r.value.0 == Some(|st.localities|)
    ensures r.Ok? ==>
      var found := Find(r.value.1.localities, LocalityKey(name, postalCode, state));
      found == (if r.value.0.Some? then Found(r.value.0.value) else Missing)
    ensures Find(st.localities, LocalityKey(name, postalCode, state)).Ambiguous?
            <==> r == Err(MultipleObjects("Locality"))
    ensures r.Err? ==> r.error.MultipleObjects? || r.error.NotNull?
  {
    var key := LocalityKey(name, postalCode, state);
    match Find(st.localities, key)
    case Ambiguous => Err(MultipleObjects("Locality"))
    case Found(i) => Ok((Some(i), st))
    case Missing =>
      if !Filled(name) then Ok((None, st))
      else if postalCode.None? then Err(NotNull("locality.postal_code"))
      else if state.None? then Err(NotNull("locality.state"))
      else
        var row := Locality(name.value, postalCode.value, state.value);
        FindAfterAppendMatching(st.localities, key, row);
        Ok((Some(|st.localities|), st.(localities := st.localities + [row])))
  }

  /** Whether the Address is matched by `raw` alone: none of street number,
      route, (effective) locality and subpremise is non-empty. */
  predicate MatchByRaw(req: Request, locality: Option<string>) {
    !(Filled(req.streetNumber) || Filled(req.route) || Filled(locality) || Filled(req.subpremise))
  }

  function AddressKey(req: Request, locality: Option<string>, localityId: Option<nat>): Address -> bool {
    if MatchByRaw(req, locality) then RawKey(req.raw)
    else StreetKey(req.streetNumber, req.route, req.subpremise, localityId)
  }

  /** The `formatted` column of a newly created Address: the supplied text,
      or, when it is empty or `None`, what `str()` of the unsaved Address gives
      (for `None` that is the text `None`). */
  function FormattedFor(st: Store, supplied: Option<string>, draft: Address): string {
    match supplied
    case None => "None"
    case Some(f) => if f != "" then f else AddressText(st, draft)
  }

  /** The Address lookup of `_to_python`, creating the Address on a miss. */
  function ResolveAddress(st: Store, req: Request, locality: Option<string>, localityId: Option<nat>)
    : (r: Result<(nat, Store), Error>)
    ensures r.Ok? ==> GrowsByAtMostOne(st, r.value.1)
    ensures r.Ok? ==> (r.value.1.countries == st.countries && r.value.1.states == st.states
                       && r.value.1.localities == st.localities)
    ensures r.Ok? ==> r.value.0 < |r.value.1.addresses| && AddressKey(req, locality, localityId)(r.value.1.addresses[r.value.0])
    ensures r.Ok? ==> Find(r.value.1.addresses, AddressKey(req, locality, localityId)) == Found(r.value.0)
    ensures r.Ok? && r.value.1 != st ==>
      && Find(st.addresses, AddressKey(req, locality, localityId)).Missing?
      && r.value.0 == |st.addresses|
      && r.value.1.addresses[r.value.0].raw == req.raw
      && r.value.1.addresses[r.value.0].locality == localityId
    ensures Find(st.addresses, AddressKey(req, locality, localityId)).Ambiguous? <==> r == Err(MultipleObjects("Address"))
    ensures r.Err? ==> r.error.MultipleObjects? || r.error.NotNull?
  {
    var key := AddressKey(req, locality, localityId);
    match Find(st.addresses, key)
    case Ambiguous => Err(MultipleObjects("Address"))
    case Found(i) => Ok((i, st))
    case Missing =>
      if req.streetNumber.None? then Err(NotNull("address.street_number"))
      else if req.route.None? then Err(NotNull("address.route"))
      else
        var draft := Address(req.streetNumber.value, req.route.value, req.subpremise, localityId,
                             req.raw, "", req.latitude, req.longitude);
        var row := draft.(formatted := FormattedFor(st, req.formatted, draft));
        FindAfterAppendMatching(st.addresses, key, row);
        Ok((|st.addresses|, st.(addresses := st.addresses + [row])))
  }

  /** Country, State and Locality of a consistent request, level by level. */
  function ResolveHierarchy(st: Store, req: Request, locality: Option<string>)
    : (r: Result<(Option<nat>, Store), Error>)
    ensures r.Ok? ==> GrowsByAtMostOne(st, r.value.1) && r.value.1.addresses == st.addresses
    ensures r.Ok? ==> r.value.1.LocalityRefOk(r.value.0)
    ensures r.Err? ==> !r.error.KeyError? && r.error != InconsistentDict
  {
    var c :- ResolveCountry(st, req.country, req.countryCode);
    var s :- ResolveState(c.1, req.state, req.stateCode, c.0);
    ResolveLocality(s.1, locality, req.postalCode, s.0)
  }

  /** `_to_python(value)` */
  function ToPythonDict(d: map<string, Val>, st: Store): (r: Result<(Value, Store), Error>)
    ensures r.Ok? ==> GrowsByAtMostOne(st, r.value.1)
    ensures r.Ok? ==> (r.value.0 == Nothing && r.value.1 == st)
                      || (r.value.0.AddressRef? && r.value.0.id < |r.value.1.addresses|)
    ensures (r.Ok? && r.value.0 == Nothing) <==> !Truthy(Get(d, "raw", Str("")))
    ensures r == Err(InconsistentDict) ==> "raw" in d && d["raw"].Str? && d["raw"].s != ""
    ensures r.Err? ==> !r.error.KeyError?
  {
    var raw := Get(d, "raw", Str(""));
    if !Truthy(raw) then Ok((Nothing, st))
    else if !raw.Str? then Err(UnsupportedValue("raw"))
    else
      var req :- ReadRequest(d, raw.s);
      var locality := EffectiveLocality(req);
      if Inconsistent(req.country, req.state, locality) then Err(InconsistentDict)
      else
        var h :- ResolveHierarchy(st, req, locality);
        var a :- ResolveAddress(h.1, req, locality, h.0);
        Ok((AddressRef(a.0), a.1))
  }

  /** Append a raw-only Address, as `Address(raw=value).save()` and
      `Address.objects.create(raw=...)` do: no lookup, always a new row. */
  function CreateRawOnly(st: Store, raw: string): (r: (Value, Store))
    ensures r.0 == AddressRef(|st.addresses|)
    ensures r.1.addresses == st.addresses + [RawOnly(raw)]
    ensures r.1.countries == st.countries && r.1.states == st.states && r.1.localities == st.localities
  {
    (AddressRef(|st.addresses|), st.(addresses := st.addresses + [RawOnly(raw)]))
  }

  /** The dictionary branch of `to_python`: canonicalise, and on an
      inconsistent hierarchy store the dictionary's `raw` alone. */
  function DictToPython(d: map<string, Val>, st: Store): (r: Result<(Value, Store), Error>)
    ensures r.Ok? ==> GrowsByAtMostOne(st, r.value.1)
    ensures r.Ok? ==>
      (r.value.0 == Nothing && r.value.1 == st)
      || (r.value.0.AddressRef? && r.value.0.id < |r.value.1.addresses|)
    ensures r.Err? ==> r.error != InconsistentDict && r.error != KeyError("raw")
  {
    var res := ToPythonDict(d, st);
    if res.Err? && res.error == InconsistentDict then
      // value['raw']: present and a string, since `_to_python` checked it
      assert "raw" in d && d["raw"].Str?;
      Ok(CreateRawOnly(st, d["raw"].s))
    else res
  }

  /** `to_python(value)`: `None`, an Address and an int pass through; a string
      becomes a new raw-only Address; a dictionary is canonicalised, falling
      back to a raw-only Address when its hierarchy is inconsistent; anything
      else is invalid. */
  function ToPython(v: Value, st: Store): (r: Result<(Value, Store), Error>)
    ensures v.Nothing? || v.AddressRef? || v.Int? ==> r == Ok((v, st))
    ensures v.Other? ==> r == Err(InvalidValue)
    ensures r.Ok? ==> GrowsByAtMostOne(st, r.value.1)
    ensures r.Ok? && (v.Text? || v.Dict?) ==>
      (r.value.0 == Nothing && r.value.1 == st)
      || (r.value.0.AddressRef? && r.value.0.id < |r.value.1.addresses|)
    ensures r.Err? ==> r.error != InconsistentDict && r.error != KeyError("raw")
  {
    match v
    case Nothing => Ok((v, st))
    case AddressRef(_) => Ok((v, st))
    case Int(_) => Ok((v, st))
    case Text(s) => Ok(CreateRawOnly(st, s))
    case Dict(d) => DictToPython(d, st)
    case Other => Err(InvalidValue)
  }
}
