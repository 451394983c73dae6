/** The display strings of the four entities (`__str__`, `State.to_str`), the
    dictionary an Address exports (`as_dict`) and `Address.clean`. Foreign keys
    are followed through the store; a key naming no row reads as an absent
    relation (a valid store has none). */
module Display {
  import opened Wrappers
  import opened Values
  import opened Records
  import opened Text

  function CountryOf(st: Store, id: nat): Option<Country> {
    if id < |st.countries| then Some(st.countries[id]) else None
  }

  function StateOf(st: Store, id: nat): Option<State> {
    if id < |st.states| then Some(st.states[id]) else None
  }

  function LocalityOf(st: Store, id: Option<nat>): Option<Locality> {
    if id.Some? && id.value < |st.localities| then Some(st.localities[id.value]) else None
  }

  /** `a + sep + b`, the separator kept only when both sides are non-empty. */
  function JoinNonEmpty(a: string, sep: string, b: string): string {
    if a != "" && b != "" then a + sep + b else a + b
  }

  /** `name or code`, the text both `Country.__str__` and `State.to_str` show. */
  function NameOrCode(name: string, code: string): (t: string)
    ensures t == "" <==> name == "" && code == ""
    ensures name != "" ==> t == name
    ensures name == "" ==> t == code
  {
    if name != "" then name else code
  }

  /** `Country.__str__` */
  function CountryText(c: Country): string {
    NameOrCode(c.name, c.code)
  }

  /** `State.to_str` */
  function StateShort(s: State): string {
    NameOrCode(s.name, s.code)
  }

  /** `str(country)` for an optional country: `''` when there is none. */
  function CountryTextOf(c: Option<Country>): string {
    if c.Some? then CountryText(c.value) else ""
  }

  /** `State.__str__` */
  function StateText(st: Store, s: State): (t: string)
  {
    var txt := StateShort(s);
    var country := CountryTextOf(CountryOf(st, s.country));
    var txt := if country != "" && txt != "" then txt + ", " else txt;
    txt + country
  }

  /** `Locality.__str__` */
  function LocalityText(st: Store, l: Locality): (t: string)
  {
    var state := StateOf(st, l.state);
    var stateText := if state.Some? then StateShort(state.value) else "";
    var country := if state.Some? then CountryTextOf(CountryOf(st, state.value.country)) else "";
    LocalityJoin(l.name, stateText, l.postalCode, country)
  }

  /** The text `Locality.__str__` assembles from a name, the state's short
      text, a postal code and the country's text. */
  function LocalityJoin(name: string, stateText: string, postalCode: string, country: string): string {
    var sep := if name != "" && stateText != "" then ", " else "";
    var postal := if postalCode != "" then " " + postalCode else "";
    var tail := if country != "" then ", " + country else "";
    name + sep + stateText + postal + tail
  }

  /** `Address.__str__` */
  function AddressText(st: Store, a: Address): (t: string)
  {
    if a.formatted != "" then a.formatted
    else if LocalityOf(st, a.locality).Some? then
      var txt := "";
      var txt := if a.streetNumber != "" then txt + a.streetNumber else txt;
      var txt := if a.route != "" && txt != "" then txt + " " + a.route else txt;
      var txt := if a.subpremise.Some? && a.subpremise.value != "" && txt != ""
                 then txt + " #" + a.subpremise.value else txt;
      var locality := LocalityText(st, LocalityOf(st, a.locality).value);
      var txt := if txt != "" && locality != "" then txt + ", " else txt;
      txt + locality
    else a.raw
  }

  /** The street part of an Address's display as a reader would describe it:
      nothing without a street number, otherwise the number followed by the
      route and `#subpremise` when present. */
  function StreetLine(a: Address): string {
    if a.streetNumber == "" then ""
    else
      var withRoute := if a.route != "" then a.streetNumber + " " + a.route else a.streetNumber;
      if a.subpremise.Some? && a.subpremise.value != "" then withRoute + " #" + a.subpremise.value
      else withRoute
  }

  /** The three display rules of an Address: `formatted` verbatim, else the
      street line joined to the locality text, else `raw`. A route or a
      subpremise without a street number is never shown. */
  lemma AddressTextRules(st: Store, a: Address)
    ensures a.formatted != "" ==> AddressText(st, a) == a.formatted
    ensures a.formatted == "" && LocalityOf(st, a.locality).None? ==> AddressText(st, a) == a.raw
    ensures a.formatted == "" && LocalityOf(st, a.locality).Some? ==>
      AddressText(st, a) == JoinNonEmpty(StreetLine(a), ", ", LocalityText(st, LocalityOf(st, a.locality).value))
  {
  }

  /** A State's text begins with its name (or code) and ends with its
      country's text; between the two stands `, ` when both are non-empty and
      nothing otherwise, so the text is empty only when both parts are. */
  lemma StateTextRule(st: Store, s: State)
    ensures var short := StateShort(s);
      var country := CountryTextOf(CountryOf(st, s.country));
      var t := StateText(st, s);
      && StartsWith(t, short) && EndsWith(t, country)
      && |t| == |short| + |country| + (if short != "" && country != "" then 2 else 0)
      && (short != "" && country != "" ==> t[|short|..|short| + 2] == ", ")
      && (t == "" <==> short == "" && country == "")
  {
    var short := StateShort(s);
    var country := CountryTextOf(CountryOf(st, s.country));
    if short != "" && country != "" {
      Joined3(short, ", ", country);
    } else {
      Joined3(short, "", country);
    }
  }

  /** The pieces of `a + b + c` sit where their lengths say. */
  lemma Joined3(a: string, b: string, c: string)
    ensures var t := a + b + c;
      && |t| == |a| + |b| + |c|
      && StartsWith(t, a) && t[|a|..|a| + |b|] == b && EndsWith(t, c)
  {
  }

  /** A Locality's text begins with its name; its state's short text follows
      after `, ` when both are non-empty (directly otherwise); it ends with
      ` postal_code` when there is one, followed by `, country` whenever the
      country text is non-empty; nothing else is added. */
  lemma LocalityTextRule(st: Store, l: Locality)
    ensures var state := StateOf(st, l.state);
      var stateText := if state.Some? then StateShort(state.value) else "";
      var country := if state.Some? then CountryTextOf(CountryOf(st, state.value.country)) else "";
      LocalityLayout(LocalityText(st, l), l.name, stateText, l.postalCode, country)
  {
    var state := StateOf(st, l.state);
    var stateText := if state.Some? then StateShort(state.value) else "";
    var country := if state.Some? then CountryTextOf(CountryOf(st, state.value.country)) else "";
    LocalityJoinLayout(l.name, stateText, l.postalCode, country);
  }

  /** The layout of the joined text, whatever its pieces. */
  lemma LocalityJoinLayout(name: string, stateText: string, postalCode: string, country: string)
    ensures LocalityLayout(LocalityJoin(name, stateText, postalCode, country), name, stateText, postalCode, country)
  {
    var sep := if name != "" && stateText != "" then ", " else "";
    var postal := if postalCode != "" then " " + postalCode else "";
    var tail := if country != "" then ", " + country else "";
    LocalityJoinPieces(name, stateText, postalCode, country);
    LocalityPieces(name, sep, stateText, postal + tail);
  }

  /** The joined text as head, state text and tail. */
  lemma LocalityJoinPieces(name: string, stateText: string, postalCode: string, country: string)
    ensures var sep := if name != "" && stateText != "" then ", " else "";
      var postal := if postalCode != "" then " " + postalCode else "";
      var tail := if country != "" then ", " + country else "";
      LocalityJoin(name, stateText, postalCode, country) == (name + sep) + stateText + (postal + tail)
  {
    var sep := if name != "" && stateText != "" then ", " else "";
    var postal := if postalCode != "" then " " + postalCode else "";
    var tail := if country != "" then ", " + country else "";
    assert name + sep + stateText + postal + tail == (name + sep + stateText) + (postal + tail);
  }

  /** How a Locality's text `t` is laid out from its name, its state's short
      text, its postal code and its country's text. */
  predicate LocalityLayout(t: string, name: string, stateText: string, postalCode: string, country: string) {
    var gap := if name != "" && stateText != "" then 2 else 0;
    var postal := if postalCode != "" then " " + postalCode else "";
    var tail := if country != "" then ", " + country else "";
    && |t| == |name| + gap + |stateText| + |postal| + |tail|
    && StartsWith(t, name)
    && (gap == 2 ==> t[|name|..|name| + 2] == ", ")
    && StartsWith(t[|name| + gap..], stateText)
    && EndsWith(t, postal + tail)
    && (t == "" <==> name == "" && stateText == "" && postalCode == "" && country == "")
  }

  /** The four pieces of `(name + sep) + stateText + rest` sit where their lengths say. */
  lemma LocalityPieces(name: string, sep: string, stateText: string, rest: string)
    ensures var t := (name + sep) + stateText + rest;
      && |t| == |name| + |sep| + |stateText| + |rest|
      && StartsWith(t, name) && t[|name|..|name| + |sep|] == sep
      && StartsWith(t[|name| + |sep|..], stateText) && EndsWith(t, rest)
  {
    var t := (name + sep) + stateText + rest;
    assert t[|name| + |sep|..] == stateText + rest;
  }

  /** The `as_dict` of an Address: its own columns always (a falsy latitude or
      longitude as `''`), then the locality's name and postal code, its state's
      name and code, and that state's country name and code, each level only
      when the previous one exists. */
  function AsDict(st: Store, a: Address): (d: map<string, Val>)
  {
    var base := map[
      "street_number" := Str(a.streetNumber),
      "route" := Str(a.route),
      "subpremise" := TextVal(a.subpremise),
      "raw" := Str(a.raw),
      "formatted" := Str(a.formatted),
      "latitude" := if Truthy(a.latitude) then a.latitude else Str(""),
      "longitude" := if Truthy(a.longitude) then a.longitude else Str("")];
    match LocalityOf(st, a.locality)
    case None => base
    case Some(l) =>
      var withLocality := base["locality" := Str(l.name)]["postal_code" := Str(l.postalCode)];
      match StateOf(st, l.state)
      case None => withLocality
      case Some(s) =>
        var withState := withLocality["state" := Str(s.name)]["state_code" := Str(s.code)];
        match CountryOf(st, s.country)
        case None => withState
        case Some(c) => withState["country" := Str(c.name)]["country_code" := Str(c.code)]
  }

  const AddressKeys: set<string> :=
    {"street_number", "route", "subpremise", "raw", "formatted", "latitude", "longitude"}

  /** The key set of `as_dict` and the values it reports: the seven address keys
      always, `locality`/`postal_code` exactly when a locality is linked,
      `state`/`state_code` exactly when that locality has a state, and
      `country`/`country_code` exactly when that state has a country. */
  lemma AsDictShape(st: Store, a: Address)
    ensures var d := AsDict(st, a);
      && AddressKeys <= d.Keys
      && d["raw"] == Str(a.raw) && d["street_number"] == Str(a.streetNumber) && d["route"] == Str(a.route)
      && d["subpremise"] == TextVal(a.subpremise) && d["formatted"] == Str(a.formatted)
      && (Truthy(a.latitude) ==> d["latitude"] == a.latitude)
      && (!Truthy(a.latitude) ==> d["latitude"] == Str(""))
      && (Truthy(a.longitude) ==> d["longitude"] == a.longitude)
      && (!Truthy(a.longitude) ==> d["longitude"] == Str(""))
    ensures var d := AsDict(st, a); var l := LocalityOf(st, a.locality);
      && ("locality" in d <==> l.Some?)
      && ("postal_code" in d <==> l.Some?)
      && (l.Some? ==> d["locality"] == Str(l.value.name) && d["postal_code"] == Str(l.value.postalCode))
    ensures var d := AsDict(st, a); var l := LocalityOf(st, a.locality);
      var s := if l.Some? then StateOf(st, l.value.state) else None;
      && ("state" in d <==> s.Some?)
      && ("state_code" in d <==> s.Some?)
      && (s.Some? ==> d["state"] == Str(s.value.name) && d["state_code"] == Str(s.value.code))
    ensures var d := AsDict(st, a); var l := LocalityOf(st, a.locality);
      var s := if l.Some? then StateOf(st, l.value.state) else None;
      var c := if s.Some? then CountryOf(st, s.value.country) else None;
      && ("country" in d <==> c.Some?)
      && ("country_code" in d <==> c.Some?)
      && (c.Some? ==> d["country"] == Str(c.value.name) && d["country_code"] == Str(c.value.code))
    ensures AsDict(st, a).Keys <= AddressKeys + {"locality", "postal_code", "state", "state_code", "country", "country_code"}
  {
    AsDictColumns(st, a);
    AsDictLocality(st, a);
    AsDictState(st, a);
    AsDictCountry(st, a);
  }

  lemma AsDictColumns(st: Store, a: Address)
    ensures var d := AsDict(st, a);
      && AddressKeys <= d.Keys
      && d["raw"] == Str(a.raw) && d["street_number"] == Str(a.streetNumber) && d["route"] == Str(a.route)
      && d["subpremise"] == TextVal(a.subpremise) && d["formatted"] == Str(a.formatted)
      && (Truthy(a.latitude) ==> d["latitude"] == a.latitude)
      && (!Truthy(a.latitude) ==> d["latitude"] == Str(""))
      && (Truthy(a.longitude) ==> d["longitude"] == a.longitude)
      && (!Truthy(a.longitude) ==> d["longitude"] == Str(""))
  {
  }

  lemma AsDictLocality(st: Store, a: Address)
    ensures var d := AsDict(st, a); var l := LocalityOf(st, a.locality);
      && ("locality" in d <==> l.Some?)
      && ("postal_code" in d <==> l.Some?)
      && (l.Some? ==> d["locality"] == Str(l.value.name) && d["postal_code"] == Str(l.value.postalCode))
  {
  }

  lemma AsDictState(st: Store, a: Address)
    ensures var d := AsDict(st, a); var l := LocalityOf(st, a.locality);
      var s := if l.Some? then StateOf(st, l.value.state) else None;
      && ("state" in d <==> s.Some?)
      && ("state_code" in d <==> s.Some?)
      && (s.Some? ==> d["state"] == Str(s.value.name) && d["state_code"] == Str(s.value.code))
  {
  }

  lemma AsDictCountry(st: Store, a: Address)
    ensures var d := AsDict(st, a); var l := LocalityOf(st, a.locality);
      var s := if l.Some? then StateOf(st, l.value.state) else None;
      var c := if s.Some? then CountryOf(st, s.value.country) else None;
      && ("country" in d <==> c.Some?)
      && ("country_code" in d <==> c.Some?)
      && (c.Some? ==> d["country"] == Str(c.value.name) && d["country_code"] == Str(c.value.code))
  {
  }

  /** In a valid store every linked locality has its state and country, so
      `as_dict` of a linked Address carries all thirteen keys. */
  lemma AsDictOfLinkedAddress(st: Store, a: Address)
    requires st.Valid()
    requires a.locality.Some? && st.LocalityRefOk(a.locality)
    ensures AsDict(st, a).Keys == AddressKeys + {"locality", "postal_code", "state", "state_code", "country", "country_code"}
  {
    AsDictShape(st, a);
    var l := st.localities[a.locality.value];
    assert st.localities[a.locality.value].state < |st.states|;
  }

  /** `as_dict` of an Address whose locality, state and country all exist. */
  lemma AsDictOfChain(st: Store, a: Address)
    requires a.locality.Some? && a.locality.value < |st.localities|
    requires st.localities[a.locality.value].state < |st.states|
    requires st.states[st.localities[a.locality.value].state].country < |st.countries|
    ensures var loc := st.localities[a.locality.value];
      var state := st.states[loc.state];
      var country := st.countries[state.country];
      var ad := AsDict(st, a);
      && ad.Keys == AddressKeys + {"locality", "postal_code", "state", "state_code", "country", "country_code"}
      && ad["country"] == Str(country.name) && ad["country_code"] == Str(country.code)
      && ad["state"] == Str(state.name) && ad["state_code"] == Str(state.code)
      && ad["locality"] == Str(loc.name) && ad["postal_code"] == Str(loc.postalCode)
      && ad["street_number"] == Str(a.streetNumber) && ad["route"] == Str(a.route)
      && ad["subpremise"] == TextVal(a.subpremise) && ad["raw"] == Str(a.raw)
      && ad["formatted"] == Str(a.formatted)
      && ad["latitude"] == (if Truthy(a.latitude) then a.latitude else Str(""))
      && ad["longitude"] == (if Truthy(a.longitude) then a.longitude else Str(""))
  {
    AsDictShape(st, a);
  }

  /** `Address.clean`: an Address with an empty `raw` is rejected. */
  function Clean(a: Address): (r: Result<(), Error>)
    ensures r.Err? <==> a.raw == ""
    ensures r.Err? ==> r.error == BlankRaw
  {
    if a.raw == "" then Err(BlankRaw) else Ok(())
  }
}
