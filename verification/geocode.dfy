/** The form field of `forms.py`: coercion of the coordinates, the choice
    between canonicalising a structured dictionary and geocoding a bare `raw`,
    and the policy that accepts or rejects a geocoder response. The HTTP
    request itself is a parameter: the response the geocoder would return. */
module Geocode {
  import opened Wrappers
  import opened Values
  import opened Text
  import opened Records
  import opened Canonical

  // ----- ensure_correct_datatypes -----

  /** `ensure_float(value, field)`: a falsy value becomes `None`; anything else
      goes through `float`, where `parse` stands for Python's `float` on a
      string (a float is returned unchanged). */
  function EnsureFloat(v: Val, field: string, parse: string -> Option<real>): (r: Result<Val, Error>)
    ensures !Truthy(v) ==> r == Ok(Null)
    ensures r.Err? <==> v.Str? && v.s != "" && parse(v.s).None?
    ensures r.Err? ==> r.error == InvalidNumeric(field)
    ensures r.Ok? ==> r.value.Null? || r.value.Num?
    ensures v.Num? && v.x != 0.0 ==> r == Ok(v)
    ensures v.Str? && v.s != "" && parse(v.s).Some? ==> r == Ok(Num(parse(v.s).value))
  {
    if !Truthy(v) then Ok(Null)
    else
      match v
      case Str(s) =>
        (match parse(s)
         case Some(x) => Ok(Num(x))
         case None => Err(InvalidNumeric(field)))
      case Num(x) => Ok(Num(x))
      case Null => Ok(Null)
  }

  /** A coordinate `ensure_float` rejects: a non-empty string that is not a float. */
  predicate BadCoordinate(d: map<string, Val>, field: string, parse: string -> Option<real>) {
    field in d && d[field].Str? && d[field].s != "" && parse(d[field].s).None?
  }

  function EnsureField(d: map<string, Val>, field: string, parse: string -> Option<real>)
    : Result<map<string, Val>, Error>
  {
    if field in d then
      var x :- EnsureFloat(d[field], field, parse);
      Ok(d[field := x])
    else Ok(d)
  }

  /** `ensure_correct_datatypes(value)`: latitude, then longitude, each only when
      present, coerced by `ensure_float`; every other key is left alone. */
  function EnsureCorrectDatatypes(d: map<string, Val>, parse: string -> Option<real>)
    : (r: Result<map<string, Val>, Error>)
    ensures r.Err? <==> BadCoordinate(d, "latitude", parse) || BadCoordinate(d, "longitude", parse)
    ensures r.Err? ==>
      r.error == InvalidNumeric(if BadCoordinate(d, "latitude", parse) then "latitude" else "longitude")
    ensures r.Ok? ==> r.value.Keys == d.Keys
    ensures r.Ok? ==> forall k :: k in d && k != "latitude" && k != "longitude" ==> r.value[k] == d[k]
    ensures r.Ok? ==> forall k :: k in d && (k == "latitude" || k == "longitude") ==>
      r.value[k] == EnsureFloat(d[k], k, parse).value
  {
    var d1 :- EnsureField(d, "latitude", parse);
    EnsureField(d1, "longitude", parse)
  }

  /** After coercion a coordinate is `None` or a float, never a string. */
  lemma CoordinatesAreFloats(d: map<string, Val>, parse: string -> Option<real>)
    requires EnsureCorrectDatatypes(d, parse).Ok?
    ensures var e := EnsureCorrectDatatypes(d, parse).value;
      && ("latitude" in e ==> e["latitude"].Null? || e["latitude"].Num?)
      && ("longitude" in e ==> e["longitude"].Null? || e["longitude"].Num?)
  {
  }

  // ----- try_geocode and can_geocode -----

  /** `AddressField.non_raw_fields`: keys that mark a dictionary as already
      structured (`formatted` and `raw` are not among them). */
  const NonRawFields: set<string> :=
    {"country", "country_code", "state", "state_code", "locality", "sublocality",
     "postal_code", "street_number", "route", "subpremise", "latitude", "longitude"}

  /** `try_geocode` on a dictionary: it carries none of the structured keys. */
  predicate OnlyRaw(d: map<string, Val>) {
    NonRawFields !! d.Keys
  }

  /** The fewest words a raw address needs before it is sent to the geocoder:
      `len('address street city state/country'.split())`, which
      `ThresholdIsFourWords` evaluates. */
  const MinGeocodeTokens: nat := 4

  /** The sample address the threshold is computed from splits into four
      words (not five). */
  lemma ThresholdIsFourWords()
    ensures |Split("address street city state/country")| == MinGeocodeTokens
  {
    var a, b, c, d := "address", "street", "city", "state/country";
    ThresholdSpelling();
    ThresholdWords();
    SplitFourWords(a, b, c, d);
  }

  lemma ThresholdSpelling()
    ensures "address" + (" " + ("street" + (" " + ("city" + (" " + "state/country")))))
         == "address street city state/country"
  {
  }

  lemma ThresholdWords()
    ensures SpaceFree("address") && SpaceFree("street") && SpaceFree("city") && SpaceFree("state/country")
  {
  }

  lemma SplitFourWords(a: string, b: string, c: string, d: string)
    requires a != [] && b != [] && c != [] && d != []
    requires SpaceFree(a) && SpaceFree(b) && SpaceFree(c) && SpaceFree(d)
    ensures |Split(a + (" " + (b + (" " + (c + (" " + d))))))| == 4
  {
    SplitWord(d, "");
    assert d + "" == d;
    assert |Split(d)| == 1;
    SplitWordThenSpace(c, d);
    SplitWordThenSpace(b, c + (" " + d));
    SplitWordThenSpace(a, b + (" " + (c + (" " + d))));
  }

  /** A word, a space and a text split into one more token than the text. */
  lemma SplitWordThenSpace(w: string, t: string)
    requires w != [] && SpaceFree(w)
    ensures |Split(w + (" " + t))| == 1 + |Split(t)|
  {
    assert IsSpace((" " + t)[0]);
    SplitWord(w, " " + t);
    SplitSpace(t);
  }

  /** `can_geocode`: `raw` holds at least the minimum number of words. */
  predicate CanGeocode(raw: string) {
    |Split(raw)| >= MinGeocodeTokens
  }

  /** A raw address can be geocoded exactly when four or more words begin in it. */
  lemma CanGeocodeCountsWords(raw: string)
    ensures CanGeocode(raw) <==> WordStarts(raw, true) >= 4
  {
    SplitCountsWordStarts(raw);
  }

  // ----- the geocoder response -----

  /** One entry of `address_components`; a missing JSON key is `None`. */
  datatype Component = Component(types: Option<seq<string>>, longName: Option<string>, shortName: Option<string>)

  datatype Location = Location(lat: Option<real>, lng: Option<real>)

  datatype Geometry = Geometry(location: Option<Location>, locationType: Option<string>)

  /** One entry of `results`; `partialMatch` says whether the key `partial_match`
      is present. */
  datatype GeoResult = GeoResult(
    addressComponents: Option<seq<Component>>,
    formattedAddress: Option<string>,
    geometry: Option<Geometry>,
    partialMatch: bool)

  /** What the HTTP request returns: its status code and the `results` list. */
  datatype Response = Response(status: int, results: seq<GeoResult>)

  /** `requests.codes.ok` */
  const StatusOk: int := 200

  /** `list.index(x)`: where `x` first occurs. */
  function FirstIndex(xs: seq<string>, x: string): (i: nat)
    requires x in xs
    ensures i < |xs| && xs[i] == x && x !in xs[..i]
  {
    if xs[0] == x then 0
    else
      var j := FirstIndex(xs[1..], x);
      assert xs[..j + 1] == [xs[0]] + xs[1..][..j];
      j + 1
  }

  /** `list.remove(x)`: the first occurrence of `x` removed. */
  function RemoveFirst(xs: seq<string>, x: string): (r: seq<string>)
    ensures x in xs ==> |r| == |xs| - 1 && multiset(r) == multiset(xs) - multiset{x}
    ensures x !in xs ==> r == xs
    ensures x in xs ==> exists i :: 0 <= i < |xs| && xs[i] == x && x !in xs[..i] && r == xs[..i] + xs[i + 1..]
  {
    if x in xs then
      var i := FirstIndex(xs, x);
      assert xs == xs[..i] + [x] + xs[i + 1..];
      xs[..i] + xs[i + 1..]
    else xs
  }

  /** The component's types once its first `political` has been removed. */
  function EffectiveTypes(ts: seq<string>): seq<string> {
    if "political" in ts then RemoveFirst(ts, "political") else ts
  }

  /** `ac_map.get(t, t)` */
  function ComponentKind(t: string): string {
    if t == "administrative_area_level_1" then "state_code"
    else if t == "country" then "country_code"
    else t
  }

  /** The entries one component adds to the components dictionary, in the
      order the loop body writes them; a `KeyError` or `IndexError` stops the
      body where it is raised, keeping what was written before it. */
  function Writes(c: Component): (w: map<string, string>)
    ensures |w.Keys| <= 2
  {
    match c.types
    case None => map[]
    case Some(ts) =>
      var ts := EffectiveTypes(ts);
      if |ts| == 0 then map[]
      else
        var kind := ComponentKind(ts[0]);
        if EndsWith(kind, "_code") then
          match c.longName
          case None => map[]
          case Some(l) =>
            var ac := map[RemoveAll(kind, "_code") := l];
            assert ac.Keys == {RemoveAll(kind, "_code")};
            match c.shortName
            case None => ac
            case Some(s) => ac[kind := s]
        else
          match c.shortName
          case None => map[]
          case Some(s) => map[kind := s]
  }

  /** Component `i` writes `k` and no later component does. */
  predicate LastWriter(cs: seq<Component>, i: int, k: string) {
    0 <= i < |cs| && k in Writes(cs[i]) && forall j :: i < j < |cs| ==> k !in Writes(cs[j])
  }

  function Absorb(ac: map<string, string>, cs: seq<Component>): map<string, string>
    decreases |cs|
  {
    if cs == [] then ac else Absorb(ac + Writes(cs[0]), cs[1..])
  }

  /** `get_address_components_dict` */
  function ComponentsDict(cs: seq<Component>): map<string, string> {
    Absorb(map[], cs)
  }

  /** The loop over the components: a key is present when some component
      writes it (or it was there before), and it holds what the last
      component writing it wrote. */
  lemma AbsorbLastWins(ac: map<string, string>, cs: seq<Component>, k: string)
    ensures k in Absorb(ac, cs) <==> k in ac || exists i :: 0 <= i < |cs| && k in Writes(cs[i])
    ensures forall i :: LastWriter(cs, i, k) ==> Absorb(ac, cs)[k] == Writes(cs[i])[k]
    ensures k in ac && (forall i :: 0 <= i < |cs| ==> k !in Writes(cs[i])) ==> Absorb(ac, cs)[k] == ac[k]
  {
    AbsorbKeys(ac, cs, k);
    forall i | LastWriter(cs, i, k)
      ensures Absorb(ac, cs)[k] == Writes(cs[i])[k]
    {
      AbsorbLastWriter(ac, cs, i, k);
    }
    if k in ac && (forall i :: 0 <= i < |cs| ==> k !in Writes(cs[i])) {
      AbsorbUntouched(ac, cs, k);
    }
  }

  /** The components that come after the first one, indexed as in `cs`. */
  lemma TailIndex(cs: seq<Component>, j: int)
    requires 0 <= j < |cs| - 1
    ensures cs[1..][j] == cs[j + 1]
  {
  }

  lemma {:induction false} AbsorbKeys(ac: map<string, string>, cs: seq<Component>, k: string)
    ensures k in Absorb(ac, cs) <==> k in ac || exists i :: 0 <= i < |cs| && k in Writes(cs[i])
    decreases |cs|
  {
    if cs != [] {
      var ac1 := ac + Writes(cs[0]);
      AbsorbKeys(ac1, cs[1..], k);
      if exists i :: 0 <= i < |cs| && k in Writes(cs[i]) {
        var i :| 0 <= i < |cs| && k in Writes(cs[i]);
        if i > 0 {
          TailIndex(cs, i - 1);
        }
      }
      if exists i :: 0 <= i < |cs[1..]| && k in Writes(cs[1..][i]) {
        var i :| 0 <= i < |cs[1..]| && k in Writes(cs[1..][i]);
        TailIndex(cs, i);
      }
    }
  }

  lemma {:induction false} AbsorbLastWriter(ac: map<string, string>, cs: seq<Component>, i: int, k: string)
    requires LastWriter(cs, i, k)
    ensures k in Absorb(ac, cs) && Absorb(ac, cs)[k] == Writes(cs[i])[k]
    decreases |cs|
  {
    var ac1 := ac + Writes(cs[0]);
    if i > 0 {
      TailIndex(cs, i - 1);
      forall j | i - 1 < j < |cs[1..]| ensures k !in Writes(cs[1..][j]) {
        TailIndex(cs, j);
      }
      AbsorbLastWriter(ac1, cs[1..], i - 1, k);
    } else {
      forall j | 0 <= j < |cs[1..]| ensures k !in Writes(cs[1..][j]) {
        TailIndex(cs, j);
      }
      AbsorbUntouched(ac1, cs[1..], k);
    }
  }

  lemma {:induction false} AbsorbUntouched(ac: map<string, string>, cs: seq<Component>, k: string)
    requires k in ac && forall i :: 0 <= i < |cs| ==> k !in Writes(cs[i])
    ensures k in Absorb(ac, cs) && Absorb(ac, cs)[k] == ac[k]
    decreases |cs|
  {
    if cs != [] {
      forall j | 0 <= j < |cs[1..]| ensures k !in Writes(cs[1..][j]) {
        TailIndex(cs, j);
      }
      AbsorbUntouched(ac + Writes(cs[0]), cs[1..], k);
    }
  }

  /** The components dictionary holds a key exactly when some component
      writes it, with the value of the last such component. */
  lemma ComponentsDictLastWins(cs: seq<Component>, k: string)
    ensures k in ComponentsDict(cs) <==> exists i :: 0 <= i < |cs| && k in Writes(cs[i])
    ensures forall i :: LastWriter(cs, i, k) ==> ComponentsDict(cs)[k] == Writes(cs[i])[k]
  {
    AbsorbLastWins(map[], cs, k);
  }

  /** A component whose kind is `w_code` writes its long name under `w` and
      its short name under `w_code`. */
  lemma CodeComponentWrites(c: Component, w: string)
    requires forall i :: 0 <= i < |w| ==> w[i] != '_'
    requires c.types.Some? && EffectiveTypes(c.types.value) != []
    requires ComponentKind(EffectiveTypes(c.types.value)[0]) == w + "_code"
    requires c.longName.Some? && c.shortName.Some?
    ensures Writes(c) == map[w := c.longName.value, w + "_code" := c.shortName.value]
  {
    RemovesCodeSuffix(w);
  }

  /** A first-level administrative area gives its long name under `state` and
      its short name under `state_code`; `political` is dropped first. */
  lemma StateComponentWrites(l: string, s: string)
    ensures Writes(Component(Some(["administrative_area_level_1", "political"]), Some(l), Some(s)))
      == map["state" := l, "state_code" := s]
  {
    assert EffectiveTypes(["administrative_area_level_1", "political"]) == ["administrative_area_level_1"];
    var w := "state";
    assert w + "_code" == "state_code";
    CodeComponentWrites(Component(Some(["administrative_area_level_1", "political"]), Some(l), Some(s)), w);
  }

  /** A country gives its long name under `country` and its short name under
      `country_code`. */
  lemma CountryComponentWrites(l: string, s: string)
    ensures Writes(Component(Some(["country", "political"]), Some(l), Some(s)))
      == map["country" := l, "country_code" := s]
  {
    assert EffectiveTypes(["country", "political"]) == ["country"];
    var w := "country";
    assert w + "_code" == "country_code";
    CodeComponentWrites(Component(Some(["country", "political"]), Some(l), Some(s)), w);
  }

  /** A postal code ends in `_code` itself, so its long name also lands under
      `postal`. */
  lemma PostalComponentWrites(l: string, s: string)
    ensures Writes(Component(Some(["postal_code"]), Some(l), Some(s)))
      == map["postal" := l, "postal_code" := s]
  {
    assert EffectiveTypes(["postal_code"]) == ["postal_code"];
    var w := "postal";
    assert w + "_code" == "postal_code";
    CodeComponentWrites(Component(Some(["postal_code"]), Some(l), Some(s)), w);
  }

  /** A locality gives only its short name; a component typed only `political`
      or with no `types` writes nothing. */
  lemma PlainComponentWrites(l: string, s: string)
    ensures Writes(Component(Some(["locality", "political"]), Some(l), Some(s))) == map["locality" := s]
    ensures Writes(Component(Some(["political"]), Some(l), Some(s))) == map[]
    ensures Writes(Component(None, Some(l), Some(s))) == map[]
  {
    assert EffectiveTypes(["locality", "political"]) == ["locality"];
    assert !EndsWith("locality", "_code");
  }

  /** `(w + '_code').replace('_code', '')` is `w` when `w` has no `_`. */
  lemma RemovesCodeSuffix(w: string)
    requires forall i :: 0 <= i < |w| ==> w[i] != '_'
    ensures RemoveAll(w + "_code", "_code") == w
    ensures EndsWith(w + "_code", "_code")
  {
    var p := "_code";
    assert p[0] == '_';
    RemovesTrailingPattern(w, p);
    assert (w + p)[|w + p| - |p|..] == p;
  }

  /** Removing every `p` from `w + p` leaves `w` when no character of `w`
      starts `p`. */
  lemma {:induction false} RemovesTrailingPattern(w: string, p: string)
    requires p != []
    requires forall i :: 0 <= i < |w| ==> w[i] != p[0]
    ensures RemoveAll(w + p, p) == w
    decreases |w|
  {
    var s := w + p;
    if w == [] {
      assert s == p && s[..|p|] == p && s[|p|..] == [];
    } else {
      assert s[..|p|][0] == w[0] != p[0];
      assert s[1..] == w[1..] + p;
      RemovesTrailingPattern(w[1..], p);
    }
  }

  /** `verify_not_approximate`: a reported location type other than `ROOFTOP`. */
  predicate Approximate(r: GeoResult) {
    r.geometry.Some? && r.geometry.value.locationType.Some? && r.geometry.value.locationType.value != "ROOFTOP"
  }

  /** `address_components.get(key)` as a dictionary value. */
  function Lookup(ac: map<string, string>, key: string): (v: Val)
    ensures v.Null? <==> key !in ac
  {
    if key in ac then Str(ac[key]) else Null
  }

  /** The component keys `flatten` copies from the components dictionary:
      country, country_code, locality, postal_code, route, subpremise,
      street_number, state and state_code, that is, every text key the
      canonicaliser reads except sublocality and formatted. */
  const ComponentKeys: set<string> := TextKeys - {"sublocality", "formatted"}

  /** `flatten(result)`: the nine component keys, `formatted` and the two
      coordinates; the errors of a missing `address_components`, `geometry`,
      `location`, `lat` or `lng`, in that order. */
  function Flatten(r: GeoResult): (v: Result<map<string, Val>, Error>)
    ensures r.addressComponents.None? ==> v == Err(KeyError("address_components"))
    ensures v.Ok? <==> r.addressComponents.Some? && r.geometry.Some? && r.geometry.value.location.Some?
                       && r.geometry.value.location.value.lat.Some? && r.geometry.value.location.value.lng.Some?
    ensures v.Ok? ==> v.value.Keys == ComponentKeys + {"formatted", "latitude", "longitude"}
    ensures v.Ok? ==> forall k :: k in ComponentKeys ==>
      (v.value[k].Null? <==> k !in ComponentsDict(r.addressComponents.value))
      && (k in ComponentsDict(r.addressComponents.value) ==> v.value[k] == Str(ComponentsDict(r.addressComponents.value)[k]))
    ensures v.Ok? ==> v.value["formatted"] == TextVal(r.formattedAddress)
    ensures v.Ok? ==> v.value["latitude"] == Num(r.geometry.value.location.value.lat.value)
                      && v.value["longitude"] == Num(r.geometry.value.location.value.lng.value)
  {
    match r.addressComponents
    case None => Err(KeyError("address_components"))
    case Some(cs) =>
      var ac := ComponentsDict(cs);
      match r.geometry
      case None => Err(AttributeError)       // None.get('location')
      case Some(g) =>
        match g.location
        case None => Err(TypeError)          // None['lat']
        case Some(loc) =>
          if loc.lat.None? then Err(KeyError("lat"))
          else if loc.lng.None? then Err(KeyError("lng"))
          else
            var texts := map k | k in ComponentKeys :: Lookup(ac, k);
            Ok(texts["formatted" := TextVal(r.formattedAddress)]
                    ["latitude" := Num(loc.lat.value)]["longitude" := Num(loc.lng.value)])
  }

  /** What `geocode()` returns: `raw` itself when it is too short to send,
      nothing when the request failed, or the flattened result with `raw`. */
  datatype GeoOutcome = Unchanged(raw: string) | NoMatch | Geocoded(fields: map<string, Val>)

  /** A partial match is forgiven when the reported subpremise is non-empty
      and occurs in `raw`. */
  predicate PartialForgiven(value: map<string, Val>, raw: string) {
    "subpremise" in value && value["subpremise"].Str? && value["subpremise"].s != ""
    && Contains(raw, value["subpremise"].s)
  }

  /** The checks `geocode()` applies to the single result, in order: an
      approximate location is rejected before anything else, then the result
      is flattened, then a partial match not forgiven by its subpremise is
      rejected; the coordinates are coerced and `raw` is added. */
  function AcceptResult(raw: string, result: GeoResult, parse: string -> Option<real>)
    : (r: Result<map<string, Val>, Error>)
    ensures Approximate(result) ==> r == Err(ApproximateMatch(raw))
    ensures r.Ok? <==> && !Approximate(result) && Flatten(result).Ok?
                       && (!result.partialMatch || PartialForgiven(Flatten(result).value, raw))
    ensures (!Approximate(result) && Flatten(result).Ok? && result.partialMatch
             && !PartialForgiven(Flatten(result).value, raw)) ==> r == Err(PartialMatch(raw))
    ensures r.Ok? ==> r.value.Keys == ComponentKeys + {"formatted", "latitude", "longitude", "raw"}
    ensures r.Ok? ==> r.value["raw"] == Str(raw)
    ensures r.Err? ==> r.error.AttributeError? || r.error.ApproximateMatch? || r.error.PartialMatch?
                       || r.error.KeyError? || r.error.TypeError?
  {
    if Approximate(result) then Err(ApproximateMatch(raw))
    else
      var value :- Flatten(result);
      if result.partialMatch && !PartialForgiven(value, raw) then Err(PartialMatch(raw))
      else
        assert !BadCoordinate(value, "latitude", parse) && !BadCoordinate(value, "longitude", parse);
        match EnsureCorrectDatatypes(value, parse)
        case Ok(value) => Ok(value["raw" := Str(raw)])
        case Err(e) => Err(e)
  }

  /** `GeocodeRaw(raw).geocode()` given the response the request would get. */
  function GeocodeRaw(raw: Val, resp: Response, parse: string -> Option<real>): (r: Result<GeoOutcome, Error>)
    ensures !raw.Str? ==> r == Err(AttributeError)
    ensures r.Ok? && r.value.Geocoded? ==>
      && r.value.fields.Keys == ComponentKeys + {"formatted", "latitude", "longitude", "raw"}
      && r.value.fields["raw"] == raw
    ensures r.Err? ==> r.error.AttributeError? || r.error.TooManyResults? || r.error.IndexError?
                       || r.error.ApproximateMatch? || r.error.PartialMatch? || r.error.KeyError?
                       || r.error.TypeError?
  {
    match raw
    case Str(s) =>
      if !CanGeocode(s) then Ok(Unchanged(s))
      else if resp.status != StatusOk then Ok(NoMatch)
      else if |resp.results| > 1 then Err(TooManyResults(s))
      else if |resp.results| == 0 then Err(IndexError)
      else
        var value :- AcceptResult(s, resp.results[0], parse);
        Ok(Geocoded(value))
    case _ => Err(AttributeError)     // None.split() or float.split()
  }

  /** The canonicaliser applied to what `geocode()` returned: the raw text
      itself, nothing, or the flattened result. */
  function OutcomeToPython(g: GeoOutcome, st: Store): (r: Result<(Value, Store), Error>)
    ensures r.Ok? ==> GrowsByAtMostOne(st, r.value.1)
    ensures r.Ok? ==> (r.value.0 == Nothing && r.value.1 == st)
                      || (r.value.0.AddressRef? && r.value.0.id < |r.value.1.addresses|)
    ensures r.Err? ==> r.error != InconsistentDict
  {
    match g
    case Unchanged(s) => ToPython(Text(s), st)
    case NoMatch => ToPython(Nothing, st)
    case Geocoded(fields) => ToPython(Dict(fields), st)
  }

  /** The dictionary branch of the field's `to_python`: coerce the
      coordinates, then geocode a dictionary that carries only `raw`, and
      canonicalise. */
  function DictFieldToPython(d: map<string, Val>, st: Store, resp: Response, parse: string -> Option<real>)
    : (r: Result<(Value, Store), Error>)
    ensures r.Ok? ==> GrowsByAtMostOne(st, r.value.1)
    ensures r.Ok? ==> (r.value.0 == Nothing && r.value.1 == st)
                      || (r.value.0.AddressRef? && r.value.0.id < |r.value.1.addresses|)
    ensures r.Err? ==> r.error != InconsistentDict
  {
    var d1 :- EnsureCorrectDatatypes(d, parse);
    if OnlyRaw(d1) then GeocodeThenToPython(d1, st, resp, parse)
    else ToPython(Dict(d1), st)
  }

  /** A dictionary with only `raw`: `value['raw']` is geocoded and the
      outcome canonicalised. */
  function GeocodeThenToPython(d: map<string, Val>, st: Store, resp: Response, parse: string -> Option<real>)
    : (r: Result<(Value, Store), Error>)
    ensures r.Ok? ==> GrowsByAtMostOne(st, r.value.1)
    ensures r.Ok? ==> (r.value.0 == Nothing && r.value.1 == st)
                      || (r.value.0.AddressRef? && r.value.0.id < |r.value.1.addresses|)
    ensures r.Err? ==> r.error != InconsistentDict
  {
    if "raw" !in d then Err(KeyError("raw"))
    else
      var g :- GeocodeRaw(d["raw"], resp, parse);
      OutcomeToPython(g, st)
  }

  /** `AddressField.to_python(value)`: `None` and `''` are empty; any other
      non-dictionary fails inside `ensure_correct_datatypes` or at
      `value['raw']`; a structured dictionary is canonicalised directly, and a
      dictionary with only `raw` is geocoded first. */
  function FieldToPython(v: Value, st: Store, resp: Response, parse: string -> Option<real>)
    : (r: Result<(Value, Store), Error>)
    ensures v.Nothing? || v == Text("") ==> r == Ok((Nothing, st))
    ensures !v.Nothing? && !v.Dict? && v != Text("") ==> r == Err(TypeError)
    ensures r.Ok? ==> GrowsByAtMostOne(st, r.value.1)
    ensures r.Ok? ==> (r.value.0 == Nothing && r.value.1 == st)
                      || (r.value.0.AddressRef? && r.value.0.id < |r.value.1.addresses|)
    ensures r.Err? ==> r.error != InconsistentDict
  {
    match v
    case Nothing => Ok((Nothing, st))
    case Text(s) => if s == "" then Ok((Nothing, st)) else Err(TypeError)
    case Dict(d) => DictFieldToPython(d, st, resp, parse)
    case _ => Err(TypeError)
  }
}
