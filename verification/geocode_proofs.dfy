/** Properties of the form field and the geocode policy: which inputs reach the
    geocoder at all, which responses are accepted, and what reaches the
    canonicaliser afterwards. */
module GeocodeProofs {
  import opened Wrappers
  import opened Values
  import opened Text
  import opened Records
  import opened Canonical
  import opened Geocode

  // ----- eligibility -----

  /** A raw address of fewer than four words is never sent: the outcome is the
      raw text itself, whatever the geocoder would have answered. */
  lemma ShortRawIsNotSent(s: string, resp1: Response, resp2: Response, parse: string -> Option<real>)
    requires WordStarts(s, true) < 4
    ensures GeocodeRaw(Str(s), resp1, parse) == Ok(Unchanged(s))
    ensures GeocodeRaw(Str(s), resp1, parse) == GeocodeRaw(Str(s), resp2, parse)
  {
    CanGeocodeCountsWords(s);
  }

  /** A structured dictionary (one with any key besides `raw` and `formatted`)
      is never geocoded: the field canonicalises it as coerced, whatever the
      geocoder would have answered. */
  lemma StructuredDictIsNotSent(d: map<string, Val>, st: Store, resp1: Response, resp2: Response,
                                parse: string -> Option<real>)
    requires !OnlyRaw(d)
    ensures FieldToPython(Dict(d), st, resp1, parse) == FieldToPython(Dict(d), st, resp2, parse)
    ensures EnsureCorrectDatatypes(d, parse).Ok? ==>
      FieldToPython(Dict(d), st, resp1, parse) == ToPython(Dict(EnsureCorrectDatatypes(d, parse).value), st)
  {
    var e := EnsureCorrectDatatypes(d, parse);
    if e.Ok? {
      assert e.value.Keys == d.Keys;
    }
  }

  /** A dictionary whose every component is present but empty is not geocoded
      either (the keys alone make it structured): when no Address has its
      `raw` yet and no Country has an empty name, the result is a new Address
      linked to no Locality. */
  lemma EmptyComponentsAreNotGeocoded(d: map<string, Val>, st: Store, resp: Response, parse: string -> Option<real>)
    requires forall k :: k in TextKeys ==> k in d && d[k] == Str("")
    requires "latitude" !in d && "longitude" !in d
    requires "raw" in d && d["raw"].Str? && d["raw"].s != ""
    requires Find(st.addresses, RawKey(d["raw"].s)).Missing?
    requires Find(st.countries, CountryKey(Some(""))).Missing?
    requires FieldToPython(Dict(d), st, resp, parse).Ok?
    ensures var (v, st') := FieldToPython(Dict(d), st, resp, parse).value;
      && v == AddressRef(|st.addresses|)
      && st'.addresses[v.id].locality.None?
      && st'.addresses[v.id].raw == d["raw"].s
  {
    assert "country" in d;
    assert !OnlyRaw(d);
    var e := EnsureCorrectDatatypes(d, parse);
    assert e == Ok(d);
    var raw := d["raw"].s;
    ReadRequestReadsTextKeys(d, raw);
    var req := ReadRequest(d, raw).value;
    assert req.streetNumber == Some("") && req.route == Some("") && req.subpremise == Some("");
    assert req.country == Some("") && req.state == Some("") && req.locality == Some("") && req.sublocality == Some("");
    var locality := EffectiveLocality(req);
    assert MatchByRaw(req, locality);
    assert ResolveCountry(st, req.country, req.countryCode) == Ok((None, st));
    assert Find(st.states, StateKey(req.state, None)).Missing?;
    assert ResolveState(st, req.state, req.stateCode, None) == Ok((None, st));
    assert Find(st.localities, LocalityKey(locality, req.postalCode, None)).Missing?;
    assert ResolveLocality(st, locality, req.postalCode, None) == Ok((None, st));
    assert ResolveHierarchy(st, req, locality) == Ok((None, st));
    assert FieldToPython(Dict(d), st, resp, parse) == ToPython(Dict(d), st);
  }

  // ----- the response policy -----

  /** The outcome of a request for a raw address of four or more words: a
      failed request yields nothing; several results, or none, are errors;
      a single result is judged by `AcceptResult`. */
  lemma ResponseOutcomes(s: string, resp: Response, parse: string -> Option<real>)
    requires CanGeocode(s)
    ensures resp.status != StatusOk ==> GeocodeRaw(Str(s), resp, parse) == Ok(NoMatch)
    ensures resp.status == StatusOk && |resp.results| > 1 ==>
      GeocodeRaw(Str(s), resp, parse) == Err(TooManyResults(s))
    ensures resp.status == StatusOk && |resp.results| == 0 ==> GeocodeRaw(Str(s), resp, parse) == Err(IndexError)
    ensures resp.status == StatusOk && |resp.results| == 1 ==>
      var a := AcceptResult(s, resp.results[0], parse);
      GeocodeRaw(Str(s), resp, parse) == if a.Ok? then Ok(Geocoded(a.value)) else Err(a.error)
  {
    var g := GeocodeRaw(Str(s), resp, parse);
    if resp.status != StatusOk {
      assert g == Ok(NoMatch);
    } else if |resp.results| > 1 {
      assert g == Err(TooManyResults(s));
    } else if |resp.results| == 0 {
      assert g == Err(IndexError);
    } else {
      var a := AcceptResult(s, resp.results[0], parse);
      assert g == if a.Ok? then Ok(Geocoded(a.value)) else Err(a.error);
    }
  }

  /** A response is turned into an Address's components exactly when the raw
      address has four or more words, the request succeeded with a single
      result, that result is rooftop-precise (or gives no precision), it has
      components and coordinates, and it is not a partial match unless its
      subpremise occurs in the raw text. */
  lemma GeocodedExactly(s: string, resp: Response, parse: string -> Option<real>)
    ensures (GeocodeRaw(Str(s), resp, parse).Ok? && GeocodeRaw(Str(s), resp, parse).value.Geocoded?)
      <==> && WordStarts(s, true) >= 4
           && resp.status == StatusOk && |resp.results| == 1
           && !Approximate(resp.results[0])
           && Flatten(resp.results[0]).Ok?
           && (!resp.results[0].partialMatch || PartialForgiven(Flatten(resp.results[0]).value, s))
  {
    CanGeocodeCountsWords(s);
    if CanGeocode(s) && resp.status == StatusOk && |resp.results| == 1 {
      ResponseOutcomes(s, resp, parse);
    }
  }

  /** An approximate location is rejected even when the result is also a
      partial match, and no subpremise can forgive it. */
  lemma ApproximateBeatsPartial(s: string, r: GeoResult, parse: string -> Option<real>)
    requires CanGeocode(s)
    requires Approximate(r)
    ensures GeocodeRaw(Str(s), Response(StatusOk, [r]), parse) == Err(ApproximateMatch(s))
  {
  }

  /** A partial match whose components carry no subpremise is rejected with
      the raw text; one whose subpremise occurs in the raw text is accepted. */
  lemma PartialMatchRule(s: string, r: GeoResult, parse: string -> Option<real>)
    requires !Approximate(r) && Flatten(r).Ok? && r.partialMatch
    ensures "subpremise" !in ComponentsDict(r.addressComponents.value) ==>
      AcceptResult(s, r, parse) == Err(PartialMatch(s))
    ensures var cs := ComponentsDict(r.addressComponents.value);
      "subpremise" in cs && cs["subpremise"] != "" && Contains(s, cs["subpremise"]) ==>
      AcceptResult(s, r, parse).Ok?
  {
    assert "subpremise" in ComponentKeys;
  }

  /** What an accepted result hands to the canonicaliser: `raw` is the text
      that was sent and no text key holds a float, so the canonicaliser reads
      every component. */
  lemma AcceptedResultIsReadable(s: string, r: GeoResult, parse: string -> Option<real>)
    requires AcceptResult(s, r, parse).Ok?
    ensures AcceptResult(s, r, parse).value["raw"] == Str(s)
    ensures ReadRequest(AcceptResult(s, r, parse).value, s).Ok?
  {
    var value := Flatten(r).value;
    var e := EnsureCorrectDatatypes(value, parse).value;
    var f := AcceptResult(s, r, parse).value;
    assert f == e["raw" := Str(s)];
    FlattenedTextIsText(r);
    NoFloatUnderTextKeys(value, e, f, s);
    ReadRequestReadsTextKeys(f, s);
  }

  /** The component keys and `formatted` of a flattened result hold text or `None`. */
  lemma FlattenedTextIsText(r: GeoResult)
    requires Flatten(r).Ok?
    ensures forall k :: k in ComponentKeys + {"formatted"} ==> k in Flatten(r).value && !Flatten(r).value[k].Num?
  {
    var value := Flatten(r).value;
    forall k | k in ComponentKeys + {"formatted"}
      ensures k in value && !value[k].Num?
    {
      if k in ComponentKeys {
        var cs := ComponentsDict(r.addressComponents.value);
        assert value[k].Null? || (k in cs && value[k] == Str(cs[k]));
      }
    }
  }

  /** A dictionary whose text keys come from a flattened result, with only the
      coordinates changed and `raw` added, holds no float under a text key. */
  lemma NoFloatUnderTextKeys(value: map<string, Val>, e: map<string, Val>, f: map<string, Val>, s: string)
    requires value.Keys == ComponentKeys + {"formatted", "latitude", "longitude"}
    requires forall k :: k in ComponentKeys + {"formatted"} ==> k in value && !value[k].Num?
    requires e.Keys == value.Keys
    requires forall k :: k in value && k != "latitude" && k != "longitude" ==> e[k] == value[k]
    requires f == e["raw" := Str(s)]
    ensures forall k :: k in TextKeys ==> !Get(f, k, Str("")).Num?
  {
    forall k | k in TextKeys
      ensures !Get(f, k, Str("")).Num?
    {
      if k in ComponentKeys + {"formatted"} {
        assert f[k] == e[k] == value[k];
      } else {
        assert k !in f;
      }
    }
  }

  /** Each accepted coordinate is the reported one, or `None` when the
      geocoder reported exactly zero. */
  lemma AcceptedCoordinates(s: string, r: GeoResult, parse: string -> Option<real>)
    requires AcceptResult(s, r, parse).Ok?
    ensures var f := AcceptResult(s, r, parse).value;
      var lat := r.geometry.value.location.value.lat.value;
      var lng := r.geometry.value.location.value.lng.value;
      && f["latitude"] == (if lat == 0.0 then Null else Num(lat))
      && f["longitude"] == (if lng == 0.0 then Null else Num(lng))
  {
    var value := Flatten(r).value;
    var e := EnsureCorrectDatatypes(value, parse).value;
    assert AcceptResult(s, r, parse).value == e["raw" := Str(s)];
  }

  // ----- the form field -----

  /** `to_python(None)` and `to_python('')` are empty. */
  lemma EmptyInputs(st: Store, resp: Response, parse: string -> Option<real>)
    ensures FieldToPython(Nothing, st, resp, parse) == Ok((Nothing, st))
    ensures FieldToPython(Text(""), st, resp, parse) == Ok((Nothing, st))
  {
  }

  /** A coordinate that is not a float is rejected, naming the field. */
  lemma BadCoordinateExamples(st: Store, resp: Response, parse: string -> Option<real>)
    requires parse("x").None?
    ensures FieldToPython(Dict(map["latitude" := Str("x")]), st, resp, parse) == Err(InvalidNumeric("latitude"))
    ensures FieldToPython(Dict(map["longitude" := Str("x")]), st, resp, parse) == Err(InvalidNumeric("longitude"))
  {
  }

  /** An empty coordinate becomes `None`, and a dictionary holding only that
      canonicalises to nothing. */
  lemma EmptyCoordinateExamples(st: Store, resp: Response, parse: string -> Option<real>)
    ensures FieldToPython(Dict(map["latitude" := Str("")]), st, resp, parse) == Ok((Nothing, st))
    ensures FieldToPython(Dict(map["longitude" := Str("")]), st, resp, parse) == Ok((Nothing, st))
  {
    EmptyCoordinateExample(st, resp, parse, "latitude");
    EmptyCoordinateExample(st, resp, parse, "longitude");
  }

  lemma EmptyCoordinateExample(st: Store, resp: Response, parse: string -> Option<real>, k: string)
    requires k in {"latitude", "longitude"}
    ensures FieldToPython(Dict(map[k := Str("")]), st, resp, parse) == Ok((Nothing, st))
  {
    var d := map[k := Str("")];
    assert !BadCoordinate(d, "latitude", parse) && !BadCoordinate(d, "longitude", parse);
    var e := EnsureCorrectDatatypes(d, parse).value;
    assert e.Keys == {k} && e[k] == EnsureFloat(Str(""), k, parse).value == Null;
    assert e == map[k := Null];
    assert !OnlyRaw(e) by { assert k in NonRawFields; }
    assert !Truthy(Get(e, "raw", Str("")));
  }

  /** A dictionary with only `raw` (and possibly `formatted`) goes to the
      geocoder as it is, and what comes back is canonicalised. */
  lemma RawOnlyDictIsSent(d: map<string, Val>, st: Store, resp: Response, parse: string -> Option<real>)
    requires OnlyRaw(d)
    ensures "raw" !in d ==> FieldToPython(Dict(d), st, resp, parse) == Err(KeyError("raw"))
    ensures "raw" in d ==>
      FieldToPython(Dict(d), st, resp, parse) ==
        match GeocodeRaw(d["raw"], resp, parse)
        case Err(e) => Err(e)
        case Ok(Unchanged(s)) => ToPython(Text(s), st)
        case Ok(NoMatch) => ToPython(Nothing, st)
        case Ok(Geocoded(fields)) => ToPython(Dict(fields), st)
  {
    assert "latitude" !in d && "longitude" !in d by {
      assert "latitude" in NonRawFields && "longitude" in NonRawFields;
    }
    assert EnsureCorrectDatatypes(d, parse) == Ok(d);
  }

  /** A raw address of fewer than four words, an empty one included, becomes
      a new raw-only Address; a failed request yields nothing. */
  lemma RawOnlyDictOutcomes(d: map<string, Val>, st: Store, resp: Response, parse: string -> Option<real>)
    requires OnlyRaw(d) && "raw" in d && d["raw"].Str?
    ensures !CanGeocode(d["raw"].s) ==>
      FieldToPython(Dict(d), st, resp, parse) == Ok(CreateRawOnly(st, d["raw"].s))
    ensures CanGeocode(d["raw"].s) && resp.status != StatusOk ==>
      FieldToPython(Dict(d), st, resp, parse) == Ok((Nothing, st))
  {
    RawOnlyDictIsSent(d, st, resp, parse);
  }

  /** `{'raw': 'Someplace'}` is a single word, so it is stored as typed. */
  lemma SingleWordIsStoredAsTyped(st: Store, resp: Response, parse: string -> Option<real>)
    ensures FieldToPython(Dict(map["raw" := Str("Someplace")]), st, resp, parse)
      == Ok((AddressRef(|st.addresses|), st.(addresses := st.addresses + [RawOnly("Someplace")])))
  {
    var d := map["raw" := Str("Someplace")];
    assert OnlyRaw(d);
    OneWordIsTooShort();
    RawOnlyDictOutcomes(d, st, resp, parse);
  }

  lemma OneWordIsTooShort()
    ensures !CanGeocode("Someplace")
  {
    assert WordStarts("Someplace", true) == 1;
    CanGeocodeCountsWords("Someplace");
  }
}
