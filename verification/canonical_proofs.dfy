/** Properties of the canonicaliser: the store keeps its integrity and its
    uniqueness constraints, a consistent call is idempotent, the hierarchy is
    filled all-or-nothing, and `as_dict` gives back what was canonicalised. */
module CanonicalProofs {
  import opened Wrappers
  import opened Values
  import opened Records
  import opened Display
  import opened Canonical

  // ----- integrity and uniqueness, level by level -----

  lemma CountryStepKeepsInvariants(st: Store, name: Option<string>, code: Option<string>)
    requires st.Valid() && st.Unique()
    requires ResolveCountry(st, name, code).Ok?
    ensures var (c, st') := ResolveCountry(st, name, code).value;
      st'.Valid() && st'.Unique() && (c.Some? ==> c.value < |st'.countries|)
  {
    var (c, st') := ResolveCountry(st, name, code).value;
    if st' != st {
      var n := |st.countries|;
      forall i | 0 <= i < n
        ensures st'.countries[i].name != st'.countries[n].name
      {
      }
      assert st'.countries[..n] == st.countries;
    }
  }

  lemma StateStepKeepsInvariants(st: Store, name: Option<string>, code: Option<string>, country: Option<nat>)
    requires st.Valid() && st.Unique()
    requires country.Some? ==> country.value < |st.countries|
    requires ResolveState(st, name, code, country).Ok?
    ensures var (s, st') := ResolveState(st, name, code, country).value;
      st'.Valid() && st'.Unique() && (s.Some? ==> s.value < |st'.states|)
  {
    var (s, st') := ResolveState(st, name, code, country).value;
    if st' != st {
      var n := |st.states|;
      assert StateKey(name, country)(st'.states[n]);
      forall i | 0 <= i < n
        ensures (st'.states[i].name, st'.states[i].country) != (st'.states[n].name, st'.states[n].country)
      {
      }
      assert st'.states[..n] == st.states;
    }
  }

  lemma LocalityStepKeepsInvariants(st: Store, name: Option<string>, postal: Option<string>, state: Option<nat>)
    requires st.Valid() && st.Unique()
    requires state.Some? ==> state.value < |st.states|
    requires ResolveLocality(st, name, postal, state).Ok?
    ensures var (l, st') := ResolveLocality(st, name, postal, state).value;
      st'.Valid() && st'.Unique() && st'.LocalityRefOk(l)
  {
    var (l, st') := ResolveLocality(st, name, postal, state).value;
    if st' != st {
      var n := |st.localities|;
      var row := st'.localities[n];
      assert LocalityKey(name, postal, state)(row);
      forall i | 0 <= i < n
        ensures (st'.localities[i].name, st'.localities[i].postalCode, st'.localities[i].state)
                != (row.name, row.postalCode, row.state)
      {
      }
      assert st'.localities[..n] == st.localities;
    }
  }

  lemma AddressStepKeepsInvariants(st: Store, req: Request, locality: Option<string>, localityId: Option<nat>)
    requires st.Valid() && st.Unique()
    requires st.LocalityRefOk(localityId)
    requires ResolveAddress(st, req, locality, localityId).Ok?
    ensures var (a, st') := ResolveAddress(st, req, locality, localityId).value;
      st'.Valid() && st'.Unique() && a < |st'.addresses|
  {
    var (a, st') := ResolveAddress(st, req, locality, localityId).value;
    if st' != st {
      assert st'.addresses[..|st.addresses|] == st.addresses;
    }
  }

  lemma HierarchyKeepsInvariants(st: Store, req: Request, locality: Option<string>)
    requires st.Valid() && st.Unique()
    requires ResolveHierarchy(st, req, locality).Ok?
    ensures var (l, st') := ResolveHierarchy(st, req, locality).value;
      st'.Valid() && st'.Unique() && st'.LocalityRefOk(l)
  {
    var c := ResolveCountry(st, req.country, req.countryCode).value;
    CountryStepKeepsInvariants(st, req.country, req.countryCode);
    var s := ResolveState(c.1, req.state, req.stateCode, c.0).value;
    StateStepKeepsInvariants(c.1, req.state, req.stateCode, c.0);
    LocalityStepKeepsInvariants(s.1, locality, req.postalCode, s.0);
  }

  /** Canonicalising any value keeps every foreign key pointing at a row and
      never creates two Countries with one name, two States with one
      (name, country) or two Localities with one (name, postal code, state);
      existing rows are never changed and each table gains at most one row. */
  lemma ToPythonKeepsInvariants(v: Value, st: Store)
    requires st.Valid() && st.Unique()
    requires ToPython(v, st).Ok?
    ensures var (w, st') := ToPython(v, st).value;
      && st'.Valid() && st'.Unique() && GrowsByAtMostOne(st, st')
      && (w.AddressRef? ==> w == v || w.id < |st'.addresses|)
  {
    var (w, st') := ToPython(v, st).value;
    match v
    case Text(s) =>
      assert st'.addresses[..|st.addresses|] == st.addresses;
    case Dict(d) =>
      var r := ToPythonDict(d, st);
      if r.Ok? {
        var raw := Get(d, "raw", Str(""));
        if Truthy(raw) {
          var req := ReadRequest(d, raw.s).value;
          var locality := EffectiveLocality(req);
          var h := ResolveHierarchy(st, req, locality).value;
          HierarchyKeepsInvariants(st, req, locality);
          AddressStepKeepsInvariants(h.1, req, locality, h.0);
        }
      } else {
        assert st'.addresses[..|st.addresses|] == st.addresses;
      }
    case _ =>
  }

  /** The steps of a dictionary canonicalisation that produced an Address:
      a string `raw`, a request without floats, a consistent hierarchy, the
      hierarchy lookups and then the Address lookup. */
  lemma DictPathSteps(d: map<string, Val>, st: Store)
    requires ToPythonDict(d, st).Ok? && ToPythonDict(d, st).value.0.AddressRef?
    ensures var raw := Get(d, "raw", Str(""));
      && raw.Str? && raw.s != "" && ReadRequest(d, raw.s).Ok?
      && var req := ReadRequest(d, raw.s).value;
         var locality := EffectiveLocality(req);
         && !Inconsistent(req.country, req.state, locality)
         && ResolveHierarchy(st, req, locality).Ok?
         && var h := ResolveHierarchy(st, req, locality).value;
            && ResolveAddress(h.1, req, locality, h.0).Ok?
            && var a := ResolveAddress(h.1, req, locality, h.0).value;
               ToPythonDict(d, st) == Ok((AddressRef(a.0), a.1))
  {
  }

  // ----- idempotence and shared rows -----

  /** A second lookup by the same names, whatever codes it carries and however
      the address table changed meanwhile, finds the rows the first call found
      or created and creates nothing. */
  lemma HierarchyIsShared(st: Store, req: Request, locality: Option<string>, st2: Store, req2: Request)
    requires ResolveHierarchy(st, req, locality).Ok?
    requires req2.country == req.country && req2.state == req.state && req2.postalCode == req.postalCode
    requires var st1 := ResolveHierarchy(st, req, locality).value.1;
      st2.countries == st1.countries && st2.states == st1.states && st2.localities == st1.localities
    ensures ResolveHierarchy(st2, req2, locality) == Ok((ResolveHierarchy(st, req, locality).value.0, st2))
  {
    var c := ResolveCountry(st, req.country, req.countryCode).value;
    var s := ResolveState(c.1, req.state, req.stateCode, c.0).value;
    var l := ResolveLocality(s.1, locality, req.postalCode, s.0).value;
    assert ResolveCountry(st2, req2.country, req2.countryCode) == Ok((c.0, st2));
    assert ResolveState(st2, req2.state, req2.stateCode, c.0) == Ok((s.0, st2));
    assert ResolveLocality(st2, locality, req2.postalCode, s.0) == Ok((l.0, st2));
  }

  /** Repeating a call that canonicalised a dictionary without falling back to
      a raw-only Address returns the same result and leaves the store as it is. */
  lemma ToPythonIsIdempotent(d: map<string, Val>, st: Store)
    requires ToPythonDict(d, st).Ok?
    ensures var (w, st') := ToPythonDict(d, st).value;
      ToPython(Dict(d), st') == Ok((w, st'))
  {
    var (w, st') := ToPythonDict(d, st).value;
    SecondCanonicalisationAgrees(d, st);
    assert ToPython(Dict(d), st') == DictToPython(d, st');
  }

  /** The canonicalisation itself, repeated on the store it produced, gives
      the same value and no new row. */
  lemma SecondCanonicalisationAgrees(d: map<string, Val>, st: Store)
    requires ToPythonDict(d, st).Ok?
    ensures var (w, st') := ToPythonDict(d, st).value;
      ToPythonDict(d, st') == Ok((w, st'))
  {
    var (w, st') := ToPythonDict(d, st).value;
    if w.AddressRef? {
      DictPathSteps(d, st);
      var raw := Get(d, "raw", Str(""));
      var req := ReadRequest(d, raw.s).value;
      var locality := EffectiveLocality(req);
      var h := ResolveHierarchy(st, req, locality).value;
      var a := ResolveAddress(h.1, req, locality, h.0).value;
      HierarchyIsShared(st, req, locality, st', req);
      assert ResolveAddress(st', req, locality, h.0) == Ok((a.0, st'));
    }
  }

  /** The rows a successful hierarchy lookup for non-empty names ends at: a
      Locality with that name and postal code, whose State has that name and
      whose Country has that name. */
  lemma HierarchyRowsMatch(st: Store, req: Request, locality: Option<string>)
    requires ResolveHierarchy(st, req, locality).Ok?
    requires Filled(req.country) && Filled(req.state) && Filled(locality)
    ensures var (l, st') := ResolveHierarchy(st, req, locality).value;
      && l.Some? && l.value < |st'.localities|
      && var loc := st'.localities[l.value];
         && Some(loc.name) == locality && Some(loc.postalCode) == req.postalCode
         && loc.state < |st'.states|
         && var state := st'.states[loc.state];
            && Some(state.name) == req.state
            && state.country < |st'.countries|
            && Some(st'.countries[state.country].name) == req.country
  {
    var c := ResolveCountry(st, req.country, req.countryCode).value;
    var s := ResolveState(c.1, req.state, req.stateCode, c.0).value;
    var l := ResolveLocality(s.1, locality, req.postalCode, s.0).value;
    assert CountryKey(req.country)(c.1.countries[c.0.value]);
    assert StateKey(req.state, c.0)(s.1.states[s.0.value]);
    assert LocalityKey(locality, req.postalCode, s.0)(l.1.localities[l.0.value]);
  }

  /** The components a request shares with another when both dictionaries
      agree on country, state, locality, sublocality and postal code. */
  predicate SameHierarchy(d1: map<string, Val>, d2: map<string, Val>) {
    && Get(d1, "country", Str("")) == Get(d2, "country", Str(""))
    && Get(d1, "state", Str("")) == Get(d2, "state", Str(""))
    && Get(d1, "locality", Str("")) == Get(d2, "locality", Str(""))
    && Get(d1, "sublocality", Str("")) == Get(d2, "sublocality", Str(""))
    && Get(d1, "postal_code", Str("")) == Get(d2, "postal_code", Str(""))
  }

  /** Two dictionaries naming the same country, state, locality (after the
      sublocality substitution) and postal code, canonicalised one after the
      other, link their Addresses to one and the same Locality row, and the
      second call creates no Country, State or Locality. */
  lemma SameHierarchySharesLocality(d1: map<string, Val>, d2: map<string, Val>, st: Store)
    requires ToPythonDict(d1, st).Ok? && ToPythonDict(d1, st).value.0.AddressRef?
    requires ToPythonDict(d2, ToPythonDict(d1, st).value.1).Ok?
    requires ToPythonDict(d2, ToPythonDict(d1, st).value.1).value.0.AddressRef?
    requires SameHierarchy(d1, d2)
    requires Truthy(Get(d1, "country", Str("")))
    ensures var (w1, st1) := ToPythonDict(d1, st).value;
      var (w2, st2) := ToPythonDict(d2, st1).value;
      && w1.id < |st2.addresses| && w2.id < |st2.addresses|
      && st2.addresses[w1.id].locality.Some?
      && st2.addresses[w1.id].locality == st2.addresses[w2.id].locality
      && st2.countries == st1.countries && st2.states == st1.states && st2.localities == st1.localities
  {
    var (w1, st1) := ToPythonDict(d1, st).value;
    DictPathSteps(d1, st);
    ReadRequestReadsTextKeys(d1, Get(d1, "raw", Str("")).s);
    var req1 := ReadRequest(d1, Get(d1, "raw", Str("")).s).value;
    var loc1 := EffectiveLocality(req1);
    var h1 := ResolveHierarchy(st, req1, loc1).value;
    var a1 := ResolveAddress(h1.1, req1, loc1, h1.0).value;
    assert Filled(loc1) && !MatchByRaw(req1, loc1);
    assert st1 == a1.1 && w1.id == a1.0;
    assert st1.addresses[w1.id].locality == h1.0;

    var (w2, st2) := ToPythonDict(d2, st1).value;
    DictPathSteps(d2, st1);
    ReadRequestReadsTextKeys(d2, Get(d2, "raw", Str("")).s);
    var req2 := ReadRequest(d2, Get(d2, "raw", Str("")).s).value;
    var loc2 := EffectiveLocality(req2);
    assert req2.country == req1.country && req2.state == req1.state && req2.postalCode == req1.postalCode;
    assert req2.locality == req1.locality && req2.sublocality == req1.sublocality;
    assert loc2 == loc1;
    HierarchyIsShared(st, req1, loc1, st1, req2);
    var a2 := ResolveAddress(st1, req2, loc2, h1.0).value;
    assert !MatchByRaw(req2, loc2);
    assert st2 == a2.1 && w2.id == a2.0;
    assert st2.addresses[w2.id].locality == h1.0;
    assert st1.addresses <= st2.addresses;
  }

  // ----- all-or-nothing hierarchy and raw-only fallback -----

  /** A dictionary whose country, state and (effective) locality are neither
      all empty nor all non-empty yields a new raw-only Address and touches no
      other table. */
  lemma InconsistentDictFallsBackToRawOnly(d: map<string, Val>, st: Store, raw: string, req: Request)
    requires Get(d, "raw", Str("")) == Str(raw) && raw != ""
    requires ReadRequest(d, raw) == Ok(req)
    requires Inconsistent(req.country, req.state, EffectiveLocality(req))
    ensures ToPython(Dict(d), st) == Ok(CreateRawOnly(st, raw))
    ensures ToPython(Dict(d), st).value.1.addresses[|st.addresses|] == RawOnly(raw)
  {
  }

  /** No call creates a Country, State or Locality unless the dictionary named
      all three of country, state and locality (or sublocality). */
  lemma HierarchyAllOrNothing(d: map<string, Val>, st: Store)
    requires ToPython(Dict(d), st).Ok?
    requires var st' := ToPython(Dict(d), st).value.1;
      |st'.countries| > |st.countries| || |st'.states| > |st.states| || |st'.localities| > |st.localities|
    ensures var raw := Get(d, "raw", Str(""));
      && raw.Str? && ReadRequest(d, raw.s).Ok?
      && var req := ReadRequest(d, raw.s).value;
         Filled(req.country) && Filled(req.state) && Filled(EffectiveLocality(req))
  {
    var raw := Get(d, "raw", Str(""));
    var r := ToPythonDict(d, st);
    assert r.Ok?;
    var req := ReadRequest(d, raw.s).value;
    var locality := EffectiveLocality(req);
    var c := ResolveCountry(st, req.country, req.countryCode).value;
    var s := ResolveState(c.1, req.state, req.stateCode, c.0).value;
    var l := ResolveLocality(s.1, locality, req.postalCode, s.0).value;
  }

  /** Every Address created from a dictionary has a non-empty `raw`, so it passes
      `Address.clean`. */
  lemma DictPathAddressesPassClean(d: map<string, Val>, st: Store)
    requires ToPython(Dict(d), st).Ok?
    ensures var st' := ToPython(Dict(d), st).value.1;
      forall i :: |st.addresses| <= i < |st'.addresses| ==> Clean(st'.addresses[i]).Ok?
  {
    var st' := ToPython(Dict(d), st).value.1;
    if |st'.addresses| > |st.addresses| {
      assert |st'.addresses| == |st.addresses| + 1;
      if ToPythonDict(d, st).Err? {
        FallbackKeepsRaw(d, st);
      } else {
        assert ToPython(Dict(d), st) == ToPythonDict(d, st);
        NewAddressKeepsRaw(d, st);
      }
      assert Clean(st'.addresses[|st.addresses|]).Ok?;
    }
    forall i | |st.addresses| <= i < |st'.addresses|
      ensures Clean(st'.addresses[i]).Ok?
    {
      assert i == |st.addresses|;
    }
  }

  /** The raw-only Address of the fallback stores the dictionary's `raw`. */
  lemma FallbackKeepsRaw(d: map<string, Val>, st: Store)
    requires ToPythonDict(d, st).Err? && ToPython(Dict(d), st).Ok?
    ensures |ToPython(Dict(d), st).value.1.addresses| == |st.addresses| + 1
    ensures ToPython(Dict(d), st).value.1.addresses[|st.addresses|].raw == d["raw"].s != ""
  {
  }

  /** The Address a dictionary canonicalisation creates stores its `raw`. */
  lemma NewAddressKeepsRaw(d: map<string, Val>, st: Store)
    requires ToPythonDict(d, st).Ok? && ToPythonDict(d, st).value.0.AddressRef?
    requires |ToPythonDict(d, st).value.1.addresses| > |st.addresses|
    ensures ToPythonDict(d, st).value.1.addresses[|st.addresses|].raw == Get(d, "raw", Str("")).s != ""
  {
    DictPathSteps(d, st);
    var req := ReadRequest(d, Get(d, "raw", Str("")).s).value;
    var locality := EffectiveLocality(req);
    var h := ResolveHierarchy(st, req, locality).value;
    var a := ResolveAddress(h.1, req, locality, h.0).value;
    ReadRequestReadsTextKeys(d, Get(d, "raw", Str("")).s);
    assert a.1 != h.1;
  }

  /** A plain string always appends exactly one raw-only Address and changes
      nothing else; the same string twice gives two distinct rows. The empty
      string is accepted too, giving an Address that `clean` rejects. */
  lemma StringAlwaysAppends(st: Store, s: string)
    ensures ToPython(Text(s), st) == Ok((AddressRef(|st.addresses|), st.(addresses := st.addresses + [RawOnly(s)])))
    ensures var st1 := ToPython(Text(s), st).value.1;
      var w2 := ToPython(Text(s), st1).value.0;
      w2 == AddressRef(|st.addresses| + 1) && ToPython(Text(s), st1).value.1.addresses[w2.id].raw == s
    ensures s == "" ==> Clean(ToPython(Text(s), st).value.1.addresses[|st.addresses|]).Err?
  {
  }

  /** Because strings are never deduplicated, assigning the same text twice
      leaves two rows with that `raw`, and a dictionary carrying only that `raw`
      then finds both: the lookup by `raw` reports several Addresses. */
  lemma DuplicateRawIsAmbiguous(st: Store, s: string)
    requires s != ""
    requires Find(st.countries, CountryKey(Some(""))).Missing?
    ensures var st2 := ToPython(Text(s), ToPython(Text(s), st).value.1).value.1;
      ToPython(Dict(map["raw" := Str(s)]), st2) == Err(MultipleObjects("Address"))
  {
    StringAlwaysAppends(st, s);
    var st1 := ToPython(Text(s), st).value.1;
    StringAlwaysAppends(st1, s);
    var st2 := ToPython(Text(s), st1).value.1;
    var n := |st.addresses|;
    assert st2.addresses[n] == RawOnly(s) && st2.addresses[n + 1] == RawOnly(s);
    RawOnlyDictFindsEveryRaw(st2, s, n, n + 1);
  }

  /** A dictionary carrying only a non-empty `raw`, given a store with two
      Addresses of that `raw` and no Country named `''`, fails with several
      Addresses. */
  lemma RawOnlyDictFindsEveryRaw(st: Store, s: string, i: nat, j: nat)
    requires s != ""
    requires i < j < |st.addresses| && st.addresses[i].raw == s && st.addresses[j].raw == s
    requires Find(st.countries, CountryKey(Some(""))).Missing?
    ensures ToPython(Dict(map["raw" := Str(s)]), st) == Err(MultipleObjects("Address"))
  {
    var d := map["raw" := Str(s)];
    var req := RawOnlyRequest(s);
    EmptyHierarchyResolvesToNothing(st, req);
    var locality := EffectiveLocality(req);
    assert MatchByRaw(req, locality);
    TwoMatchesAreAmbiguous(st.addresses, RawKey(s), i, j);
    assert ResolveAddress(st, req, locality, None) == Err(MultipleObjects("Address"));
    assert ToPythonDict(d, st) == Err(MultipleObjects("Address"));
  }

  /** The request read from a dictionary carrying only `raw`: every text
      component is `''` and both coordinates are `None`. */
  function RawOnlyRequest(s: string): (req: Request)
    ensures ReadRequest(map["raw" := Str(s)], s) == Ok(req)
  {
    var e := Some("");
    ReadRequestReadsTextKeys(map["raw" := Str(s)], s);
    Request(s, e, e, e, e, e, e, e, e, e, e, e, Null, Null)
  }

  /** With empty names and no Country named `''`, the hierarchy lookups find
      and create nothing. */
  lemma EmptyHierarchyResolvesToNothing(st: Store, req: Request)
    requires req.country == Some("") && req.state == Some("") && req.locality == Some("")
    requires req.sublocality == Some("")
    requires Find(st.countries, CountryKey(Some(""))).Missing?
    ensures ResolveHierarchy(st, req, EffectiveLocality(req)) == Ok((None, st))
  {
    assert ResolveCountry(st, req.country, req.countryCode) == Ok((None, st));
    assert Find(st.states, StateKey(req.state, None)).Missing?;
    assert ResolveState(st, req.state, req.stateCode, None) == Ok((None, st));
    assert Find(st.localities, LocalityKey(EffectiveLocality(req), req.postalCode, None)).Missing?;
  }

  // ----- round trip through as_dict -----

  /** `as_dict` of the Address a fully structured dictionary canonicalises to
      gives back its country, state, locality (after the sublocality
      substitution), postal code, street number, route and subpremise. */
  lemma AsDictRoundTrip(d: map<string, Val>, st: Store)
    requires ToPythonDict(d, st).Ok? && ToPythonDict(d, st).value.0.AddressRef?
    requires Truthy(Get(d, "country", Str("")))
    ensures var (w, st') := ToPythonDict(d, st).value;
      var raw := Get(d, "raw", Str(""));
      var req := ReadRequest(d, raw.s).value;
      var ad := AsDict(st', st'.addresses[w.id]);
      && ad.Keys == AddressKeys + {"locality", "postal_code", "state", "state_code", "country", "country_code"}
      && ad["country"] == Get(d, "country", Str(""))
      && ad["state"] == Get(d, "state", Str(""))
      && ad["locality"] == TextVal(EffectiveLocality(req))
      && ad["postal_code"] == Get(d, "postal_code", Str(""))
      && ad["street_number"] == Get(d, "street_number", Str(""))
      && ad["route"] == Get(d, "route", Str(""))
      && ad["subpremise"] == Get(d, "subpremise", Str(""))
      && ad["raw"] == Str(st'.addresses[w.id].raw)
  {
    DictPathSteps(d, st);
    ReadRequestReadsTextKeys(d, Get(d, "raw", Str("")).s);
    var req := ReadRequest(d, Get(d, "raw", Str("")).s).value;
    var locality := EffectiveLocality(req);
    assert Filled(req.country) && Filled(req.state) && Filled(locality);
    ResolvedAddressAsDict(st, req, locality);
  }

  /** `as_dict` of the Address the hierarchy and Address lookups of a
      consistent, fully named request end at. */
  lemma ResolvedAddressAsDict(st: Store, req: Request, locality: Option<string>)
    requires Filled(req.country) && Filled(req.state) && Filled(locality)
    requires ResolveHierarchy(st, req, locality).Ok?
    requires var h := ResolveHierarchy(st, req, locality).value;
      ResolveAddress(h.1, req, locality, h.0).Ok?
    ensures var h := ResolveHierarchy(st, req, locality).value;
      var (id, st') := ResolveAddress(h.1, req, locality, h.0).value;
      var ad := AsDict(st', st'.addresses[id]);
      && ad.Keys == AddressKeys + {"locality", "postal_code", "state", "state_code", "country", "country_code"}
      && ad["country"] == TextVal(req.country)
      && ad["state"] == TextVal(req.state)
      && ad["locality"] == TextVal(locality)
      && ad["postal_code"] == TextVal(req.postalCode)
      && ad["street_number"] == TextVal(req.streetNumber)
      && ad["route"] == TextVal(req.route)
      && ad["subpremise"] == TextVal(req.subpremise)
      && ad["raw"] == Str(st'.addresses[id].raw)
  {
    var h := ResolveHierarchy(st, req, locality).value;
    var (id, st') := ResolveAddress(h.1, req, locality, h.0).value;
    HierarchyRowsMatch(st, req, locality);
    assert !MatchByRaw(req, locality);
    var addr := st'.addresses[id];
    assert StreetKey(req.streetNumber, req.route, req.subpremise, h.0)(addr);
    AsDictOfChain(st', addr);
  }

  // ----- the code-length rule -----

  /** Creating a Country: a code within two characters is stored as given; a
      longer code equal to the name is stored as `''`; a longer code that
      differs from the name is rejected. An existing Country is returned with
      its code untouched, whatever code the call carries. */
  lemma CountryCodeRule(st: Store, name: string, code: Option<string>)
    requires name != ""
    ensures Find(st.countries, CountryKey(Some(name))).Found? ==>
      ResolveCountry(st, Some(name), code) == Ok((Some(Find(st.countries, CountryKey(Some(name))).id), st))
    ensures Find(st.countries, CountryKey(Some(name))).Missing? && code.Some? ==>
      var created := (Some(|st.countries|), st.(countries := st.countries + [Country(name, "")]));
      ResolveCountry(st, Some(name), code) ==
        if |code.value| <= CountryCodeMaxLength
        then Ok((Some(|st.countries|), st.(countries := st.countries + [Country(name, code.value)])))
        else if code.value == name then Ok(created)
        else Err(InvalidCountryCode(code.value))
  {
  }

  /** The same rule for a State, whose code may hold three characters. */
  lemma StateCodeRule(st: Store, name: string, code: Option<string>, country: nat)
    requires name != ""
    ensures Find(st.states, StateKey(Some(name), Some(country))).Found? ==>
      ResolveState(st, Some(name), code, Some(country))
        == Ok((Some(Find(st.states, StateKey(Some(name), Some(country))).id), st))
    ensures Find(st.states, StateKey(Some(name), Some(country))).Missing? && code.Some? ==>
      var created := (Some(|st.states|), st.(states := st.states + [State(name, "", country)]));
      ResolveState(st, Some(name), code, Some(country)) ==
        if |code.value| <= StateCodeMaxLength
        then Ok((Some(|st.states|), st.(states := st.states + [State(name, code.value, country)])))
        else if code.value == name then Ok(created)
        else Err(InvalidStateCode(code.value))
  {
  }

  // ----- address matching -----

  /** With no street number, route, locality or subpremise an Address is
      matched by `raw` alone; otherwise by street number, route, subpremise and
      Locality row. On a miss exactly one Address is added, carrying the
      request's columns, and an empty `formatted` is replaced by the display
      text of the new row. */
  lemma AddressMatchingRule(st: Store, req: Request, locality: Option<string>, localityId: Option<nat>)
    ensures var key := if MatchByRaw(req, locality) then RawKey(req.raw)
                       else StreetKey(req.streetNumber, req.route, req.subpremise, localityId);
      && (Find(st.addresses, key).Found? ==>
            ResolveAddress(st, req, locality, localityId) == Ok((Find(st.addresses, key).id, st)))
      && (Find(st.addresses, key).Missing? && req.streetNumber.Some? && req.route.Some? ==>
            var r := ResolveAddress(st, req, locality, localityId);
            && r.Ok? && r.value.0 == |st.addresses|
            && r.value.1 == st.(addresses := r.value.1.addresses)
            && |r.value.1.addresses| == |st.addresses| + 1
            && var row := r.value.1.addresses[|st.addresses|];
               && row.streetNumber == req.streetNumber.value && row.route == req.route.value
               && row.subpremise == req.subpremise && row.locality == localityId
               && row.raw == req.raw && row.latitude == req.latitude && row.longitude == req.longitude
               && (req.formatted == Some("") ==> row.formatted == AddressText(st, row.(formatted := "")))
               && (Filled(req.formatted) ==> row.formatted == req.formatted.value))
  {
  }
}
