# django-address: the address canonicaliser and the geocoding form field

This project models the core of django-address in Dafny. django-address is a Django app that stores postal
addresses as a four-level hierarchy:

- Country;
- State, which belongs to a Country;
- Locality, which belongs to a State;
- Address, which may point to a Locality.

Two parts are modelled.

**The canonicaliser** (`dj_address/models.py`).

- `to_python` turns whatever is assigned to an address field into an Address:
  - `None`, an Address and an int pass through;
  - a string becomes a new Address holding only `raw`;
  - a dictionary of components goes to `_to_python`.
- `_to_python` looks up each level and creates it when it is missing:
  - first the Country by name;
  - then the State by name and country;
  - then the Locality by name, postal code and state;
  - finally the Address, either by `raw` or by street number, route, subpremise and locality.
- A dictionary that names only some of country, state and locality is stored as a raw-only Address.
- The module also covers:
  - the display strings of the four entities (`__str__`, `State.to_str`);
  - `Address.as_dict`;
  - `Address.clean`.

**The form field** (`dj_address/forms.py`).

- `AddressField.to_python` first coerces `latitude` and `longitude` to floats.
- A dictionary that carries only `raw` goes to the Google geocoder. The geocoder's answer is checked:
  - exactly one result;
  - not an approximate location;
  - not a partial match, unless the reported subpremise occurs in `raw`.
- An accepted answer is flattened into a component dictionary and handed to the canonicaliser.

The database is an immutable `Records.Store`:

- each table is a sequence, and a row's id is its index;
- every operation takes a store and returns the new one;
- a `get` is `Records.Find`, which reports no row, one row or several.

Python values in a dictionary are `Values.Val`: `None`, a string, or a float (modelled as a real). The
HTTP request is a parameter: the `Geocode.Response` the geocoder would return. Python's `float()` on a
string is a parameter too (`parse`).

Modules, in dependency order:

- `Wrappers`: `Option` and `Result`.
- `Values`: dictionary values, the value shapes `to_python` accepts, and the raised exceptions.
- `Text`: `str.split()`, `in`, `endswith` and `replace`.
- `Records`: the entities, the store, lookups and the integrity and uniqueness invariants.
- `Display`: `__str__`, `as_dict` and `clean`.
- `DisplayExamples`: the display strings of a small Australian store.
- `Canonical` and `CanonicalProofs`: `to_python` and `_to_python`, and their properties.
- `Geocode` and `GeocodeProofs`: the form field and the geocode policy, and their properties.

In the places below the code behaves in ways a reader may not expect, or differs from what its tests expect. The model follows the code:

- **Geocoding threshold.** The minimum word count is `len('address street city state/country'.split())`, which is 4, not 5 (`Geocode.ThresholdIsFourWords`).
- **Empty string.** `models.to_python('')` does not return `None`. It saves an Address whose `raw` is empty, and `clean` rejects that Address (`CanonicalProofs.StringAlwaysAppends`). Only the form field treats `''` as empty.
- **Other values given to the form field.** The form field's `to_python` raises `TypeError` for anything that is not `None`, `''` or a dictionary: `'latitude' in value` or `value['raw']` fails on it.
- **Failed request.** A non-200 response makes `geocode()` return `None`, and the field then returns nothing (`GeocodeProofs.RawOnlyDictOutcomes`).
- **Postal code component.** A component of type `postal_code` ends in `_code`, so it also writes its long name under the key `postal` (`Geocode.PostalComponentWrites`).
- **Missing formatted address.** If the geocoder gives no `formatted_address`, the new Address stores the text `None` as `formatted`.
- **Political type.** Only the first `political` type of a component is removed.
- **Errors in the component loop.** A `KeyError` or `IndexError` in the loop over components stops that component's writes where it is raised. Writes made before it are kept.
- **Zero coordinates.** A coordinate reported as exactly 0.0 becomes `None`, because `ensure_float` treats falsy values as missing (`GeocodeProofs.AcceptedCoordinates`).
- **Empty country name.** The hierarchy lookups run even when the names are empty. A Country whose name is `''` is therefore found by a dictionary that gives no country.
- **Empty components are not geocoded.** A dictionary that carries every component key with an empty value is not geocoded: `forms.py:60` tests the keys, not their values. It becomes a new Address with no Locality (`GeocodeProofs.EmptyComponentsAreNotGeocoded`). `tests/test_forms.py:284-301` expects this input to be geocoded.
- **Retry, substitute and ignore settings.** `forms.py` contains no code for the retry, substitute and ignore-missing-subpremise settings that the form tests switch on. Only the behaviour written in `forms.py` is modelled.

## Model

| member | source | states |
|---|---|---|
| Records.RawOnly | dj_address/models.py:117-120 | an Address built from `raw` alone keeps that `raw` and links no Locality |
| Records.Find | dj_address/models.py:47-49 | `get` finds nothing exactly when no row matches; a found row matches and is the only match; "several" means two distinct rows match |
| Records.FindAfterAppendMatching | dj_address/models.py:47-55 | after creating a missing row, the same `get` finds exactly that new row |
| Records.TwoMatchesAreAmbiguous | dj_address/models.py:84 | a `get` over a table in which two rows match reports several rows |
| Records.UniqueLookupsAreUnambiguous | dj_address/models.py:130-171 | under the unique name, (name, country) and (name, postal_code, state) constraints, no hierarchy lookup returns several rows |
| Text.SplitCountsWordStarts | dj_address/forms.py:84 | `len(s.split())` equals the number of places where a non-whitespace character follows whitespace or starts the text |
| Text.Contains | dj_address/forms.py:170 | `sub in s` holds exactly when `sub` occurs in `s` at some index |
| Text.RemoveAll | dj_address/forms.py:126 | `replace(pat, '')` never lengthens the text and leaves it unchanged when `pat` does not occur |
| Display.NameOrCode | dj_address/models.py:159-160 | a Country or State shows its name when it has one and its code when the name is empty, so it shows nothing only when both are empty |
| Display.StateTextRule | dj_address/models.py:151-157 | a State's text begins with its name (or code) and ends with its country's text; `, ` stands between them exactly when both are non-empty; its length is the sum of those parts, so it is empty only when both are |
| Display.LocalityTextRule | dj_address/models.py:174-185 | a Locality's text begins with its name; its State's short text follows, after `, ` exactly when both are non-empty; the text ends with ` postal_code` when there is one, followed by `, country` when the country text is non-empty; its length is the sum of those parts, so it is empty only when all of them are |
| Display.AddressTextRules | dj_address/models.py:211-232 | an Address shows `formatted` when non-empty; otherwise, with a locality, its street line joined to the locality text (a route or subpremise without a street number is never shown); otherwise `raw` |
| Display.AsDictShape | dj_address/models.py:238-257 | `as_dict` always holds the seven address keys, copying `raw`, street number, route, subpremise (`None` as `''`) and `formatted` (a falsy coordinate as `''`); it holds locality keys exactly when a Locality is linked, state keys exactly when that Locality has a State, and country keys exactly when that State has a Country, with those rows' values |
| Display.AsDictColumns | dj_address/models.py:239-247 | `as_dict` copies `raw`, street number, route, subpremise (`None` as `''`) and `formatted`; a truthy coordinate is kept and a falsy one becomes `''` |
| Display.AsDictLocality | dj_address/models.py:248-250 | `locality` and `postal_code` appear exactly when a Locality is linked, with its name and postal code |
| Display.AsDictState | dj_address/models.py:251-253 | `state` and `state_code` appear exactly when the linked Locality has a State, with its name and code |
| Display.AsDictCountry | dj_address/models.py:254-256 | `country` and `country_code` appear exactly when that State has a Country, with its name and code |
| Display.AsDictOfLinkedAddress | dj_address/models.py:248-256 | in a store whose foreign keys all resolve, `as_dict` of an Address with a Locality carries all thirteen keys |
| Display.AsDictOfChain | dj_address/models.py:238-257 | `as_dict` of an Address whose Locality, State and Country exist reports those rows' names and codes and the Address's own columns, including `formatted` and each coordinate (`''` when falsy) |
| Display.Clean | dj_address/models.py:234-236 | `clean` rejects an Address exactly when its `raw` is empty, with the blank-raw error |
| DisplayExamples.StateExamples | dj_address/tests/test_models.py:56-57 | Victoria in Australia shows `Victoria, Australia`; a State with neither name nor code shows only `Australia` |
| DisplayExamples.MelbourneText | dj_address/tests/test_models.py:96 | Melbourne (3000) shows `Melbourne, Victoria 3000, Australia` |
| DisplayExamples.FitzroyText | dj_address/tests/test_models.py:97 | a Locality without postal code shows `Fitzroy, Victoria, Australia` |
| DisplayExamples.NamelessLocalityText | dj_address/tests/test_models.py:98 | a Locality without name or postal code shows `Victoria, Australia` |
| DisplayExamples.NorthcoteText | dj_address/models.py:174-185 | Northcote (3070) shows `Northcote, Victoria 3070, Australia` |
| DisplayExamples.AddressExample | dj_address/tests/test_models.py:151 | `1 Some Street` in Melbourne shows `1 Some Street, Melbourne, Victoria 3000, Australia` |
| DisplayExamples.LocalityOnlyAddressExample | dj_address/tests/test_models.py:152 | an Address with only a Locality shows the locality text |
| DisplayExamples.SubpremiseAddressExample | dj_address/tests/test_models.py:153-154 | subpremise 300 shows as `1 Some Street #300, Northcote, Victoria 3070, Australia` |
| DisplayExamples.CleanExamples | dj_address/models.py:234-236 | a raw-only Address with empty `raw` fails `clean`, and one with `Someplace` passes |
| Canonical.TextField | dj_address/models.py:21-31 | a text component reads as the dictionary's value or `''`; `None` stays `None`; a float there is reported as unsupported, naming the key |
| Canonical.ReadRequest | dj_address/models.py:20-33 | reading the components fails only with an unsupported-value error |
| Canonical.ReadRequestReadsTextKeys | dj_address/models.py:20-33 | the components are read exactly when no text key holds a float; each read component equals `value.get(key, '')`, and the coordinates equal `value.get(key, None)` |
| Canonical.EffectiveLocality | dj_address/models.py:39-40 | a non-empty locality is kept; an empty locality is replaced by a non-empty sublocality; with an empty sublocality the locality is kept as it is; so the working locality is non-empty exactly when one of the two is |
| Canonical.CheckedCode | dj_address/models.py:51-54 | a code within the column's length is stored as given; a longer code equal to the name is stored as `''`; a longer different code is rejected; a `None` code fails `len` |
| Canonical.ResolveCountry | dj_address/models.py:46-57 | returns the unique Country with that name, or creates it when missing and the name is non-empty, or returns none with the store unchanged; several matches raise; afterwards `get` finds exactly the returned row; only the country table changes, by at most one row |
| Canonical.ResolveState | dj_address/models.py:59-70 | the same for a State by (name, country); a new State without a country violates NOT NULL |
| Canonical.ResolveLocality | dj_address/models.py:72-79 | the same for a Locality by (name, postal code, state); a `None` postal code or missing state violates NOT NULL |
| Canonical.ResolveAddress | dj_address/models.py:81-106 | returns the unique matching Address, or on a miss appends one carrying `raw` and the locality; the returned row matches the lookup key and `get` then finds it alone |
| Canonical.ResolveHierarchy | dj_address/models.py:46-79 | country, state and locality in turn: each table grows by at most one row, addresses are untouched, and the returned locality id exists |
| Canonical.ToPythonDict | dj_address/models.py:19-107 | `_to_python` returns nothing exactly when `raw` is falsy (store unchanged), otherwise an existing Address id; it raises the inconsistency signal only for a non-empty string `raw` (a non-string `raw` is reported as unsupported; see `Canonical.ToPythonDict` under Left out) |
| Canonical.CreateRawOnly | dj_address/models.py:117-120 | saving `Address(raw=value)` appends exactly one raw-only row, returns its id and leaves the other tables alone |
| Canonical.DictToPython | dj_address/models.py:121-125 | a dictionary is canonicalised; an inconsistent one becomes a raw-only Address, so the inconsistency signal and a missing `raw` never escape |
| Canonical.ToPython | dj_address/models.py:110-126 | `None`, Address and int pass through unchanged; anything unsupported is invalid; strings and dictionaries give nothing or an existing Address id, and the store grows by at most one row per table |
| CanonicalProofs.CountryStepKeepsInvariants | dj_address/models.py:46-57 | resolving a Country keeps every foreign key valid and country names unique |
| CanonicalProofs.StateStepKeepsInvariants | dj_address/models.py:59-70 | resolving a State keeps integrity and (name, country) uniqueness |
| CanonicalProofs.LocalityStepKeepsInvariants | dj_address/models.py:72-79 | resolving a Locality keeps integrity and (name, postal code, state) uniqueness, and the returned id exists |
| CanonicalProofs.AddressStepKeepsInvariants | dj_address/models.py:81-106 | resolving an Address keeps integrity and uniqueness, and the returned id exists |
| CanonicalProofs.HierarchyKeepsInvariants | dj_address/models.py:46-79 | the three hierarchy steps together keep integrity and uniqueness |
| CanonicalProofs.ToPythonKeepsInvariants | dj_address/models.py:110-126 | any canonicalisation keeps every foreign key valid and all uniqueness constraints, changes no existing row, adds at most one row per table, and returns a passed-through or existing Address |
| CanonicalProofs.DictPathSteps | dj_address/models.py:35-107 | a dictionary that produced an Address had a non-empty string `raw`, readable components and a consistent hierarchy, and went through the hierarchy and Address lookups |
| CanonicalProofs.HierarchyIsShared | dj_address/models.py:46-79 | a second lookup with the same names, whatever codes it carries, finds the rows the first one found or created, and creates nothing |
| CanonicalProofs.ToPythonIsIdempotent | dj_address/models.py:110-126 | a dictionary that `_to_python` accepts without falling back to a raw-only Address, canonicalised again on the resulting store, gives the same Address and adds no row |
| CanonicalProofs.SecondCanonicalisationAgrees | dj_address/models.py:19-107 | `_to_python` repeated on the store it produced returns the same value and store |
| CanonicalProofs.HierarchyRowsMatch | dj_address/models.py:46-79 | for non-empty names, the resolved Locality has that name and postal code, its State that name, and the State's Country that name |
| CanonicalProofs.SameHierarchySharesLocality | dj_address/models.py:72-91 | two dictionaries with the same country, state, locality and postal code link their Addresses to the same Locality row, and the second creates no hierarchy row |
| CanonicalProofs.InconsistentDictFallsBackToRawOnly | dj_address/models.py:121-125 | a dictionary naming some but not all of country, state and locality yields a new raw-only Address and touches no other table |
| CanonicalProofs.HierarchyAllOrNothing | dj_address/models.py:42-44 | no Country, State or Locality is created unless the dictionary named all three of country, state and locality (or sublocality) |
| CanonicalProofs.DictPathAddressesPassClean | dj_address/models.py:35-36 | every Address created from a dictionary passes `clean` |
| CanonicalProofs.FallbackKeepsRaw | dj_address/models.py:125 | the fallback Address stores the dictionary's non-empty `raw` |
| CanonicalProofs.NewAddressKeepsRaw | dj_address/models.py:93-106 | the Address created by `_to_python` stores the dictionary's non-empty `raw` |
| CanonicalProofs.StringAlwaysAppends | dj_address/models.py:117-120 | a string always appends a raw-only Address, so the same string twice gives two rows; the empty string gives an Address that `clean` rejects |
| CanonicalProofs.DuplicateRawIsAmbiguous | dj_address/models.py:82-84 | the same string assigned twice leaves two rows with that `raw`; a dictionary carrying only that `raw` then fails because several Addresses match |
| CanonicalProofs.RawOnlyDictFindsEveryRaw | dj_address/models.py:83-84 | with two Addresses of one `raw`, a dictionary carrying only that `raw` fails because several Addresses match |
| CanonicalProofs.RawOnlyRequest | dj_address/models.py:20-33 | a dictionary carrying only `raw` reads every text component as `''` and both coordinates as `None` |
| CanonicalProofs.EmptyHierarchyResolvesToNothing | dj_address/models.py:46-79 | with empty names and no Country named `''`, the hierarchy lookups find and create nothing |
| CanonicalProofs.AsDictRoundTrip | dj_address/models.py:238-257 | `as_dict` of the Address a fully named dictionary produced gives back its country, state, effective locality, postal code, street number, route and subpremise |
| CanonicalProofs.ResolvedAddressAsDict | dj_address/models.py:81-106 | `as_dict` of the resolved Address of a fully named request reports the request's components |
| CanonicalProofs.CountryCodeRule | dj_address/models.py:47-57 | an existing Country is returned with its code untouched; a new one stores a short code, clears a long code equal to the name, and rejects any other long code |
| CanonicalProofs.StateCodeRule | dj_address/models.py:60-70 | the same rule for a State, whose code may hold three characters |
| CanonicalProofs.AddressMatchingRule | dj_address/models.py:81-106 | an Address is matched by `raw` when street number, route, locality and subpremise are all empty, else by those columns; on a miss one row is added carrying the request's columns, and an empty `formatted` becomes the row's display text; the coordinates are stored as given (see `Canonical.ResolveAddress` under Left out) |
| Geocode.EnsureFloat | dj_address/forms.py:30-41 | a falsy value becomes `None`; a string that is not a float is rejected, naming the field; otherwise the result is a float |
| Geocode.EnsureCorrectDatatypes | dj_address/forms.py:22-27 | coercion fails exactly when a present coordinate is a non-float string, latitude reported first; otherwise the keys are kept, other values untouched, and each coordinate coerced |
| Geocode.CoordinatesAreFloats | dj_address/forms.py:22-27 | after coercion each present coordinate is `None` or a float |
| Geocode.ThresholdIsFourWords | dj_address/forms.py:80 | the sample address of the threshold splits into exactly four words |
| Geocode.SplitFourWords | dj_address/forms.py:80 | four non-empty words separated by single spaces split into four tokens |
| Geocode.CanGeocodeCountsWords | dj_address/forms.py:83-84 | `can_geocode` holds exactly when four or more words begin in `raw` |
| Geocode.RemoveFirst | dj_address/forms.py:122-123 | `list.remove` cuts out the first occurrence: there is an index holding the value, with no earlier occurrence, and the result is the list without that element (one shorter, the multiset less one copy); an absent value changes nothing |
| Geocode.Writes | dj_address/forms.py:119-130 | one component writes at most two keys |
| Geocode.AbsorbLastWins | dj_address/forms.py:119-130 | after the loop a key is present exactly when it was present before or some component writes it; it holds the last writer's value, or the old value when no component writes it |
| Geocode.AbsorbKeys | dj_address/forms.py:119-130 | the loop's key set is the old keys plus every key some component writes |
| Geocode.AbsorbLastWriter | dj_address/forms.py:119-130 | a key holds the value of the last component that writes it |
| Geocode.AbsorbUntouched | dj_address/forms.py:119-130 | a key that no component writes keeps its old value |
| Geocode.ComponentsDictLastWins | dj_address/forms.py:113-131 | the components dictionary holds a key exactly when some component writes it, with the last such value |
| Geocode.CodeComponentWrites | dj_address/forms.py:124-127 | a component whose kind is `w_code` writes its long name under `w` and its short name under `w_code` |
| Geocode.StateComponentWrites | dj_address/forms.py:115-127 | a first-level administrative area writes `state` (long name) and `state_code` (short name) |
| Geocode.CountryComponentWrites | dj_address/forms.py:115-127 | a country writes `country` (long name) and `country_code` (short name) |
| Geocode.PostalComponentWrites | dj_address/forms.py:124-127 | a postal code writes `postal` (long name) and `postal_code` (short name) |
| Geocode.PlainComponentWrites | dj_address/forms.py:120-130 | a locality writes only its short name; a component typed only `political`, or with no types, writes nothing |
| Geocode.RemovesCodeSuffix | dj_address/forms.py:125-126 | `w + '_code'` ends with `_code`, and removing `_code` from it gives back `w` when `w` has no underscore |
| Geocode.RemovesTrailingPattern | dj_address/forms.py:126 | removing every `p` from `w + p` gives `w` when no character of `w` starts `p` |
| Geocode.Flatten | dj_address/forms.py:133-149 | flattening fails exactly when the components, geometry, location, `lat` or `lng` are missing; otherwise it holds the nine component keys (`None` exactly when no component wrote one), `formatted` and the two coordinates |
| Geocode.AcceptResult | dj_address/forms.py:160-176 | an approximate location is rejected first; a result is accepted exactly when it is precise, flattens, and is not an unforgiven partial match; an accepted result holds the twelve flattened keys plus `raw` |
| Geocode.GeocodeRaw | dj_address/forms.py:151-176 | a non-string `raw` fails; an accepted response gives the flattened keys plus the `raw` that was sent; errors are only those the checks raise |
| Geocode.OutcomeToPython | dj_address/forms.py:70-71 | canonicalising a geocode outcome gives nothing or an existing Address, and the store grows by at most one row per table |
| Geocode.DictFieldToPython | dj_address/forms.py:68-71 | a coerced dictionary, geocoded or not, is canonicalised with the same guarantees, and the inconsistency signal never escapes |
| Geocode.GeocodeThenToPython | dj_address/forms.py:69-71 | a dictionary carrying only `raw` is geocoded and the outcome canonicalised, with the same guarantees |
| Geocode.FieldToPython | dj_address/forms.py:64-71 | `None` and `''` are empty; any other non-dictionary raises `TypeError`; a dictionary gives nothing or an existing Address, and the store grows by at most one row per table |
| GeocodeProofs.ShortRawIsNotSent | dj_address/forms.py:152-153 | a raw address of fewer than four words comes back unchanged, whatever the geocoder would answer |
| GeocodeProofs.StructuredDictIsNotSent | dj_address/forms.py:59-61 | a dictionary with any structured key is never geocoded: the result does not depend on the response and equals canonicalising the coerced dictionary |
| GeocodeProofs.EmptyComponentsAreNotGeocoded | dj_address/forms.py:59-61 | a dictionary carrying every component key with empty values is not geocoded, and becomes a new Address with no Locality |
| GeocodeProofs.ResponseOutcomes | dj_address/forms.py:156-161 | for a long enough address, a failed request gives nothing; several results or none raise; a single result is judged by the acceptance checks |
| GeocodeProofs.GeocodedExactly | dj_address/forms.py:151-176 | a response yields components exactly when `raw` has four or more words, the request succeeded with one result, and that result is precise, complete, and not an unforgiven partial match |
| GeocodeProofs.ApproximateBeatsPartial | dj_address/forms.py:164-168 | an approximate location is rejected even when the result is also a partial match |
| GeocodeProofs.PartialMatchRule | dj_address/forms.py:163-173 | a partial match without a subpremise is rejected; one whose non-empty subpremise occurs in `raw` is accepted |
| GeocodeProofs.AcceptedResultIsReadable | dj_address/forms.py:174-176 | an accepted result carries the `raw` that was sent, and the canonicaliser can read all its components |
| GeocodeProofs.FlattenedTextIsText | dj_address/forms.py:135-145 | the component keys and `formatted` of a flattened result hold text or `None`, never a float |
| GeocodeProofs.AcceptedCoordinates | dj_address/forms.py:146-147 | each accepted coordinate is the one the geocoder reported, or `None` when it reported exactly zero |
| GeocodeProofs.EmptyInputs | dj_address/forms.py:66-67 | the field returns nothing for `None` and for `''` |
| GeocodeProofs.BadCoordinateExamples | dj_address/tests/test_forms.py:40-42 | `{'latitude': 'x'}` and `{'longitude': 'x'}` are rejected as invalid numbers naming the field |
| GeocodeProofs.EmptyCoordinateExamples | dj_address/tests/test_forms.py:44-46 | `{'latitude': ''}` and `{'longitude': ''}` give nothing, with the store unchanged |
| GeocodeProofs.EmptyCoordinateExample | dj_address/forms.py:22-41 | a dictionary holding only one empty coordinate gives nothing |
| GeocodeProofs.RawOnlyDictIsSent | dj_address/forms.py:59-71 | a dictionary without structured keys goes to the geocoder as it is, and the outcome is canonicalised; without `raw` it raises `KeyError` |
| GeocodeProofs.RawOnlyDictOutcomes | dj_address/forms.py:151-156 | a raw address too short to send becomes a raw-only Address; a failed request gives nothing |
| GeocodeProofs.SingleWordIsStoredAsTyped | dj_address/tests/test_forms.py:303-305 | `{'raw': 'Someplace'}` becomes a new Address whose `raw` is `Someplace` |
| GeocodeProofs.OneWordIsTooShort | dj_address/forms.py:83-84 | `Someplace` is too short to geocode |

## Left out

- **HTTP request.** The request itself, the API key (`forms.py:18-19`, `154`) and the `+` encoding of spaces in the query are left out. They are I/O. The model receives the status code and the `results` list as a parameter.
- **Missing `results` key.** A response whose JSON has no `results` key is not modelled. Only the `results` list is a parameter.
- **Validation messages.** The texts and codes of the `ValidationError`s are left out. Each error is represented by a constructor carrying the field or the `raw` it names.
- **Field wiring.** `AddressDescriptor`, `AddressField.contribute_to_class` and `formfield` (`models.py:260-288`) are left out. They only route an assignment to `to_python`. The form field's constructor, widget and queryset are left out too.
- **Database behaviour.** Model `ordering`, migrations, the admin and logging are left out. Column `max_length` limits other than the two code columns are not enforced. An `IntegrityError` is modelled only for `None` stored in a NOT NULL column. Concurrent writers are not modelled, so no duplicate can appear between a lookup and a create.
- **Float parsing.** Python's `float()` on a string is the parameter `parse`. The model does not fix which strings it accepts.
- **Value types.** Floats are exact reals. Dictionary values that are ints, bools or lists are not modelled, and neither is `bytes` given to `models.to_python`.
- Canonical.TextField: a float under a text key is reported as an unsupported value. Django would store its string form instead.
- Text.Split: carries no contract of its own. Its token count is characterised by `Text.SplitCountsWordStarts`, and its tokens for single-space-separated words by `Text.SplitWord`.
- Text.RemoveAll: states only that the result is no longer than the input and that the text is unchanged when the pattern is absent. Its exact result is proved only for the `_code` suffix case the component loop relies on (`Geocode.RemovesTrailingPattern`).
- Geocode.Writes: states only that one component writes at most two keys. The exact writes are stated per kind of component by the `...ComponentWrites` lemmas.
- Canonical.ReadRequest: states only which error it can raise. The values it reads are stated by `Canonical.ReadRequestReadsTextKeys`.
- Canonical.ResolveAddress: stores a string latitude or longitude exactly as given. Django's `FloatField` applies `float()` when the Address is saved, which raises `ValueError` for a string such as `'abc'` or `''`. The model does not raise there. Through the form field the coordinates are coerced first, so only a dictionary assigned directly to the model field reaches this case.
- Canonical.ResolveHierarchy: an error returns no store, here or in the Address step that follows. A Country, State or Locality created before the error is therefore dropped. That error can be an over-long code or a NOT NULL violation. Under Django's autocommit those rows stay in the database. The store guarantees of `Canonical.ToPythonDict`, `Canonical.ToPython` and the invariant lemmas speak only of calls that succeed.
- Canonical.ToPythonDict: a truthy `raw` that is not a string (a non-zero float) is reported as an unsupported value. Django would carry on with `str(raw)` in the lookup and when saving.
