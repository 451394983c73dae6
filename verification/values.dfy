/** The Python values the address subsystem consumes and produces, and the
    exceptions it can raise. */
module Values {
  import opened Wrappers

  /** A value stored under a key of an address dictionary: Python `None`, a
      string, or a float (floats are modelled as exact reals). */
  datatype Val = Null | Str(s: string) | Num(x: real)

  /** Python truthiness of a dictionary value. */
  predicate Truthy(v: Val) {
    match v
    case Null => false
    case Str(s) => s != ""
    case Num(x) => x != 0.0
  }

  /** Truthiness of a text value that may be `None`. */
  predicate Filled(t: Option<string>) {
    t.Some? && t.value != ""
  }

  /** The text value as a dictionary value (`None` stays `None`). */
  function TextVal(t: Option<string>): (v: Val)
    ensures v.Num? == false
    ensures Truthy(v) <==> Filled(t)
  {
    match t
    case None => Null
    case Some(s) => Str(s)
  }

  /** The shapes of value the canonicaliser and the form field accept: `None`, an
      existing Address (by its id), an int (a primary key), a string, a
      dictionary of address components, or anything else. */
  datatype Value =
    | Nothing
    | AddressRef(id: nat)
    | Int(n: int)
    | Text(s: string)
    | Dict(fields: map<string, Val>)
    | Other

  /** `value.get(key, default)` */
  function Get(d: map<string, Val>, key: string, default: Val): (v: Val)
    ensures key in d ==> v == d[key]
    ensures key !in d ==> v == default
  {
    if key in d then d[key] else default
  }

  /** The exceptions raised on the modelled paths. `InconsistentDict` is the
      internal signal of an incomplete Country/State/Locality triple, which
      the canonicaliser catches. */
  datatype Error =
    | InvalidValue                      // unsupported value shape
    | InvalidNumeric(field: string)     // latitude/longitude not a float
    | InvalidCountryCode(code: string)  // over-long code that is not the name
    | InvalidStateCode(code: string)
    | TooManyResults(raw: string)
    | PartialMatch(raw: string)
    | ApproximateMatch(raw: string)
    | BlankRaw                          // Address.clean on an empty `raw`
    | InconsistentDict                  // the internal InconsistentDictError
    | MultipleObjects(table: string)    // a `get` that matched several rows
    | NotNull(column: string)           // None saved into a NOT NULL column
    | TypeError
    | KeyError(key: string)
    | IndexError
    | AttributeError
    | UnsupportedValue(key: string)     // a float under a text key
}
