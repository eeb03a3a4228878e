/** JSON as the training store sees it. Documents are written with
    `json.dumps` from a flat dict of strings and read back with `json.loads`.
    Both are opaque: they are the function values of a `Codec`, and the one
    thing required of them is that reading back what was written gives the
    dict again (`RoundTrips`). */
module Json {

  /** A JSON value found under a key: a string, or anything else, which the
      model keeps only as its text. */
  datatype JValue = JStr(s: string) | JOther(text: string)

  /** What `json.loads` returns for well-formed text: a dict, or a value that
      is not a dict (a list, a number, a string, …). */
  datatype Parsed = JObject(fields: map<string, JValue>) | JNonObject(v: JValue)

  /** The outcome of `json.loads`: a value, or a raised `JSONDecodeError`. */
  datatype Decoded = ParseError | Decoded(value: Parsed)

  /** A dict of strings as a literal writes it: keys in order, a later key
      overriding an earlier one. */
  type Fields = seq<(string, string)>

  /** The dict a literal builds. */
  function ToMap(f: Fields): (m: map<string, JValue>)
    ensures |f| > 0 ==> f[|f| - 1].0 in m && m[f[|f| - 1].0] == JStr(f[|f| - 1].1)
  {
    if f == [] then map[] else ToMap(f[..|f| - 1])[f[|f| - 1].0 := JStr(f[|f| - 1].1)]
  }

  /** `json.dumps(…, ensure_ascii=False)` and `json.loads`. */
  datatype Codec = Codec(dumps: Fields -> string, loads: string -> Decoded)

  /** Reading back a written dict gives that dict. */
  ghost predicate RoundTrips(c: Codec) {
    forall f :: c.loads(c.dumps(f)) == Decoded(JObject(ToMap(f)))
  }
}
