/** Values as the Python code sees them: optional values, results with an
    error, and the dynamically typed entries of a configuration dictionary. */
module Common {

  datatype Option<+T> = None | Some(value: T) {
    function GetOr(default: T): T {
      match this
      case Some(v) => v
      case None => default
    }
  }

  datatype Result<+T, +E> = Ok(value: T) | Err(error: E)

  /** A value stored in a configuration dictionary. Objects the model does not
      look into (an embedding function, a metadata dict) are `VOther`, which
      records only whether Python would consider them truthy. */
  datatype Value =
    | VNone
    | VBool(b: bool)
    | VInt(i: int)
    | VReal(r: real)
    | VStr(s: string)
    | VClient(handle: nat)
    | VOther(truthy: bool)

  /** Python truthiness of a value: `if v:`. */
  predicate Truthy(v: Value) {
    match v
    case VNone => false
    case VBool(b) => b
    case VInt(i) => i != 0
    case VReal(r) => r != 0.0
    case VStr(s) => s != ""
    case VClient(_) => true
    case VOther(t) => t
  }

  /** A configuration dictionary. A dict is truthy exactly when it is non-empty. */
  type Config = map<string, Value>

  /** `d.get(key, default)` on a dict with string keys. */
  function GetOr<V>(d: map<string, V>, key: string, default: V): (v: V)
    ensures key in d ==> v == d[key]
    ensures key !in d ==> v == default
  {
    if key in d then d[key] else default
  }

  /** The index of the first occurrence of `c` in `s`. */
  function FirstIndex(s: string, c: char): (r: Option<nat>)
    ensures r.Some? ==> r.value < |s| && s[r.value] == c
    ensures r.Some? ==> forall k :: 0 <= k < r.value ==> s[k] != c
    ensures r.None? ==> forall k :: 0 <= k < |s| ==> s[k] != c
  {
    if s == [] then None
    else if s[0] == c then Some(0)
    else match FirstIndex(s[1..], c)
      case Some(j) => Some(j + 1)
      case None => None
  }

  /** In text without `c`, followed by `c`, the first `c` is the one after
      the text. */
  lemma {:induction false} FirstIndexAfter(x: string, c: char, tail: string)
    requires forall k :: 0 <= k < |x| ==> x[k] != c
    ensures FirstIndex(x + [c] + tail, c) == Some(|x|)
  {
    if x != [] {
      assert (x + [c] + tail)[1..] == x[1..] + [c] + tail;
      FirstIndexAfter(x[1..], c, tail);
    }
  }
}
