/** Values shared by every module: the Python objects the core passes around
    (dict values, None, exceptions) and small generic helpers. */
module Common {

  datatype Option<T> = None | Some(value: T)

  /** The outcome of a Python call that may raise: `Raised` stands for any
      exception (the model never needs to know which one). */
  datatype Result<T> = Ok(value: T) | Raised

  /** A value held in a Python dict decoded from a device message or read from
      the document store. `Bytes(text)` is a `bytes` object holding the UTF-8
      encoding of `text`; `Null` is Python's `None`. */
  datatype Value = Str(s: string) | Num(n: int) | Bytes(text: string) | Null

  /** A Python `dict` with string keys, such as a decoded device message. */
  type Dict = map<string, Value>

  /** Python's `d.get(key)`: the value, or `None` when the key is absent. */
  function DictGet(d: Dict, key: string): (v: Value)
    ensures key !in d ==> v == Null
    ensures key in d ==> v == d[key]
  {
    if key in d then d[key] else Null
  }

  /** Python's `d.get(key, default)`. */
  function DictGetOr(d: Dict, key: string, default: Value): (v: Value)
    ensures key !in d ==> v == default
    ensures key in d ==> v == d[key]
  {
    if key in d then d[key] else default
  }

  /** Number of elements of `s` equal to `x`. */
  function CountOf<T(==)>(s: seq<T>, x: T): (n: nat)
    ensures n <= |s|
    ensures n == 0 <==> x !in s
  {
    if |s| == 0 then 0 else (if s[0] == x then 1 else 0) + CountOf(s[1..], x)
  }

  lemma {:induction false} CountOfAppend<T>(a: seq<T>, b: seq<T>, x: T)
    ensures CountOf(a + b, x) == CountOf(a, x) + CountOf(b, x)
  {
    if |a| == 0 {
      assert a + b == b;
    } else {
      assert (a + b)[1..] == a[1..] + b;
      CountOfAppend(a[1..], b, x);
    }
  }
}
