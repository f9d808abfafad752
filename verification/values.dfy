/** The Python values that travel inside an issue's `extra_data`: SQL results
    (integers, strings, NULL as `None`), lists of them, and dictionaries with
    string keys (the records and summaries). `Str` is Python's `str()`, which
    the report applies to every value before escaping it. */
module Values {
  import Text

  datatype Value =
    | VNone
    | VInt(i: int)
    | VStr(s: string)
    | VList(items: seq<Value>)
    | VDict(entries: seq<(string, Value)>)

  /** A Python dict with string keys, in insertion order. */
  type Record = seq<(string, Value)>

  /** Python truthiness: `None`, `0`, `''`, `[]` and `{}` are false. */
  predicate Truthy(v: Value)
  {
    match v
    case VNone => false
    case VInt(i) => i != 0
    case VStr(s) => s != ""
    case VList(xs) => xs != []
    case VDict(es) => es != []
  }

  /** `str(v)`. Strings render as themselves; containers render their
      elements with `repr`. */
  function Str(v: Value): string
  {
    match v
    case VStr(s) => s
    case _ => Repr(v)
  }

  /** `repr(v)`. A string is shown between single quotes; Python's choice of
      double quotes for strings holding a single quote, and its backslash
      escapes, are not modelled. */
  function Repr(v: Value): string
  {
    match v
    case VNone => "None"
    case VInt(i) => Text.IntToString(i)
    case VStr(s) => "'" + s + "'"
    case VList(xs) =>
      "[" + Text.Join(", ", seq(|xs|, k requires 0 <= k < |xs| => Repr(xs[k]))) + "]"
    case VDict(es) =>
      "{" + Text.Join(", ", seq(|es|, k requires 0 <= k < |es| => "'" + es[k].0 + "': " + Repr(es[k].1))) + "}"
  }

  function Strs(xs: seq<string>): (r: seq<Value>)
    ensures |r| == |xs|
    ensures forall i :: 0 <= i < |xs| ==> r[i] == VStr(xs[i])
  {
    seq(|xs|, i requires 0 <= i < |xs| => VStr(xs[i]))
  }
}
