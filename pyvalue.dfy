/**
 * The dynamically typed values that metadata fields hold.  The library stores whatever the
 * caller passes (strings, lists, tuples, None, dictionaries, numbers) and branches on the
 * type, so the model keeps the type as a constructor.
 */
module PyValue {
  import opened Text
  import opened Wrappers

  datatype Value =
    | NoneV
    | Str(s: String)
    | List(items: seq<Value>)
    | Tuple(items: seq<Value>)
      /** A dictionary, its entries in insertion order (keys are distinct). */
    | Dict(entries: seq<Entry>)
      /** Any other object (a number, a boolean, ...): its `str()` text and its truth value. */
    | Scalar(text: String, truthy: bool)

  datatype Entry = Entry(key: String, val: Value)

  /** `isinstance(v, (list, tuple))` */
  predicate IsSequence(v: Value) { v.List? || v.Tuple? }

  /** Python's truth value, the one `if v:` uses */
  predicate Truthy(v: Value)
  {
    match v
    case NoneV => false
    case Str(s) => s != ""
    case List(xs) => xs != []
    case Tuple(xs) => xs != []
    case Dict(es) => es != []
    case Scalar(_, t) => t
  }

  /** `d.get(key)` on a dictionary's entries: the value of the first entry with that key. */
  function DictGet(entries: seq<Entry>, key: String): (r: Option<Value>)
    ensures r.Some? <==> exists i :: 0 <= i < |entries| && entries[i].key == key
    ensures r.Some? ==> exists i :: 0 <= i < |entries| && entries[i] == Entry(key, r.value)
  {
    if entries == [] then None
    else if entries[0].key == key then Some(entries[0].val)
    else
      var r := DictGet(entries[1..], key);
      assert forall i :: 1 <= i < |entries| ==> entries[i] == entries[1..][i - 1];
      r
  }

  /** `repr(v)`, with strings always written between single quotes and no escaping. */
  function Repr(v: Value): String
    decreases v, 1
  {
    match v
    case NoneV => "None"
    case Str(s) => "'" + s + "'"
    case Scalar(t, _) => t
    case List(xs) => "[" + ReprItems(xs) + "]"
    case Tuple(xs) => "(" + ReprItems(xs) + (if |xs| == 1 then "," else "") + ")"
    case Dict(es) => "{" + ReprEntries(es) + "}"
  }

  function ReprItems(xs: seq<Value>): String
    decreases xs, 0
  {
    if xs == [] then ""
    else if |xs| == 1 then Repr(xs[0])
    else Repr(xs[0]) + ", " + ReprItems(xs[1..])
  }

  function ReprEntries(es: seq<Entry>): String
    decreases es, 0
  {
    if es == [] then ""
    else
      assert es[0].val < es[0];
      var head := "'" + es[0].key + "': " + Repr(es[0].val);
      if |es| == 1 then head else head + ", " + ReprEntries(es[1..])
  }

  /** `str(v)`, which is what `'%s' % v` writes. */
  function Show(v: Value): String
  {
    if v.Str? then v.s else Repr(v)
  }
}
