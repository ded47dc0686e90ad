/** Parsed JSON payloads and the two JavaScript operations the client applies
    to them: reading a property and object spread (`{...v}`). */
module Json {
  import opened Wrappers
  import opened Text

  datatype Value =
    | JNull
    | JBool(b: bool)
    | JNum(x: real)
    | JStr(s: string)
    | JArr(items: seq<Value>)
    | JObj(fields: map<string, Value>)

  type Object = map<string, Value>

  /** `v.key` on a non-null value: only objects carry JSON properties, so
      every other value answers `undefined` (None). Reading from `null` is a
      TypeError and is handled by the caller. */
  function Get(v: Value, key: string): (r: Option<Value>)
    ensures r.Some? <==> v.JObj? && key in v.fields
    ensures r.Some? ==> r.value == v.fields[key]
  {
    if v.JObj? && key in v.fields then Some(v.fields[key]) else None
  }

  /** The entries `"i": items[i]` for every index from `from` on: what spread
      produces for an array or a string. */
  function IndexEntries(items: seq<Value>, from: nat): (m: Object)
    requires from <= |items|
    ensures forall k :: k in m ==> AllDigits(k)
    ensures forall i :: from <= i < |items| ==> Decimal(i) in m && m[Decimal(i)] == items[i]
    ensures forall k :: k in m ==> exists i :: from <= i < |items| && k == Decimal(i)
    decreases |items| - from
  {
    if from == |items| then map[]
    else
      DecimalInjective();
      IndexEntries(items, from + 1)[Decimal(from) := items[from]]
  }

  /** A string spreads into its characters (one UTF-16 unit each in the
      browser; one `char` each here). */
  function Chars(s: string): (r: seq<Value>)
    ensures |r| == |s|
    ensures forall i :: 0 <= i < |s| ==> r[i] == JStr([s[i]])
  {
    seq(|s|, i requires 0 <= i < |s| => JStr([s[i]]))
  }

  /** The own enumerable properties `{...v}` copies; None is `undefined`. */
  function Spread(v: Option<Value>): (m: Object)
    ensures v.Some? && v.value.JObj? ==> m == v.value.fields
    ensures !(v.Some? && v.value.JObj?) ==> forall k :: k in m ==> AllDigits(k)
    ensures v.None? || v.value.JNull? || v.value.JBool? || v.value.JNum? ==> m == map[]
    ensures v.Some? && v.value.JArr? ==>
      && (forall i :: 0 <= i < |v.value.items| ==> Decimal(i) in m && m[Decimal(i)] == v.value.items[i])
      && (forall k :: k in m ==> exists i :: 0 <= i < |v.value.items| && k == Decimal(i))
    ensures v.Some? && v.value.JStr? ==>
      && (forall i :: 0 <= i < |v.value.s| ==> Decimal(i) in m && m[Decimal(i)] == JStr([v.value.s[i]]))
      && (forall k :: k in m ==> exists i :: 0 <= i < |v.value.s| && k == Decimal(i))
  {
    match v
    case None => map[]
    case Some(j) =>
      match j
      case JObj(f) => f
      case JStr(s) => IndexEntries(Chars(s), 0)
      case JArr(xs) => IndexEntries(xs, 0)
      case _ => map[]
  }
}
