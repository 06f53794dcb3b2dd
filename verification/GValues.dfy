/**
 Deep comparison of GValues (libbm-util/bm-param-spec-specialized.c).

 A GValue is a type tag with a payload. Numeric GTypes are assigned at run time, so the order
 between values of different types is a parameter: `rank` gives each type its number.
 C strings and raw memory are both `string`, one char per byte, so strcmp and memcmp are the
 same lexicographic order; only the sign of a comparison is kept.

 A hash table is walked in an unspecified order, so the result of comparing two maps is not a
 function of the maps. `Outcome(rank, v, w, r)` says that r is a possible result.
 */
module GValues {

  // ---------- Data model ----------

  datatype IntType = Char | UChar | Boolean | Long | ULong | Int | UInt | Int64 | UInt64

  datatype FloatType = Float | Double

  datatype FixedType = Whole(whole: IntType) | Inexact(inexact: FloatType)

  /** The kinds of type that the comparison only warns about. */
  datatype OpaqueKind = UnknownStruct | UnknownBoxed | UnknownUnboxed | NonStringMap

  datatype GType =
    | TFixed(fixed: FixedType)
    | TString
    | TStrv
    | TFixedArray(elem: FixedType)
    | TList(item: GType)
    | TStringMap(val: GType)
    | TIp6Address
    | TIp6Route
    | TValue
    | TOpaque(kind: OpaqueKind, id: nat)

  /** The 16 bytes of a struct in6_addr. */
  type In6Addr = a: string | |a| == 16 witness "0123456789abcdef"

  /** `Null` is the NULL pointer of a string or boxed type. */
  datatype GValue =
    | Null(nullType: GType)
    | Integral(itype: IntType, n: int)
    | Floating(ftype: FloatType, x: real)
    | Str(s: string)
    | Strv(strv: seq<string>)
    | FixedArray(elem: FixedType, data: string)
    | List(item: GType, items: seq<GValue>)
    | StringMap(val: GType, entries: map<string, GValue>)
    | Ip6Address(addr: In6Addr, prefix: nat, gateway: In6Addr)
    | Ip6Route(dest: In6Addr, destPrefix: nat, nextHop: In6Addr, metric: nat)
    | Variant(inner: GValue)
    | Opaque(kind: OpaqueKind, id: nat, pointer: nat)

  function TypeOf(v: GValue): GType {
    match v
    case Null(t) => t
    case Integral(t, _) => TFixed(Whole(t))
    case Floating(t, _) => TFixed(Inexact(t))
    case Str(_) => TString
    case Strv(_) => TStrv
    case FixedArray(e, _) => TFixedArray(e)
    case List(t, _) => TList(t)
    case StringMap(t, _) => TStringMap(t)
    case Ip6Address(_, _, _) => TIp6Address
    case Ip6Route(_, _, _, _) => TIp6Route
    case Variant(_) => TValue
    case Opaque(k, i, _) => TOpaque(k, i)
  }

  function ElementSize(t: FixedType): nat {
    match t
    case Whole(Char) | Whole(UChar) => 1
    case Whole(Boolean) | Whole(Int) | Whole(UInt) | Inexact(Float) => 4
    case Whole(Long) | Whole(ULong) | Whole(Int64) | Whole(UInt64) | Inexact(Double) => 8
  }

  /** Neither fixed, nor a string, nor boxed: nothing is looked at, not even for NULL. */
  predicate Unboxed(t: GType) {
    t.TOpaque? && t.kind.UnknownUnboxed?
  }

  const FLOAT_FACTOR := 0.00000001

  ghost predicate Injective(rank: GType -> int) {
    forall s, t :: rank(s) == rank(t) ==> s == t
  }

  // ---------- What a comparison may return ----------

  function Sign(a: int, b: int): (r: int)
    ensures -1 <= r <= 1
  {
    if a < b then -1 else if a > b then 1 else 0
  }

  /** The sign of strcmp, and of memcmp on blocks of one length. */
  function LexCompare(a: string, b: string): (r: int)
    ensures -1 <= r <= 1
  {
    if a == [] then (if b == [] then 0 else -1)
    else if b == [] then 1
    else if a[0] != b[0] then Sign(a[0] as int, b[0] as int)
    else LexCompare(a[1..], b[1..])
  }

  function FloatCompare(x: real, y: real): (r: int)
    ensures -1 <= r <= 1
  {
    if (if x < y then y - x else x - y) > FLOAT_FACTOR then (if x < y then -1 else 1) else 0
  }

  function StrvCompare(a: seq<string>, b: seq<string>): (r: int)
    ensures -1 <= r <= 1
  {
    if a == [] then (if b == [] then 0 else -1)
    else if b == [] then 1
    else if LexCompare(a[0], b[0]) != 0 then LexCompare(a[0], b[0])
    else StrvCompare(a[1..], b[1..])
  }

  /** A block holds whole elements, so memcmp over length times size bytes spans it. */
  function FixedArrayCompare(elem: FixedType, a: string, b: string): (r: int)
    ensures -1 <= r <= 1
  {
    var size := ElementSize(elem);
    var n, m := |a| / size, |b| / size;
    if n != m then Sign(n, m) else LexCompare(a, b)
  }

  function Ip6AddressCompare(a: GValue, b: GValue): (r: int)
    requires a.Ip6Address? && b.Ip6Address?
    ensures -1 <= r <= 1
  {
    if a.prefix != b.prefix then Sign(a.prefix, b.prefix)
    else if LexCompare(a.addr, b.addr) != 0 then LexCompare(a.addr, b.addr)
    else LexCompare(a.gateway, b.gateway)
  }

  /** The metric, read last, overrides the addresses. */
  function Ip6RouteCompare(a: GValue, b: GValue): (r: int)
    requires a.Ip6Route? && b.Ip6Route?
    ensures -1 <= r <= 1
  {
    if a.destPrefix != b.destPrefix then Sign(a.destPrefix, b.destPrefix)
    else if a.metric != b.metric then Sign(a.metric, b.metric)
    else if LexCompare(a.dest, b.dest) != 0 then LexCompare(a.dest, b.dest)
    else LexCompare(a.nextHop, b.nextHop)
  }

  ghost predicate Outcome(rank: GType -> int, v: GValue, w: GValue, r: int)
    decreases v, 1
  {
    if TypeOf(v) != TypeOf(w) then r == Sign(rank(TypeOf(v)), rank(TypeOf(w)))
    else if Unboxed(TypeOf(v)) then r == 0
    else if v.Null? || w.Null? then r == if v.Null? && w.Null? then 0 else if v.Null? then 1 else -1
    else match v
      case Integral(_, n) => r == Sign(n, w.n)
      case Floating(_, x) => r == FloatCompare(x, w.x)
      case Str(s) => r == LexCompare(s, w.s)
      case Strv(a) => r == StrvCompare(a, w.strv)
      case FixedArray(e, d) => r == FixedArrayCompare(e, d, w.data)
      case List(_, xs) =>
        if |xs| != |w.items| then r == Sign(|xs|, |w.items|) else ListOutcome(rank, xs, w.items, r)
      case StringMap(_, m) =>
        if |m| != |w.entries| then r == Sign(|m|, |w.entries|)
        else if r == 0 then forall k | k in m :: k in w.entries && Outcome(rank, m[k], w.entries[k], 0)
        else exists k | k in m :: if k in w.entries then Outcome(rank, m[k], w.entries[k], r) else r == 1
      case Ip6Address(_, _, _) => r == Ip6AddressCompare(v, w)
      case Ip6Route(_, _, _, _) => r == Ip6RouteCompare(v, w)
      case Variant(inner) => Outcome(rank, inner, w.inner, r)
      case Opaque(_, _, _) => r == 0
  }

  /** Two collections of one length are compared from the last element to the first. */
  ghost predicate ListOutcome(rank: GType -> int, xs: seq<GValue>, ys: seq<GValue>, r: int)
    requires |xs| == |ys|
    decreases xs, 0
  {
    if xs == [] then r == 0
    else
      var n := |xs| - 1;
      || (r != 0 && Outcome(rank, xs[n], ys[n], r))
      || (Outcome(rank, xs[n], ys[n], 0) && ListOutcome(rank, xs[..n], ys[..n], r))
  }

  // ---------- Classes of values ----------

  /** No float and no type without a comparison, at any depth. */
  predicate Exact(v: GValue) {
    match v
    case Null(t) => !Unboxed(t)
    case Floating(_, _) => false
    case Opaque(_, _, _) => false
    case List(_, xs) => forall x | x in xs :: Exact(x)
    case StringMap(_, m) => forall k | k in m :: Exact(m[k])
    case Variant(inner) => Exact(inner)
    case _ => true
  }

  /** No string-keyed map with an entry, at any depth. */
  predicate NoEntries(v: GValue) {
    match v
    case List(_, xs) => forall x | x in xs :: NoEntries(x)
    case StringMap(_, m) => m == map[]
    case Variant(inner) => NoEntries(inner)
    case _ => true
  }

  /** No float at any depth outside a packed array. */
  predicate FloatFree(v: GValue) {
    match v
    case Floating(_, _) => false
    case List(_, xs) => forall x | x in xs :: FloatFree(x)
    case StringMap(_, m) => forall k | k in m :: FloatFree(m[k])
    case Variant(inner) => FloatFree(inner)
    case _ => true
  }
}
