/** Which of two values comes first, in terms of the values themselves. */
module GValuesOrder {
  import opened GValues
  import opened GValuesProofs

  /** A result that tells which of two sides comes first, if one does. */
  ghost predicate Tells(before: bool, after: bool, r: int) {
    -1 <= r <= 1 && (r == -1 <==> before) && (r == 1 <==> after)
  }

  // ---------- Strings, string vectors, packed arrays and IPv6 structures ----------

  /** The sides differ first at i, where a has a lesser element or has ended. */
  ghost predicate EarlierAt<T(!new)>(less: (T, T) -> bool, a: seq<T>, b: seq<T>, i: nat) {
    i <= |a| && i < |b| && (forall j | 0 <= j < i :: a[j] == b[j]) && (i == |a| || less(a[i], b[i]))
  }

  /** The first difference decides; a proper prefix comes first. */
  ghost predicate EarlierBy<T(!new)>(less: (T, T) -> bool, a: seq<T>, b: seq<T>) {
    exists i: nat :: EarlierAt(less, a, b, i)
  }

  const BYTE_LESS: (char, char) -> bool := (c, d) => c < d

  ghost const STRING_LESS: (string, string) -> bool := (s, t) => Earlier(s, t)

  ghost predicate Earlier(a: string, b: string) {
    EarlierBy(BYTE_LESS, a, b)
  }

  ghost predicate EarlierStrv(a: seq<string>, b: seq<string>) {
    EarlierBy(STRING_LESS, a, b)
  }

  lemma EarlierAtTail<T(!new)>(less: (T, T) -> bool, a: seq<T>, b: seq<T>, i: nat)
    requires a != [] && b != []
    ensures EarlierAt(less, a, b, i + 1) <==> a[0] == b[0] && EarlierAt(less, a[1..], b[1..], i)
  {
    if a[0] == b[0] && EarlierAt(less, a[1..], b[1..], i) {
      forall j | 0 <= j < i + 1 ensures a[j] == b[j] {
        assert j > 0 ==> a[1..][j - 1] == b[1..][j - 1];
      }
    }
    if EarlierAt(less, a, b, i + 1) {
      forall j | 0 <= j < i ensures a[1..][j] == b[1..][j] {
        assert a[j + 1] == b[j + 1];
      }
    }
  }

  lemma EarlierTail<T(!new)>(less: (T, T) -> bool, a: seq<T>, b: seq<T>)
    requires a != [] && b != []
    ensures EarlierBy(less, a, b) <==> less(a[0], b[0]) || (a[0] == b[0] && EarlierBy(less, a[1..], b[1..]))
  {
    if i: nat :| EarlierAt(less, a, b, i) {
      if i > 0 {
        EarlierAtTail(less, a, b, i - 1);
      }
    }
    if less(a[0], b[0]) {
      assert EarlierAt(less, a, b, 0);
    }
    if i: nat :| EarlierAt(less, a[1..], b[1..], i) {
      EarlierAtTail(less, a, b, i);
    }
  }

  lemma {:induction false} LexMeans(a: string, b: string)
    ensures Tells(Earlier(a, b), Earlier(b, a), LexCompare(a, b))
  {
    if a != [] && b != [] {
      EarlierTail(BYTE_LESS, a, b);
      EarlierTail(BYTE_LESS, b, a);
      LexMeans(a[1..], b[1..]);
    } else {
      assert b != [] ==> EarlierAt(BYTE_LESS, a, b, 0);
      assert a != [] ==> EarlierAt(BYTE_LESS, b, a, 0);
    }
  }

  lemma {:induction false} StrvMeans(a: seq<string>, b: seq<string>)
    ensures Tells(EarlierStrv(a, b), EarlierStrv(b, a), StrvCompare(a, b))
  {
    if a != [] && b != [] {
      EarlierTail(STRING_LESS, a, b);
      EarlierTail(STRING_LESS, b, a);
      LexMeans(a[0], b[0]);
      LexZero(a[0], b[0]);
      StrvMeans(a[1..], b[1..]);
    } else {
      assert b != [] ==> EarlierAt(STRING_LESS, a, b, 0);
      assert a != [] ==> EarlierAt(STRING_LESS, b, a, 0);
    }
  }

  /** The block has no part of an element at its end. */
  ghost predicate WholeElements(t: FixedType, data: string) {
    match t
    case Whole(Char) | Whole(UChar) => true
    case Whole(Boolean) | Whole(Int) | Whole(UInt) | Inexact(Float) => |data| % 4 == 0
    case Whole(Long) | Whole(ULong) | Whole(Int64) | Whole(UInt64) | Inexact(Double) => |data| % 8 == 0
  }

  /** The shorter block comes first; of blocks of one length, the first differing byte decides. */
  ghost predicate EarlierBlock(a: string, b: string) {
    |a| < |b| || (|a| == |b| && Earlier(a, b))
  }

  lemma FixedArrayMeans(t: FixedType, a: string, b: string)
    requires WholeElements(t, a) && WholeElements(t, b)
    ensures Tells(EarlierBlock(a, b), EarlierBlock(b, a), FixedArrayCompare(t, a, b))
  {
    LexMeans(a, b);
  }

  /** The first difference in prefix, address, gateway. */
  ghost predicate EarlierAddress(v: GValue, w: GValue)
    requires v.Ip6Address? && w.Ip6Address?
  {
    || v.prefix < w.prefix
    || (v.prefix == w.prefix && Earlier(v.addr, w.addr))
    || (v.prefix == w.prefix && v.addr == w.addr && Earlier(v.gateway, w.gateway))
  }

  lemma AddressMeans(v: GValue, w: GValue)
    requires v.Ip6Address? && w.Ip6Address?
    ensures Tells(EarlierAddress(v, w), EarlierAddress(w, v), Ip6AddressCompare(v, w))
  {
    LexMeans(v.addr, w.addr);
    LexMeans(v.gateway, w.gateway);
    LexZero(v.addr, w.addr);
  }

  /** The first difference in prefix, metric, destination, next hop. */
  ghost predicate EarlierRoute(v: GValue, w: GValue)
    requires v.Ip6Route? && w.Ip6Route?
  {
    || v.destPrefix < w.destPrefix
    || (v.destPrefix == w.destPrefix && v.metric < w.metric)
    || (v.destPrefix == w.destPrefix && v.metric == w.metric && Earlier(v.dest, w.dest))
    || (v.destPrefix == w.destPrefix && v.metric == w.metric && v.dest == w.dest && Earlier(v.nextHop, w.nextHop))
  }

  lemma RouteMeans(v: GValue, w: GValue)
    requires v.Ip6Route? && w.Ip6Route?
    ensures Tells(EarlierRoute(v, w), EarlierRoute(w, v), Ip6RouteCompare(v, w))
  {
    LexMeans(v.dest, w.dest);
    LexMeans(v.nextHop, w.nextHop);
    LexZero(v.dest, w.dest);
  }

  // ---------- All values ----------

  /** What comparing the elements at one index may return. */
  ghost function ResultsAt(rank: GType -> int, xs: seq<GValue>, ys: seq<GValue>): (int, int) -> bool {
    (i, r) => 0 <= i < |xs| && i < |ys| && Outcome(rank, xs[i], ys[i], r)
  }

  /** Of the first n indices, the highest one whose elements do not compare as zero decides. */
  ghost predicate LastDecides(results: (int, int) -> bool, n: nat, r: int) {
    if r == 0 then forall i | 0 <= i < n :: results(i, 0)
    else exists i :: 0 <= i < n && results(i, r) && forall j | i < j < n :: results(j, 0)
  }

  lemma OneMoreSame(results: (int, int) -> bool, n: nat, r: int)
    requires results(n, 0) && LastDecides(results, n, r)
    ensures LastDecides(results, n + 1, r)
  {
  }

  /** What a result says about two values; those inside them have been compared before. */
  ghost predicate Means(rank: GType -> int, v: GValue, w: GValue, r: int) {
    if TypeOf(v) != TypeOf(w) then
      Tells(rank(TypeOf(v)) < rank(TypeOf(w)), rank(TypeOf(v)) > rank(TypeOf(w)), r)
    else if Unboxed(TypeOf(v)) then r == 0
    else if v.Null? || w.Null? then Tells(!v.Null?, !w.Null?, r)
    else match v
      case Integral(_, n) => Tells(n < w.n, n > w.n, r)
      case Floating(_, x) => Tells(w.x - x > 0.00000001, x - w.x > 0.00000001, r)
      case Str(s) => Tells(Earlier(s, w.s), Earlier(w.s, s), r)
      case Strv(a) => Tells(EarlierStrv(a, w.strv), EarlierStrv(w.strv, a), r)
      case FixedArray(t, d) =>
        WholeElements(t, d) && WholeElements(t, w.data) ==> Tells(EarlierBlock(d, w.data), EarlierBlock(w.data, d), r)
      case List(_, xs) =>
        if |xs| != |w.items| then Tells(|xs| < |w.items|, |xs| > |w.items|, r)
        else LastDecides(ResultsAt(rank, xs, w.items), |xs|, r)
      case StringMap(_, m) =>
        if |m| != |w.entries| then Tells(|m| < |w.entries|, |m| > |w.entries|, r)
        else if r == 0 then forall k | k in m :: k in w.entries && Outcome(rank, m[k], w.entries[k], 0)
        else exists k | k in m :: if k in w.entries then Outcome(rank, m[k], w.entries[k], r) else r == 1
      case Ip6Address(_, _, _) => Tells(EarlierAddress(v, w), EarlierAddress(w, v), r)
      case Ip6Route(_, _, _, _) => Tells(EarlierRoute(v, w), EarlierRoute(w, v), r)
      case Variant(inner) => Outcome(rank, inner, w.inner, r)
      case Opaque(_, _, _) => r == 0
  }

  lemma {:induction false} ListMeans(rank: GType -> int, xs: seq<GValue>, ys: seq<GValue>, n: nat, r: int)
    requires n <= |xs| && |xs| == |ys| && ListOutcome(rank, xs[..n], ys[..n], r)
    ensures LastDecides(ResultsAt(rank, xs, ys), n, r)
  {
    if n > 0 {
      var results := ResultsAt(rank, xs, ys);
      assert xs[..n][..n - 1] == xs[..n - 1] && ys[..n][..n - 1] == ys[..n - 1];
      if r != 0 && Outcome(rank, xs[n - 1], ys[n - 1], r) {
        assert results(n - 1, r);
      } else {
        ListMeans(rank, xs, ys, n - 1, r);
        assert results(n - 1, 0);
        OneMoreSame(results, n - 1, r);
      }
    }
  }

  /** What every possible result of a comparison says about the values. */
  lemma {:induction false} OutcomeMeans(rank: GType -> int, v: GValue, w: GValue, r: int)
    requires Outcome(rank, v, w, r)
    ensures Means(rank, v, w, r)
  {
    if TypeOf(v) == TypeOf(w) && !v.Null? && !w.Null? && !Unboxed(TypeOf(v)) {
      match v
      case Str(s) => LexMeans(s, w.s);
      case Strv(a) => StrvMeans(a, w.strv);
      case FixedArray(t, d) =>
        if WholeElements(t, d) && WholeElements(t, w.data) {
          FixedArrayMeans(t, d, w.data);
        }
      case List(_, xs) =>
        if |xs| == |w.items| {
          assert xs[..|xs|] == xs && w.items[..|xs|] == w.items;
          ListMeans(rank, xs, w.items, |xs|, r);
        }
      case Ip6Address(_, _, _) => AddressMeans(v, w);
      case Ip6Route(_, _, _, _) => RouteMeans(v, w);
      case _ =>
    }
  }
}
