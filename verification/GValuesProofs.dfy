/** What the possible results of a comparison mean. */
module GValuesProofs {
  import opened GValues

  // ---------- Lexicographic order on bytes and string vectors ----------

  lemma {:induction false} LexZero(a: string, b: string)
    ensures LexCompare(a, b) == 0 <==> a == b
  {
    if a != [] && b != [] {
      LexZero(a[1..], b[1..]);
      assert a == [a[0]] + a[1..] && b == [b[0]] + b[1..];
    }
  }

  lemma {:induction false} LexAntisymmetric(a: string, b: string)
    ensures LexCompare(a, b) == -LexCompare(b, a)
  {
    if a != [] && b != [] {
      LexAntisymmetric(a[1..], b[1..]);
    }
  }

  lemma {:induction false} LexTransitive(a: string, b: string, c: string)
    requires LexCompare(a, b) <= 0 && LexCompare(b, c) <= 0
    ensures LexCompare(a, c) == Min(LexCompare(a, b), LexCompare(b, c))
  {
    if a != [] && b != [] && c != [] && a[0] == b[0] == c[0] {
      LexTransitive(a[1..], b[1..], c[1..]);
    }
  }

  lemma {:induction false} StrvZero(a: seq<string>, b: seq<string>)
    ensures StrvCompare(a, b) == 0 <==> a == b
  {
    if a != [] && b != [] {
      LexZero(a[0], b[0]);
      StrvZero(a[1..], b[1..]);
      assert a == [a[0]] + a[1..] && b == [b[0]] + b[1..];
    }
  }

  lemma {:induction false} StrvAntisymmetric(a: seq<string>, b: seq<string>)
    ensures StrvCompare(a, b) == -StrvCompare(b, a)
  {
    if a != [] && b != [] {
      LexAntisymmetric(a[0], b[0]);
      StrvAntisymmetric(a[1..], b[1..]);
    }
  }

  lemma {:induction false} StrvTransitive(a: seq<string>, b: seq<string>, c: seq<string>)
    requires StrvCompare(a, b) <= 0 && StrvCompare(b, c) <= 0
    ensures StrvCompare(a, c) == Min(StrvCompare(a, b), StrvCompare(b, c))
  {
    if a != [] && b != [] && c != [] {
      LexTransitive(a[0], b[0], c[0]);
      if LexCompare(a[0], b[0]) == 0 && LexCompare(b[0], c[0]) == 0 {
        StrvTransitive(a[1..], b[1..], c[1..]);
      }
    }
  }

  function Min(a: int, b: int): int {
    if a < b then a else b
  }

  // ---------- Packed arrays and IPv6 structures ----------

  lemma FixedArrayOrder(e: FixedType, a: string, b: string, c: string)
    ensures FixedArrayCompare(e, a, b) == 0 <==> a == b
    ensures FixedArrayCompare(e, a, b) == -FixedArrayCompare(e, b, a)
    ensures FixedArrayCompare(e, a, b) <= 0 && FixedArrayCompare(e, b, c) <= 0 ==>
              FixedArrayCompare(e, a, c) == Min(FixedArrayCompare(e, a, b), FixedArrayCompare(e, b, c))
  {
    LexOrder(a, b, c);
  }

  lemma Ip6AddressOrder(a: GValue, b: GValue, c: GValue)
    requires a.Ip6Address? && b.Ip6Address? && c.Ip6Address?
    ensures Ip6AddressCompare(a, b) == 0 <==> a == b
    ensures Ip6AddressCompare(a, b) == -Ip6AddressCompare(b, a)
    ensures Ip6AddressCompare(a, b) <= 0 && Ip6AddressCompare(b, c) <= 0 ==>
              Ip6AddressCompare(a, c) == Min(Ip6AddressCompare(a, b), Ip6AddressCompare(b, c))
  {
    LexOrder(a.addr, b.addr, c.addr);
    LexOrder(a.gateway, b.gateway, c.gateway);
  }

  lemma Ip6RouteOrder(a: GValue, b: GValue, c: GValue)
    requires a.Ip6Route? && b.Ip6Route? && c.Ip6Route?
    ensures Ip6RouteCompare(a, b) == 0 <==> a == b
    ensures Ip6RouteCompare(a, b) == -Ip6RouteCompare(b, a)
    ensures Ip6RouteCompare(a, b) <= 0 && Ip6RouteCompare(b, c) <= 0 ==>
              Ip6RouteCompare(a, c) == Min(Ip6RouteCompare(a, b), Ip6RouteCompare(b, c))
  {
    LexOrder(a.dest, b.dest, c.dest);
    LexOrder(a.nextHop, b.nextHop, c.nextHop);
  }

  lemma LexOrder(a: string, b: string, c: string)
    ensures LexCompare(a, b) == 0 <==> a == b
    ensures LexCompare(a, b) == -LexCompare(b, a)
    ensures LexCompare(b, c) == 0 <==> b == c
    ensures LexCompare(a, b) <= 0 && LexCompare(b, c) <= 0 ==>
              LexCompare(a, c) == Min(LexCompare(a, b), LexCompare(b, c))
  {
    LexZero(a, b);
    LexZero(b, c);
    LexAntisymmetric(a, b);
    if LexCompare(a, b) <= 0 && LexCompare(b, c) <= 0 {
      LexTransitive(a, b, c);
    }
  }

  // ---------- Zero ----------

  /** A subset with as many elements is the whole set: why the map check can be one-sided. */
  lemma SubsetOfSameSize<T>(a: set<T>, b: set<T>)
    requires a <= b && |a| == |b|
    ensures a == b
  {
    assert b == a + (b - a);
    assert |b| == |a| + |b - a|;
  }

  /** Every value compares equal to itself, so the pointer-equality shortcuts change nothing. */
  lemma {:induction false} Reflexive(rank: GType -> int, v: GValue)
    ensures Outcome(rank, v, v, 0)
    decreases v, 1
  {
    match v
    case Str(s) => LexZero(s, s);
    case Strv(a) => StrvZero(a, a);
    case FixedArray(e, d) => LexZero(d, d);
    case List(_, xs) => ListReflexive(rank, xs);
    case StringMap(_, m) =>
      forall k | k in m ensures Outcome(rank, m[k], m[k], 0) {
        Reflexive(rank, m[k]);
      }
    case Ip6Address(_, _, _) => Ip6AddressOrder(v, v, v);
    case Ip6Route(_, _, _, _) => Ip6RouteOrder(v, v, v);
    case Variant(inner) => Reflexive(rank, inner);
    case _ =>
  }

  lemma {:induction false} ListReflexive(rank: GType -> int, xs: seq<GValue>)
    ensures ListOutcome(rank, xs, xs, 0)
    decreases xs, 0
  {
    if xs != [] {
      Reflexive(rank, xs[|xs| - 1]);
      ListReflexive(rank, xs[..|xs| - 1]);
    }
  }

  /** Whether the result is zero does not depend on the walk order, for any two values. */
  lemma {:induction false} ZeroDecides(rank: GType -> int, v: GValue, w: GValue, r: int)
    requires Outcome(rank, v, w, 0) && Outcome(rank, v, w, r)
    ensures r == 0
    decreases v, 1
  {
    if TypeOf(v) == TypeOf(w) && !v.Null? && !w.Null? {
      match v
      case List(_, xs) =>
        if |xs| == |w.items| {
          ListZeroDecides(rank, xs, w.items, r);
        }
      case StringMap(_, m) =>
        if |m| == |w.entries| && r != 0 {
          var k :| k in m && if k in w.entries then Outcome(rank, m[k], w.entries[k], r) else r == 1;
          ZeroDecides(rank, m[k], w.entries[k], r);
        }
      case Variant(inner) => ZeroDecides(rank, inner, w.inner, r);
      case _ =>
    }
  }

  lemma {:induction false} ListZeroDecides(rank: GType -> int, xs: seq<GValue>, ys: seq<GValue>, r: int)
    requires |xs| == |ys|
    requires ListOutcome(rank, xs, ys, 0) && ListOutcome(rank, xs, ys, r)
    ensures r == 0
    decreases xs, 0
  {
    if xs != [] {
      var n := |xs| - 1;
      if Outcome(rank, xs[n], ys[n], r) {
        ZeroDecides(rank, xs[n], ys[n], r);
      } else {
        ListZeroDecides(rank, xs[..n], ys[..n], r);
      }
    }
  }

  /** For an exact value, zero means structurally equal, whatever the other value is. */
  lemma {:induction false} ZeroIffEqual(rank: GType -> int, v: GValue, w: GValue)
    requires Injective(rank) && Exact(v)
    ensures Outcome(rank, v, w, 0) <==> v == w
    decreases v, 1
  {
    Reflexive(rank, v);
    if Outcome(rank, v, w, 0) && !v.Null? {
      assert TypeOf(v) == TypeOf(w) && !Unboxed(TypeOf(v)) && !w.Null?;
      match v
      case Str(s) => LexZero(s, w.s);
      case Strv(a) => StrvZero(a, w.strv);
      case FixedArray(e, d) => FixedArrayOrder(e, d, w.data, d);
      case List(_, xs) => ListZeroIffEqual(rank, xs, w.items);
      case StringMap(_, m) =>
        SubsetOfSameSize(m.Keys, w.entries.Keys);
        forall k | k in m ensures m[k] == w.entries[k] {
          ZeroIffEqual(rank, m[k], w.entries[k]);
        }
        assert m == w.entries;
      case Ip6Address(_, _, _) => Ip6AddressOrder(v, w, w);
      case Ip6Route(_, _, _, _) => Ip6RouteOrder(v, w, w);
      case Variant(inner) => ZeroIffEqual(rank, inner, w.inner);
      case _ =>
    }
  }

  lemma {:induction false} ListZeroIffEqual(rank: GType -> int, xs: seq<GValue>, ys: seq<GValue>)
    requires Injective(rank) && |xs| == |ys|
    requires forall x | x in xs :: Exact(x)
    ensures ListOutcome(rank, xs, ys, 0) <==> xs == ys
    decreases xs, 0
  {
    if xs != [] {
      var n := |xs| - 1;
      ZeroIffEqual(rank, xs[n], ys[n]);
      ListZeroIffEqual(rank, xs[..n], ys[..n]);
      assert xs == xs[..n] + [xs[n]] && ys == ys[..n] + [ys[n]];
    }
  }

  /** A value with a float or an uncomparable part has a different twin that compares as equal. */
  lemma {:induction false} TwinOf(rank: GType -> int, v: GValue) returns (w: GValue)
    requires !Exact(v)
    ensures w != v && TypeOf(w) == TypeOf(v) && Outcome(rank, v, w, 0)
  {
    match v
    case Floating(t, x) => w := Floating(t, x + FLOAT_FACTOR);
    case Opaque(k, i, p) => w := Opaque(k, i, p + 1);
    case Null(t) => w := Opaque(t.kind, t.id, 0);
    case List(t, xs) =>
      var i :| 0 <= i < |xs| && !Exact(xs[i]);
      var x := TwinOf(rank, xs[i]);
      w := List(t, xs[i := x]);
      ReplaceOne(rank, xs, i, x, 0);
      assert w.items[i] != xs[i];
    case StringMap(t, m) =>
      var k :| k in m && !Exact(m[k]);
      var x := TwinOf(rank, m[k]);
      w := StringMap(t, m[k := x]);
      assert w.entries[k] != m[k];
      SameSize(m, k, x);
      forall j | j in m ensures Outcome(rank, m[j], w.entries[j], 0) {
        Reflexive(rank, m[j]);
      }
    case Variant(inner) =>
      var x := TwinOf(rank, inner);
      w := Variant(x);
  }

  lemma SameSize<K, V>(m: map<K, V>, k: K, x: V)
    requires k in m
    ensures |m[k := x]| == |m|
  {
    assert m[k := x].Keys == m.Keys;
  }

  /** A list against itself with one element replaced gives the results of that element. */
  lemma {:induction false} ReplaceOne(rank: GType -> int, xs: seq<GValue>, i: nat, x: GValue, r: int)
    requires i < |xs|
    ensures ListOutcome(rank, xs, xs[i := x], r) <==> Outcome(rank, xs[i], x, r)
    decreases |xs|
  {
    var n := |xs| - 1;
    var ys := xs[i := x];
    if i == n {
      assert ys[..n] == xs[..n];
      ListReflexive(rank, xs[..n]);
      if ListOutcome(rank, xs[..n], xs[..n], r) {
        ListZeroDecides(rank, xs[..n], xs[..n], r);
      }
    } else {
      Reflexive(rank, xs[n]);
      if Outcome(rank, xs[n], xs[n], r) {
        ZeroDecides(rank, xs[n], xs[n], r);
      }
      ReplaceOne(rank, xs[..n], i, x, r);
      assert ys[..n] == xs[..n][i := x];
    }
  }

  /** Comparing as equal is being equal, for exactly the values without floats and uncomparable parts. */
  lemma ExactIff(rank: GType -> int, v: GValue)
    requires Injective(rank)
    ensures Exact(v) <==> forall w | Outcome(rank, v, w, 0) :: w == v
  {
    if Exact(v) {
      forall w | Outcome(rank, v, w, 0) ensures w == v {
        ZeroIffEqual(rank, v, w);
      }
    } else {
      var w := TwinOf(rank, v);
      assert Outcome(rank, v, w, 0) && w != v;
    }
  }

  // ---------- Order ----------

  /** Without map entries, swapping the arguments negates the result. */
  lemma {:induction false} Antisymmetric(rank: GType -> int, v: GValue, w: GValue, r: int)
    requires NoEntries(v) && Outcome(rank, v, w, r)
    ensures Outcome(rank, w, v, -r)
    decreases v, 1
  {
    if TypeOf(v) == TypeOf(w) && !v.Null? && !w.Null? {
      match v
      case Str(s) => LexAntisymmetric(s, w.s);
      case Strv(a) => StrvAntisymmetric(a, w.strv);
      case FixedArray(e, d) => FixedArrayOrder(e, d, w.data, d);
      case List(_, xs) =>
        if |xs| == |w.items| {
          ListAntisymmetric(rank, xs, w.items, r);
        }
      case Ip6Address(_, _, _) => Ip6AddressOrder(v, w, v);
      case Ip6Route(_, _, _, _) => Ip6RouteOrder(v, w, v);
      case Variant(inner) => Antisymmetric(rank, inner, w.inner, r);
      case _ =>
    }
  }

  lemma {:induction false} ListAntisymmetric(rank: GType -> int, xs: seq<GValue>, ys: seq<GValue>, r: int)
    requires |xs| == |ys| && (forall x | x in xs :: NoEntries(x)) && ListOutcome(rank, xs, ys, r)
    ensures ListOutcome(rank, ys, xs, -r)
    decreases xs, 0
  {
    if xs != [] {
      var n := |xs| - 1;
      if r != 0 && Outcome(rank, xs[n], ys[n], r) {
        Antisymmetric(rank, xs[n], ys[n], r);
      } else {
        Antisymmetric(rank, xs[n], ys[n], 0);
        ListAntisymmetric(rank, xs[..n], ys[..n], r);
      }
    }
  }

  /** Renaming one key of a map makes a value that compares greater in both directions. */
  lemma {:induction false} RekeyedOf(rank: GType -> int, v: GValue) returns (w: GValue)
    requires !NoEntries(v)
    ensures TypeOf(w) == TypeOf(v)
    ensures Outcome(rank, v, w, 1) && Outcome(rank, w, v, 1) && !Outcome(rank, w, v, -1)
  {
    match v
    case List(t, xs) =>
      var i :| 0 <= i < |xs| && !NoEntries(xs[i]);
      var x := RekeyedOf(rank, xs[i]);
      w := List(t, xs[i := x]);
      ReplaceOne(rank, xs, i, x, 1);
      assert xs == w.items[i := xs[i]];
      ReplaceOne(rank, w.items, i, xs[i], 1);
      ReplaceOne(rank, w.items, i, xs[i], -1);
    case StringMap(t, m) =>
      var key :| key in m;
      var unused := UnusedKey(m.Keys);
      var m' := (m - {key})[unused := m[key]];
      w := StringMap(t, m');
      assert m'.Keys == m.Keys - {key} + {unused};
      assert key !in m';
      if k :| k in m' && if k in m then Outcome(rank, m'[k], m[k], -1) else -1 == 1 {
        Reflexive(rank, m[k]);
        ZeroDecides(rank, m[k], m[k], -1);
      }
    case Variant(inner) =>
      var x := RekeyedOf(rank, inner);
      w := Variant(x);
  }

  lemma {:induction false} UnusedKey(keys: set<string>) returns (unused: string)
    ensures unused !in keys && forall k | k in keys :: |k| < |unused|
  {
    if keys == {} {
      unused := "";
    } else {
      var k :| k in keys;
      var longer := UnusedKey(keys - {k});
      unused := longer + k + "-";
    }
  }

  /** Antisymmetry holds for exactly the values without map entries. */
  lemma AntisymmetricIff(rank: GType -> int, v: GValue)
    ensures NoEntries(v) <==> forall w, r | Outcome(rank, v, w, r) :: Outcome(rank, w, v, -r)
  {
    if NoEntries(v) {
      forall w, r | Outcome(rank, v, w, r) ensures Outcome(rank, w, v, -r) {
        Antisymmetric(rank, v, w, r);
      }
    } else {
      var w := RekeyedOf(rank, v);
      assert Outcome(rank, v, w, 1) && !Outcome(rank, w, v, -1);
    }
  }

  lemma {:induction false} ResultInRange(rank: GType -> int, v: GValue, w: GValue, r: int)
    requires Outcome(rank, v, w, r)
    ensures -1 <= r <= 1
    decreases v, 1
  {
    if TypeOf(v) == TypeOf(w) && !v.Null? && !w.Null? {
      match v
      case List(_, xs) =>
        if |xs| == |w.items| {
          ListResultInRange(rank, xs, w.items, r);
        }
      case StringMap(_, m) =>
        if |m| == |w.entries| && r != 0 {
          var k :| k in m && if k in w.entries then Outcome(rank, m[k], w.entries[k], r) else r == 1;
          if k in w.entries {
            ResultInRange(rank, m[k], w.entries[k], r);
          }
        }
      case Variant(inner) => ResultInRange(rank, inner, w.inner, r);
      case _ =>
    }
  }

  lemma {:induction false} ListResultInRange(rank: GType -> int, xs: seq<GValue>, ys: seq<GValue>, r: int)
    requires |xs| == |ys| && ListOutcome(rank, xs, ys, r)
    ensures -1 <= r <= 1
    decreases xs, 0
  {
    if xs != [] {
      var n := |xs| - 1;
      if Outcome(rank, xs[n], ys[n], r) {
        ResultInRange(rank, xs[n], ys[n], r);
      } else {
        ListResultInRange(rank, xs[..n], ys[..n], r);
      }
    }
  }

  /** Without map entries the walk order plays no part: there is one result. */
  lemma {:induction false} OneOutcome(rank: GType -> int, v: GValue, w: GValue, r: int, s: int)
    requires NoEntries(v) && Outcome(rank, v, w, r) && Outcome(rank, v, w, s)
    ensures r == s && -1 <= r <= 1
    decreases v, 1
  {
    if TypeOf(v) == TypeOf(w) && !v.Null? && !w.Null? {
      match v
      case List(_, xs) =>
        if |xs| == |w.items| {
          ListOneOutcome(rank, xs, w.items, r, s);
        }
      case Variant(inner) => OneOutcome(rank, inner, w.inner, r, s);
      case _ =>
    }
  }

  lemma {:induction false} ListOneOutcome(rank: GType -> int, xs: seq<GValue>, ys: seq<GValue>, r: int, s: int)
    requires |xs| == |ys| && forall x | x in xs :: NoEntries(x)
    requires ListOutcome(rank, xs, ys, r) && ListOutcome(rank, xs, ys, s)
    ensures r == s && -1 <= r <= 1
    decreases xs, 0
  {
    if xs != [] {
      var n := |xs| - 1;
      forall p, q | Outcome(rank, xs[n], ys[n], p) && Outcome(rank, xs[n], ys[n], q) ensures p == q && -1 <= p <= 1 {
        OneOutcome(rank, xs[n], ys[n], p, q);
      }
      if Outcome(rank, xs[n], ys[n], 0) {
        ListOneOutcome(rank, xs[..n], ys[..n], r, s);
      }
    }
  }

  /** Results compose: the order is transitive, and equal values are interchangeable. */
  lemma {:induction false} Transitive(rank: GType -> int, u: GValue, v: GValue, w: GValue, r: int, s: int)
    requires Injective(rank) && NoEntries(u) && FloatFree(u)
    requires Outcome(rank, u, v, r) && Outcome(rank, v, w, s) && r <= 0 && s <= 0
    ensures Outcome(rank, u, w, Min(r, s))
    decreases u, 1
  {
    ResultInRange(rank, u, v, r);
    ResultInRange(rank, v, w, s);
    if TypeOf(u) != TypeOf(v) || TypeOf(v) != TypeOf(w) || u.Null? || v.Null? || w.Null? {
      TypesTransitive(rank, u, v, w, r, s);
    } else if u.List? && |u.items| == |v.items| == |w.items| {
      ListTransitive(rank, u.items, v.items, w.items, r, s);
    } else if u.Variant? {
      Transitive(rank, u.inner, v.inner, w.inner, r, s);
    } else {
      LeafTransitive(rank, u, v, w, r, s);
    }
  }

  lemma {:induction false} LeafTransitive(rank: GType -> int, u: GValue, v: GValue, w: GValue, r: int, s: int)
    requires NoEntries(u) && FloatFree(u) && !u.Variant? && -1 <= r <= 0 && -1 <= s <= 0
    requires TypeOf(u) == TypeOf(v) == TypeOf(w) && !u.Null? && !v.Null? && !w.Null?
    requires u.List? ==> |u.items| != |v.items| || |v.items| != |w.items|
    requires Outcome(rank, u, v, r) && Outcome(rank, v, w, s)
    ensures Outcome(rank, u, w, Min(r, s))
  {
    match u
    case Str(a) => LexTransitive(a, v.s, w.s);
    case Strv(a) => StrvTransitive(a, v.strv, w.strv);
    case FixedArray(e, d) => FixedArrayOrder(e, d, v.data, w.data);
    case Ip6Address(_, _, _) => Ip6AddressOrder(u, v, w);
    case Ip6Route(_, _, _, _) => Ip6RouteOrder(u, v, w);
    case _ =>
  }

  lemma {:induction false} TypesTransitive(rank: GType -> int, u: GValue, v: GValue, w: GValue, r: int, s: int)
    requires Injective(rank) && r <= 0 && s <= 0
    requires !(TypeOf(u) == TypeOf(v) == TypeOf(w)) || u.Null? || v.Null? || w.Null?
    requires Outcome(rank, u, v, r) && Outcome(rank, v, w, s) && -1 <= r && -1 <= s
    ensures Outcome(rank, u, w, Min(r, s))
  {
  }

  lemma {:induction false} ListTransitive(
    rank: GType -> int, xs: seq<GValue>, ys: seq<GValue>, zs: seq<GValue>, r: int, s: int)
    requires Injective(rank) && |xs| == |ys| == |zs|
    requires forall x | x in xs :: NoEntries(x) && FloatFree(x)
    requires ListOutcome(rank, xs, ys, r) && ListOutcome(rank, ys, zs, s) && r <= 0 && s <= 0
    ensures ListOutcome(rank, xs, zs, Min(r, s))
    decreases xs, 0
  {
    ListResultInRange(rank, xs, ys, r);
    ListResultInRange(rank, ys, zs, s);
    if xs != [] {
      var n := |xs| - 1;
      var p := if r != 0 && Outcome(rank, xs[n], ys[n], r) then r else 0;
      var q := if s != 0 && Outcome(rank, ys[n], zs[n], s) then s else 0;
      Transitive(rank, xs[n], ys[n], zs[n], p, q);
      if p == 0 && q == 0 {
        ListTransitive(rank, xs[..n], ys[..n], zs[..n], r, s);
      }
    }
  }

  /** Two tolerated float steps make one that is not tolerated. */
  lemma {:induction false} DriftOf(rank: GType -> int, u: GValue) returns (v: GValue, w: GValue)
    requires NoEntries(u) && !FloatFree(u)
    ensures TypeOf(u) == TypeOf(v) == TypeOf(w)
    ensures Outcome(rank, u, v, 0) && Outcome(rank, v, w, 0) && Outcome(rank, u, w, -1)
  {
    match u
    case Floating(t, x) =>
      v, w := Floating(t, x + FLOAT_FACTOR), Floating(t, x + 2.0 * FLOAT_FACTOR);
    case List(t, xs) =>
      var i :| 0 <= i < |xs| && !FloatFree(xs[i]);
      var y, z := DriftOf(rank, xs[i]);
      v, w := List(t, xs[i := y]), List(t, xs[i := z]);
      assert v.items[i := z] == w.items;
      ReplaceOne(rank, xs, i, y, 0);
      ReplaceOne(rank, v.items, i, z, 0);
      ReplaceOne(rank, xs, i, z, -1);
    case Variant(inner) =>
      var y, z := DriftOf(rank, inner);
      v, w := Variant(y), Variant(z);
  }

  ghost predicate TransitiveFrom(rank: GType -> int, u: GValue) {
    forall v, w, r, s {:trigger Outcome(rank, u, v, r), Outcome(rank, v, w, s)} ::
      Outcome(rank, u, v, r) && Outcome(rank, v, w, s) && r <= 0 && s <= 0 ==> Outcome(rank, u, w, Min(r, s))
  }

  /** Without map entries, the order is transitive from exactly the values without floats. */
  lemma TransitiveIff(rank: GType -> int, u: GValue)
    requires Injective(rank) && NoEntries(u)
    ensures FloatFree(u) <==> TransitiveFrom(rank, u)
  {
    if FloatFree(u) {
      forall v, w, r, s {:trigger Outcome(rank, u, v, r), Outcome(rank, v, w, s)}
        | Outcome(rank, u, v, r) && Outcome(rank, v, w, s) && r <= 0 && s <= 0
        ensures Outcome(rank, u, w, Min(r, s))
      {
        Transitive(rank, u, v, w, r, s);
      }
    } else {
      var v, w := DriftOf(rank, u);
      if Outcome(rank, u, w, 0) {
        ZeroDecides(rank, u, w, -1);
      }
      assert Outcome(rank, u, v, 0) && Outcome(rank, v, w, 0) && !Outcome(rank, u, w, Min(0, 0));
    }
  }
}
