/** The comparison routines themselves, with their loops, each proved to give a possible outcome. */
module GValuesCompare {
  import opened GValues
  import opened GValuesProofs
  import opened GValuesOrder

  method CompareStrv(strv1: seq<string>, strv2: seq<string>) returns (ret: int)
    ensures ret == StrvCompare(strv1, strv2)
    ensures Tells(EarlierStrv(strv1, strv2), EarlierStrv(strv2, strv1), ret)
  {
    StrvMeans(strv1, strv2);
    var i := 0;
    while i < |strv1| && i < |strv2|
      invariant 0 <= i <= |strv1| && i <= |strv2|
      invariant StrvCompare(strv1, strv2) == StrvCompare(strv1[i..], strv2[i..])
    {
      ret := LexCompare(strv1[i], strv2[i]);
      if ret != 0 {
        return;
      }
      i := i + 1;
    }
    if i == |strv1| && i == |strv2| {
      return 0;
    }
    if i < |strv1| {
      return 1;
    }
    return -1;
  }

  /** Elements are prepended as they are visited, so the list comes out reversed. */
  method IterateCollection(items: seq<GValue>) returns (list: seq<GValue>)
    ensures |list| == |items|
    ensures forall i | 0 <= i < |items| :: list[i] == items[|items| - 1 - i]
  {
    list := [];
    for n := 0 to |items|
      invariant |list| == n
      invariant forall i | 0 <= i < n :: list[i] == items[n - 1 - i]
    {
      list := [items[n]] + list;
    }
  }

  method CompareCollection(rank: GType -> int, value1: GValue, value2: GValue) returns (ret: int)
    requires TypeOf(value1) == TypeOf(value2) && !value1.Null? && !value2.Null?
    requires value1.FixedArray? || value1.List?
    ensures Outcome(rank, value1, value2, ret)
    decreases value1, 0
  {
    if value1.FixedArray? {
      var size := ElementSize(value1.elem);
      var len1, len2 := |value1.data| / size, |value2.data| / size;
      if len1 != len2 {
        ret := Sign(len1, len2);
      } else {
        ret := LexCompare(value1.data, value2.data);
      }
    } else {
      ghost var xs, ys := value1.items, value2.items;
      var list1 := IterateCollection(value1.items);
      var len1 := |list1|;
      var list2 := IterateCollection(value2.items);
      var len2 := |list2|;
      if len1 != len2 {
        ret := Sign(len1, len2);
      } else {
        ret := 0;
        var i := 0;
        assert xs[..len1] == xs && ys[..len1] == ys;
        while ret == 0 && i < len1
          invariant 0 <= i <= len1
          invariant ret == 0 ==>
                      forall r | ListOutcome(rank, xs[..len1 - i], ys[..len1 - i], r) :: ListOutcome(rank, xs, ys, r)
          invariant ret != 0 ==> ListOutcome(rank, xs, ys, ret)
        {
          ghost var n := len1 - i - 1;
          assert xs[..n + 1][..n] == xs[..n] && ys[..n + 1][..n] == ys[..n];
          assert list1[i] == xs[n] && list2[i] == ys[n];
          ret := Compare(rank, list1[i], list2[i]);
          assert ret != 0 ==> ListOutcome(rank, xs[..n + 1], ys[..n + 1], ret);
          i := i + 1;
        }
        assert ret == 0 ==> ListOutcome(rank, xs[..0], ys[..0], 0);
      }
    }
  }

  /** The first table is walked in any order. */
  method CompareMap(rank: GType -> int, value1: GValue, value2: GValue) returns (ret: int)
    requires TypeOf(value1) == TypeOf(value2) && !value1.Null? && !value2.Null?
    requires value1.StringMap? || (value1.Opaque? && value1.kind.NonStringMap?)
    ensures Outcome(rank, value1, value2, ret)
    decreases value1, 0
  {
    if !value1.StringMap? {
      return 0;
    }
    var hash1, hash2 := value1.entries, value2.entries;
    var len1, len2 := |hash1|, |hash2|;
    if len1 != len2 {
      return Sign(len1, len2);
    }
    ret := 0;
    var rest := hash1.Keys;
    while rest != {}
      invariant rest <= hash1.Keys
      invariant ret == 0 ==>
                  forall k | k in hash1.Keys - rest :: k in hash2 && Outcome(rank, hash1[k], hash2[k], 0)
      invariant ret != 0 ==>
                  exists k | k in hash1 :: if k in hash2 then Outcome(rank, hash1[k], hash2[k], ret) else ret == 1
      decreases rest
    {
      var key :| key in rest;
      rest := rest - {key};
      if ret == 0 {
        if key in hash2 {
          ret := Compare(rank, hash1[key], hash2[key]);
        } else {
          ret := 1;
        }
      }
    }
  }

  /** A byte loop over two addresses, run only when ret is still zero and the addresses differ. */
  method CompareAddressBytes(addr1: In6Addr, addr2: In6Addr, ret0: int) returns (ret: int)
    ensures ret == if ret0 != 0 then ret0 else LexCompare(addr1, addr2)
  {
    ret := ret0;
    LexZero(addr1, addr2);
    if addr1 != addr2 {
      var i := 0;
      while ret == 0 && i < |addr1|
        invariant 0 <= i <= |addr1|
        invariant ret0 != 0 ==> ret == ret0
        invariant ret0 == 0 && ret == 0 ==> LexCompare(addr1, addr2) == LexCompare(addr1[i..], addr2[i..])
        invariant ret0 == 0 && ret != 0 ==> LexCompare(addr1, addr2) == ret
      {
        ret := if addr1[i] < addr2[i] then -1 else if addr1[i] > addr2[i] then 1 else 0;
        i := i + 1;
      }
    }
  }

  method CompareIp6Address(value1: GValue, value2: GValue) returns (ret: int)
    requires value1.Ip6Address? && value2.Ip6Address?
    ensures ret == Ip6AddressCompare(value1, value2)
    ensures Tells(EarlierAddress(value1, value2), EarlierAddress(value2, value1), ret)
  {
    AddressMeans(value1, value2);
    ret := 0;
    if value1.prefix != value2.prefix {
      return Sign(value1.prefix, value2.prefix);
    }
    ret := CompareAddressBytes(value1.addr, value2.addr, ret);
    ret := CompareAddressBytes(value1.gateway, value2.gateway, ret);
  }

  method CompareIp6Route(value1: GValue, value2: GValue) returns (ret: int)
    requires value1.Ip6Route? && value2.Ip6Route?
    ensures ret == Ip6RouteCompare(value1, value2)
    ensures Tells(EarlierRoute(value1, value2), EarlierRoute(value2, value1), ret)
  {
    RouteMeans(value1, value2);
    ret := 0;
    if value1.destPrefix != value2.destPrefix {
      return Sign(value1.destPrefix, value2.destPrefix);
    }
    ret := CompareAddressBytes(value1.dest, value2.dest, ret);
    ret := CompareAddressBytes(value1.nextHop, value2.nextHop, ret);
    if value1.metric != value2.metric {
      ret := Sign(value1.metric, value2.metric);
    }
  }

  /** Types first, then one routine per kind of type. */
  method Compare(rank: GType -> int, value1: GValue, value2: GValue) returns (ret: int)
    ensures Outcome(rank, value1, value2, ret) && Means(rank, value1, value2, ret)
    decreases value1, 1
  {
    var type1, type2 := TypeOf(value1), TypeOf(value2);
    if type1 != type2 {
      ret := Sign(rank(type1), rank(type2));
    } else if Unboxed(type1) {
      ret := 0;
    } else if value1.Null? || value2.Null? {
      ret := if value1.Null? && value2.Null? then 0 else if value1.Null? then 1 else -1;
    } else {
      match value1
      case Integral(_, n) => ret := Sign(n, value2.n);
      case Floating(_, x) => ret := FloatCompare(x, value2.x);
      case Str(s) => ret := LexCompare(s, value2.s);
      case Strv(strv) => ret := CompareStrv(strv, value2.strv);
      case FixedArray(_, _) => ret := CompareCollection(rank, value1, value2);
      case List(_, _) => ret := CompareCollection(rank, value1, value2);
      case StringMap(_, _) => ret := CompareMap(rank, value1, value2);
      case Ip6Address(_, _, _) => ret := CompareIp6Address(value1, value2);
      case Ip6Route(_, _, _, _) => ret := CompareIp6Route(value1, value2);
      case Variant(inner) => ret := Compare(rank, inner, value2.inner);
      case Opaque(_, _, _) => ret := 0;
    }
    OutcomeMeans(rank, value1, value2, ret);
  }
}
