/**
 Hex digits and escapes: the decoder of udev properties (libbm-glib/bm-device.c) and the hex
 printer (libbm-util/bm-utils.c), on buffers of bytes that hold C strings.
 */
module HexCodec {

  type Byte = n: int | 0 <= n < 256

  const NUL: Byte := 0
  const BACKSLASH: Byte := 92
  const X: Byte := 120

  /** "0123456789abcdef": base 16 of RFC 4648, section 8, in lower case. */
  const DIGITS: seq<Byte> := [48, 49, 50, 51, 52, 53, 54, 55, 56, 57, 97, 98, 99, 100, 101, 102]

  // ---------- C strings ----------

  /** The bytes before the first NUL. */
  function CString(buffer: seq<Byte>): (s: seq<Byte>)
    ensures NUL !in s && s <= buffer
    ensures |s| < |buffer| ==> buffer[|s|] == NUL
  {
    if buffer == [] || buffer[0] == NUL then [] else [buffer[0]] + CString(buffer[1..])
  }

  lemma {:induction false} CStringIs(buffer: seq<Byte>, n: nat)
    requires n < |buffer| && buffer[n] == NUL && NUL !in buffer[..n]
    ensures CString(buffer) == buffer[..n]
  {
    if n > 0 {
      assert buffer[1..][..n - 1] == buffer[..n][1..];
      CStringIs(buffer[1..], n - 1);
    }
  }

  // ---------- Digits and escapes ----------

  /** -1 for what is not a hex digit. */
  function Hex2Num(c: Byte): int {
    if 48 <= c <= 57 then c - 48
    else if 97 <= c <= 102 then c - 97 + 10
    else if 65 <= c <= 70 then c - 65 + 10
    else -1
  }

  function Hex2Byte(a: Byte, b: Byte): int {
    if Hex2Num(a) < 0 || Hex2Num(b) < 0 then -1 else Hex2Num(a) * 16 + Hex2Num(b)
  }

  /** The conversion to char: -1 becomes 255. */
  function AsChar(n: int): Byte {
    n % 256
  }

  /** Four or more bytes, the first two of them "\x". */
  predicate StartsEscape(s: seq<Byte>) {
    |s| >= 4 && s[0] == BACKSLASH && s[1] == X
  }

  function Decoded(s: seq<Byte>): seq<Byte> {
    if s == [] then []
    else if StartsEscape(s) then [AsChar(Hex2Byte(s[2], s[3]))] + Decoded(s[4..])
    else [s[0]] + Decoded(s[1..])
  }

  function HexPair(b: Byte): seq<Byte> {
    [DIGITS[b / 16], DIGITS[b % 16]]
  }

  function Hexstr(bytes: seq<Byte>): seq<Byte> {
    if bytes == [] then [] else HexPair(bytes[0]) + Hexstr(bytes[1..])
  }

  /** Bytes may be left plain, except for backslashes; all others are written as an escape. */
  function Escaped(s: seq<Byte>, plain: seq<bool>): seq<Byte>
    requires |plain| == |s|
  {
    if s == [] then []
    else
      (if plain[0] && s[0] != BACKSLASH then [s[0]] else [BACKSLASH, X] + HexPair(s[0])) + Escaped(s[1..], plain[1..])
  }

  // ---------- Round trips ----------

  lemma DigitRead(n: nat)
    requires n < 16
    ensures Hex2Num(DIGITS[n]) == n && DIGITS[n] != NUL
  {
    if n < 10 {
      assert DIGITS[n] == 48 + n;
    } else {
      assert DIGITS[n] == 87 + n;
    }
  }

  const LOWER_DIGITS := "0123456789abcdef"
  const UPPER_DIGITS := "0123456789ABCDEF"

  /** The digit is the n-th, in either case. */
  ghost predicate IsDigit(c: char, n: nat) {
    n < 16 && (c == LOWER_DIGITS[n] || c == UPPER_DIGITS[n])
  }

  lemma DigitValue(c: char, n: nat)
    requires IsDigit(c, n)
    ensures c as int < 256 && Hex2Num(c as int) == n
  {
  }

  /** An escape is a backslash, an x, and two digits in either case, and decodes to the number they write. */
  lemma {:induction false} EscapeRead(hi: char, lo: char, m: nat, n: nat, rest: seq<Byte>)
    requires IsDigit(hi, m) && IsDigit(lo, n)
    ensures hi as int < 256 && lo as int < 256
    ensures Decoded(['\\' as int, 'x' as int, hi as int, lo as int] + rest) == [16 * m + n] + Decoded(rest)
  {
    DigitValue(hi, m);
    DigitValue(lo, n);
    var e: seq<Byte> := ['\\' as int, 'x' as int, hi as int, lo as int] + rest;
    assert e[4..] == rest && e[2] == hi as int && e[3] == lo as int;
  }

  /** A byte is printed as two lower-case digits, the high one first. */
  lemma {:induction false} HexstrWrites(bytes: seq<Byte>, i: nat)
    requires i < |bytes|
    ensures |Hexstr(bytes)| == 2 * |bytes|
    ensures Hexstr(bytes)[2 * i] == LOWER_DIGITS[bytes[i] / 16] as int
    ensures Hexstr(bytes)[2 * i + 1] == LOWER_DIGITS[bytes[i] % 16] as int
  {
    PairWrites(bytes[0]);
    if |bytes| > 1 {
      HexstrWrites(bytes[1..], if i > 0 then i - 1 else 0);
    }
  }

  lemma DigitWrites(n: nat)
    requires n < 16
    ensures DIGITS[n] == LOWER_DIGITS[n] as int
  {
  }

  lemma PairWrites(b: Byte)
    ensures HexPair(b)[0] == LOWER_DIGITS[b / 16] as int && HexPair(b)[1] == LOWER_DIGITS[b % 16] as int
  {
    DigitWrites(b / 16);
    DigitWrites(b % 16);
  }

  lemma HexPairRead(b: Byte)
    ensures Hex2Byte(HexPair(b)[0], HexPair(b)[1]) == b
    ensures NUL !in HexPair(b)
  {
    DigitRead(b / 16);
    DigitRead(b % 16);
  }

  /** Reading digit pairs back gives the printed bytes. */
  lemma {:induction false} HexstrRead(bytes: seq<Byte>, i: nat)
    requires i < |bytes|
    ensures |Hexstr(bytes)| == 2 * |bytes| && Hex2Byte(Hexstr(bytes)[2 * i], Hexstr(bytes)[2 * i + 1]) == bytes[i]
    ensures NUL !in Hexstr(bytes)
  {
    HexPairRead(bytes[0]);
    if |bytes| > 1 {
      HexstrRead(bytes[1..], if i > 0 then i - 1 else 0);
    }
  }

  lemma DecodedPlain(b: Byte, rest: seq<Byte>)
    requires b != BACKSLASH
    ensures Decoded([b] + rest) == [b] + Decoded(rest)
  {
    assert ([b] + rest)[1..] == rest;
  }

  lemma {:induction false} DecodedPair(b: Byte, rest: seq<Byte>)
    ensures Decoded([BACKSLASH, X] + HexPair(b) + rest) == [b] + Decoded(rest)
  {
    var e := [BACKSLASH, X] + HexPair(b) + rest;
    HexPairRead(b);
    assert e[4..] == rest && e[2] == HexPair(b)[0] && e[3] == HexPair(b)[1];
  }

  lemma {:induction false} DecodedEscaped(s: seq<Byte>, plain: seq<bool>)
    requires |plain| == |s|
    ensures Decoded(Escaped(s, plain)) == s
    ensures NUL !in s ==> NUL !in Escaped(s, plain)
  {
    if s != [] {
      var rest := Escaped(s[1..], plain[1..]);
      DecodedEscaped(s[1..], plain[1..]);
      if plain[0] && s[0] != BACKSLASH {
        DecodedPlain(s[0], rest);
      } else {
        HexPairRead(s[0]);
        DecodedPair(s[0], rest);
      }
    }
  }

  lemma {:induction false} CStringWhole(s: seq<Byte>)
    requires NUL !in s
    ensures CString(s) == s
  {
    if s != [] {
      CStringWhole(s[1..]);
    }
  }

  /** Escaping a string and decoding it gives the string back, for exactly the strings without NUL. */
  lemma RoundTripIff(s: seq<Byte>, plain: seq<bool>)
    requires |plain| == |s|
    ensures CString(Decoded(CString(Escaped(s, plain)))) == s <==> NUL !in s
  {
    if NUL !in s {
      DecodedEscaped(s, plain);
      CStringWhole(Escaped(s, plain));
      CStringWhole(s);
    }
  }

  ghost predicate HasEscape(s: seq<Byte>) {
    exists i :: 0 <= i < |s| && StartsEscape(s[i..])
  }

  lemma EscapeInRest(s: seq<Byte>)
    requires s != [] && !StartsEscape(s)
    ensures HasEscape(s) <==> HasEscape(s[1..])
  {
    if HasEscape(s) {
      var i :| 0 <= i < |s| && StartsEscape(s[i..]);
      assert i != 0 by {
        assert s[0..] == s;
      }
      assert s[1..][i - 1..] == s[i..];
    }
    if HasEscape(s[1..]) {
      var i :| 0 <= i < |s| - 1 && StartsEscape(s[1..][i..]);
      assert s[i + 1..] == s[1..][i..];
    }
  }

  /** The decoded string is never longer; it is the same for exactly the strings without escapes. */
  lemma {:induction false} UnchangedIff(s: seq<Byte>)
    ensures |Decoded(s)| <= |s|
    ensures |Decoded(s)| == |s| <==> !HasEscape(s)
    ensures Decoded(s) == s <==> !HasEscape(s)
  {
    if StartsEscape(s) {
      UnchangedIff(s[4..]);
      assert StartsEscape(s[0..]);
    } else if s != [] {
      UnchangedIff(s[1..]);
      EscapeInRest(s);
      assert s == [s[0]] + s[1..];
    }
  }

  /** An escape with a bad digit does not fail but gives the byte 255. */
  lemma BadEscape(s: seq<Byte>)
    requires StartsEscape(s)
    ensures Decoded(s)[0] == 255 <==>
            Hex2Num(s[2]) < 0 || Hex2Num(s[3]) < 0 || (Hex2Num(s[2]) == 15 && Hex2Num(s[3]) == 15)
  {
  }

  // ---------- The code ----------

  method Strlen(s: array<Byte>) returns (len: nat)
    requires NUL in s[..]
    ensures len == |CString(s[..])| < s.Length
  {
    len := 0;
    while s[len] != NUL
      invariant 0 <= len < s.Length && NUL !in s[..len]
      decreases s.Length - len
    {
      len := len + 1;
    }
    CStringIs(s[..], len);
    assert s[..][..len] == s[..len];
  }

  /** The byte that one turn of the decoder writes at position p of a string. */
  function TurnByte(s: seq<Byte>, p: nat): Byte
    requires p < |s|
  {
    if StartsEscape(s[p..]) then AsChar(Hex2Byte(s[p + 2], s[p + 3])) else s[p]
  }

  /** How many bytes one turn reads. */
  function TurnWidth(s: seq<Byte>, p: nat): nat
    requires p < |s|
  {
    if StartsEscape(s[p..]) then 4 else 1
  }

  lemma DecodedTurn(s: seq<Byte>, p: nat)
    requires p < |s|
    ensures p + TurnWidth(s, p) <= |s|
    ensures Decoded(s[p..]) == [TurnByte(s, p)] + Decoded(s[p + TurnWidth(s, p)..])
  {
    var t, w := s[p..], TurnWidth(s, p);
    assert t[w..] == s[p + w..];
  }

  lemma OneTurn(s: seq<Byte>, p: nat, out: seq<Byte>)
    requires p < |s| && out + Decoded(s[p..]) == Decoded(s)
    ensures p + TurnWidth(s, p) <= |s|
    ensures out + [TurnByte(s, p)] + Decoded(s[p + TurnWidth(s, p)..]) == Decoded(s)
  {
    DecodedTurn(s, p);
    Reassociate(out, TurnByte(s, p), Decoded(s[p + TurnWidth(s, p)..]));
  }

  lemma Reassociate(s: seq<Byte>, b: Byte, t: seq<Byte>)
    ensures s + [b] + t == s + ([b] + t)
  {
  }

  /** One turn of the loop, with `len` bytes left; it reads no byte at or after the NUL. */
  method Turn(orig: array<Byte>, p: nat, len: nat, ghost s: seq<Byte>) returns (b: Byte, width: nat)
    requires s <= orig[..] && p + len == |s| && len > 0
    ensures b == TurnByte(s, p) && width == TurnWidth(s, p)
  {
    assert forall i | p <= i < |s| :: s[i] == orig[..][i] == orig[i];
    if len >= 4 && orig[p] == BACKSLASH && orig[p + 1] == X {
      b := AsChar(Hex2Byte(orig[p + 2], orig[p + 3]));
      width := 4;
    } else {
      b := orig[p];
      width := 1;
    }
  }

  /** The loop: `unescaped` has room for as many bytes as the string has. */
  method DecodeInto(orig: array<Byte>, len0: nat, unescaped: array<Byte>) returns (ghost out: seq<Byte>)
    requires orig != unescaped && len0 < orig.Length && NUL !in orig[..len0] && orig[len0] == NUL
    requires unescaped.Length == len0 + 1
    modifies unescaped
    ensures out == Decoded(orig[..len0]) && |out| <= len0 && unescaped[..|out|] == out
    ensures forall i | |out| <= i <= len0 :: unescaped[i] == old(unescaped[i])
  {
    ghost var s := orig[..len0];
    var p: nat, n: nat, len: nat := 0, 0, len0;
    out := [];
    while orig[p] != NUL
      invariant 0 <= n <= p && p + len == len0 && |out| == n && orig[..len0] == s
      invariant unescaped[..n] == out && out + Decoded(s[p..]) == Decoded(s)
      invariant forall i | n <= i <= len0 :: unescaped[i] == old(unescaped[i])
      decreases len0 - p
    {
      OneTurn(s, p, out);
      var b, width := Turn(orig, p, len, s);
      unescaped[n] := b;
      out := out + [b];
      n := n + 1;
      p := p + width;
      len := len - width;
    }
  }

  /**
   get_decoded_property: every read and write is within the two buffers. The result is the decoded
   string, in a buffer that is as large as the property's.
   */
  method GetDecodedProperty(orig: array?<Byte>) returns (unescaped: array?<Byte>)
    requires orig != null ==> NUL in orig[..]
    ensures unescaped == null <==> orig == null
    ensures orig != null ==>
              var decoded := Decoded(CString(orig[..]));
              && fresh(unescaped) && unescaped.Length == |CString(orig[..])| + 1
              && |decoded| < unescaped.Length && unescaped[..|decoded|] == decoded
              && forall i | |decoded| <= i < unescaped.Length :: unescaped[i] == NUL
  {
    if orig == null {
      return null;
    }
    var len := Strlen(orig);
    unescaped := new Byte[len + 1](i => NUL);
    assert orig[..len] == CString(orig[..]);
    ghost var out := DecodeInto(orig, len, unescaped);
  }

  lemma HexstrStep(bytes: seq<Byte>, i: nat)
    requires i < |bytes|
    ensures Hexstr(bytes[..i + 1]) == Hexstr(bytes[..i]) + HexPair(bytes[i])
    ensures |Hexstr(bytes[..i])| == 2 * i
  {
    HexstrAppend(bytes[..i], bytes[i]);
    assert bytes[..i + 1] == bytes[..i] + [bytes[i]];
    if i > 0 {
      HexstrRead(bytes[..i], 0);
    }
  }

  lemma {:induction false} HexstrAppend(bytes: seq<Byte>, b: Byte)
    ensures Hexstr(bytes + [b]) == Hexstr(bytes) + HexPair(b)
  {
    var more, last := bytes + [b], HexPair(b);
    if bytes == [] {
      assert more == [b] && more[1..] == [];
      assert Hexstr(more) == last + [];
    } else {
      HexstrAppend(bytes[1..], b);
      assert more[0] == bytes[0] && more[1..] == bytes[1..] + [b];
      Appended(HexPair(bytes[0]), Hexstr(bytes[1..]), last);
    }
  }

  lemma Appended<T>(a: seq<T>, b: seq<T>, c: seq<T>)
    ensures a + (b + c) == (a + b) + c
  {
  }

  /** The loop: two digits for each byte. */
  method PrintHex(bytes: array<Byte>, len: nat, result: array<Byte>)
    requires bytes != result && len <= bytes.Length && 2 * len < result.Length
    modifies result
    ensures result[..2 * len] == Hexstr(bytes[..len])
  {
    ghost var s := bytes[..len];
    var i := 0;
    while i < len
      invariant 0 <= i <= len && bytes[..len] == s
      invariant result[..2 * i] == Hexstr(s[..i])
    {
      HexstrStep(s, i);
      assert bytes[i] == s[i];
      result[2 * i] := DIGITS[bytes[i] / 16];
      result[2 * i + 1] := DIGITS[bytes[i] % 16];
      assert result[..2 * (i + 1)] == result[..2 * i] + HexPair(s[i]);
      i := i + 1;
    }
    assert s[..len] == s;
  }

  /** utils_bin2hexstr: NULL for arguments it does not take; `finalLen` cuts the string, unless it is negative. */
  method Bin2Hexstr(bytes: array?<Byte>, len: int, finalLen: int) returns (result: array?<Byte>)
    requires bytes != null ==> len <= bytes.Length
    ensures result != null <==> bytes != null && 0 < len < 4096 && (finalLen > -1 ==> finalLen < 2 * len + 1)
    ensures result != null ==>
              && fresh(result) && result.Length == 2 * len + 1
              && |Hexstr(bytes[..len])| == 2 * len
              && CString(result[..]) == Hexstr(bytes[..len])[..if finalLen > -1 then finalLen else 2 * len]
  {
    if bytes == null || len <= 0 || len >= 4096 || (finalLen > -1 && finalLen >= 2 * len + 1) {
      return null;
    }
    result := new Byte[2 * len + 1](i => NUL);
    PrintHex(bytes, len, result);
    ghost var digits := Hexstr(bytes[..len]);
    HexstrRead(bytes[..len], 0);
    var end := if finalLen > -1 then finalLen else 2 * len;
    result[end] := NUL;
    assert result[..end] == digits[..end];
    CStringIs(result[..], end);
  }
}
