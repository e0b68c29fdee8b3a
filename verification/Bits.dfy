/** bindings/python/rad_util.py: binary strings, and counting through all of a width. */
module Bits {
  import opened Wrappers

  predicate IsBits(s: string) {
    forall i :: 0 <= i < |s| ==> s[i] == '0' || s[i] == '1'
  }

  function Bit(c: char): nat {
    if c == '1' then 1 else 0
  }

  function Pow2(n: nat): (p: nat)
    ensures p >= 1
  {
    if n == 0 then 1 else 2 * Pow2(n - 1)
  }

  /** bin2int, on strings of binary digits. */
  function Bin2Int(s: string): nat {
    if s == "" then 0 else 2 * Bin2Int(s[..|s| - 1]) + Bit(s[|s| - 1])
  }

  // ----- int2bin

  /** hex(i) without its prefix, most significant digit first. */
  function HexDigits(i: nat): (d: seq<nat>)
    ensures d != [] && forall k :: 0 <= k < |d| ==> d[k] < 16
  {
    if i < 16 then [i] else HexDigits(i / 16) + [i % 16]
  }

  function Hex2Bin(d: nat): (s: string)
    requires d < 16
    ensures |s| == 4 && IsBits(s)
  {
    [Digit(d / 8), Digit(d / 4 % 2), Digit(d / 2 % 2), Digit(d % 2)]
  }

  function Digit(b: nat): (c: char)
    requires b < 2
    ensures (c == '0' || c == '1') && Bit(c) == b
  {
    if b == 1 then '1' else '0'
  }

  function JoinHex(d: seq<nat>): (s: string)
    requires forall k :: 0 <= k < |d| ==> d[k] < 16
    ensures |s| == 4 * |d| && IsBits(s)
  {
    if d == [] then "" else JoinHex(d[..|d| - 1]) + Hex2Bin(d[|d| - 1])
  }

  function Zeros(n: nat): (s: string)
    ensures |s| == n && IsBits(s)
  {
    if n == 0 then "" else Zeros(n - 1) + "0"
  }

  datatype ConversionError = KeyError | ValueError

  /** A negative number fails on the sign of its hexadecimal form. A width of 0 truncates nothing. */
  function Int2Bin(i: int, n: nat): Result<string, ConversionError> {
    if i < 0 then Err(KeyError)
    else
      var result := JoinHex(HexDigits(i));
      var cut := if n == 0 || |result| <= n then 0 else |result| - n;
      if n > 0 && '1' in result[..cut] then Err(ValueError)
      else
        var kept := result[cut..];
        Ok(Zeros(if |kept| < n then n - |kept| else 0) + kept)
  }

  // ----- Values

  lemma {:induction false} ValueConcat(a: string, b: string)
    ensures Bin2Int(a + b) == Bin2Int(a) * Pow2(|b|) + Bin2Int(b)
  {
    if b == "" {
      assert a + b == a;
    } else {
      var n := |b| - 1;
      ValueConcat(a, b[..n]);
      assert (a + b)[..|a| + n] == a + b[..n];
      assert Bin2Int(a) * Pow2(|b|) == 2 * (Bin2Int(a) * Pow2(n));
    }
  }

  lemma {:induction false} ValueBound(s: string)
    ensures Bin2Int(s) < Pow2(|s|)
    ensures IsBits(s) ==> (Bin2Int(s) == 0 <==> '1' !in s)
  {
    if s != "" {
      var n := |s| - 1;
      ValueBound(s[..n]);
      assert s == s[..n] + [s[n]];
    }
  }

  /** Of one width, a value has only one string. */
  lemma {:induction false} ValueInjective(s: string, t: string)
    requires IsBits(s) && IsBits(t) && |s| == |t| && Bin2Int(s) == Bin2Int(t)
    ensures s == t
  {
    if s != "" {
      var n := |s| - 1;
      ValueInjective(s[..n], t[..n]);
      assert s == s[..n] + [s[n]] && t == t[..n] + [t[n]];
    }
  }

  lemma {:induction false} ZerosValue(n: nat)
    ensures Bin2Int(Zeros(n)) == 0
  {
    if n > 0 {
      ZerosValue(n - 1);
      assert Zeros(n)[..n - 1] == Zeros(n - 1);
    }
  }

  lemma Hex2BinValue(d: nat)
    requires d < 16
    ensures Bin2Int(Hex2Bin(d)) == d
  {
    var s := Hex2Bin(d);
    assert s[..3][..2] == s[..2] && s[..2][..1] == s[..1] && s[..1][..0] == "";
    assert Bin2Int(s[..1]) == d / 8;
    assert Bin2Int(s[..2]) == d / 4;
    assert Bin2Int(s[..3]) == d / 2;
  }

  lemma HexStep(high: seq<nat>, low: nat)
    requires low < 16 && forall k :: 0 <= k < |high| ==> high[k] < 16
    ensures forall k :: 0 <= k < |high + [low]| ==> (high + [low])[k] < 16
    ensures Bin2Int(JoinHex(high + [low])) == 16 * Bin2Int(JoinHex(high)) + low
  {
    hide Bin2Int, Hex2Bin;
    var d := high + [low];
    assert d[..|high|] == high && d[|high|] == low;
    Hex2BinValue(low);
    ValueConcat(JoinHex(high), Hex2Bin(low));
    assert Pow2(4) == 16;
  }

  lemma {:induction false} HexValue(i: nat)
    ensures Bin2Int(JoinHex(HexDigits(i))) == i
  {
    hide Bin2Int, JoinHex;
    if i < 16 {
      HexStep([], i);
      assert Bin2Int(JoinHex([])) == 0 by { NoDigits(); }
      assert HexDigits(i) == [] + [i];
    } else {
      HexValue(i / 16);
      HexStep(HexDigits(i / 16), i % 16);
    }
  }

  lemma NoDigits()
    ensures Bin2Int(JoinHex([])) == 0
  {
  }

  /** Cutting to the last n digits loses a 1 exactly when the value needs more than n digits. */
  lemma CutValue(high: string, kept: string, n: nat)
    requires IsBits(high) && IsBits(kept) && (high == "" || |kept| == n) && |kept| <= n
    ensures '1' in high <==> Bin2Int(high + kept) >= Pow2(n)
    ensures '1' !in high ==> Bin2Int(Zeros(n - |kept|) + kept) == Bin2Int(high + kept)
  {
    hide Bin2Int, Pow2, Zeros;
    ValueConcat(high, kept);
    ValueBound(high);
    ValueBound(kept);
    ZerosValue(n - |kept|);
    ValueConcat(Zeros(n - |kept|), kept);
    Pow2Grows(|kept|, n);
    Times(Bin2Int(high), Pow2(|kept|));
  }

  lemma Times(x: nat, y: nat)
    ensures x == 0 ==> x * y == 0
    ensures x > 0 ==> x * y >= y
  {
  }

  lemma {:induction false} Pow2Grows(m: nat, n: nat)
    requires m <= n
    ensures Pow2(m) <= Pow2(n)
  {
    if m < n { Pow2Grows(m, n - 1); }
  }

  /** int2bin succeeds exactly on the numbers that fit, with a string of the width that bin2int takes back. */
  lemma Int2BinRoundTrip(i: int, n: nat)
    requires n >= 1
    ensures Int2Bin(i, n).Ok? <==> 0 <= i < Pow2(n)
    ensures Int2Bin(i, n).Ok? ==>
              |Int2Bin(i, n).value| == n && IsBits(Int2Bin(i, n).value) && Bin2Int(Int2Bin(i, n).value) == i
    ensures Int2Bin(i, n).Err? ==> Int2Bin(i, n).error == if i < 0 then KeyError else ValueError
  {
    hide Bin2Int, Pow2, JoinHex, HexDigits, Zeros;
    if i >= 0 {
      var result := JoinHex(HexDigits(i));
      var cut := if |result| <= n then 0 else |result| - n;
      HexValue(i);
      assert result == result[..cut] + result[cut..];
      CutValue(result[..cut], result[cut..], n);
    }
  }

  lemma {:induction false} HexLength(i: nat)
    ensures |HexDigits(i)| == 1 || Pow2(4 * (|HexDigits(i)| - 1)) <= i
    ensures i < Pow2(4 * |HexDigits(i)|)
  {
    var n := |HexDigits(i)|;
    if i < 16 {
      assert Pow2(4) == 16;
    } else {
      HexLength(i / 16);
      FourMore(4 * (n - 1));
      if n > 2 { FourMore(4 * (n - 2)); }
      assert n == 2 ==> Pow2(4) == 16;
    }
  }

  lemma FourMore(n: nat)
    ensures Pow2(n + 4) == 16 * Pow2(n)
  {
    assert Pow2(n + 2) == 4 * Pow2(n);
  }

  /** With a width of 0 nothing is cut off or put before: the fewest hexadecimal digits, in full. */
  lemma Int2BinZeroWidth(i: int)
    ensures Int2Bin(i, 0).Err? <==> i < 0
    ensures i < 0 ==> Int2Bin(i, 0) == Err(KeyError)
    ensures i >= 0 ==>
              var s := Int2Bin(i, 0).value;
              && IsBits(s) && Bin2Int(s) == i && |s| > 0 && |s| % 4 == 0
              && (|s| > 4 ==> Pow2(|s| - 4) <= i)
  {
    hide Bin2Int, Pow2, JoinHex, HexDigits;
    if i >= 0 {
      var s := JoinHex(HexDigits(i));
      HexValue(i);
      HexLength(i);
      assert s[0..] == s && Zeros(0) + s == s;
    }
  }

  lemma Bin2IntRoundTrip(s: string)
    requires IsBits(s) && s != ""
    ensures Int2Bin(Bin2Int(s), |s|) == Ok(s)
  {
    ValueBound(s);
    Int2BinRoundTrip(Bin2Int(s), |s|);
    ValueInjective(s, Int2Bin(Bin2Int(s), |s|).value);
  }

  // ----- binary_range

  function Reverse(s: string): (r: string)
    ensures |r| == |s|
  {
    if s == "" then "" else Reverse(s[1..]) + [s[0]]
  }

  /** The value of a string whose first digit counts least. */
  function LowFirst(s: string): nat {
    if s == "" then 0 else Bit(s[0]) + 2 * LowFirst(s[1..])
  }

  lemma {:induction false} ReverseValue(s: string)
    requires IsBits(s)
    ensures Bin2Int(Reverse(s)) == LowFirst(s) && IsBits(Reverse(s))
  {
    if s != "" {
      ReverseValue(s[1..]);
      assert Reverse(s)[..|s| - 1] == Reverse(s[1..]);
    }
  }

  lemma {:induction false} SetBit(s: string, i: nat, c: char)
    requires i < |s|
    ensures LowFirst(s[i := c]) + Bit(s[i]) * Pow2(i) == LowFirst(s) + Bit(c) * Pow2(i)
  {
    if i > 0 {
      SetBit(s[1..], i - 1, c);
      assert s[i := c][1..] == s[1..][i - 1 := c];
    } else {
      assert s[i := c][1..] == s[1..];
    }
  }

  lemma ReversedIsInt2Bin(s: string)
    requires IsBits(s) && s != ""
    ensures LowFirst(s) < Pow2(|s|) && Int2Bin(LowFirst(s), |s|) == Ok(Reverse(s))
  {
    ReverseValue(s);
    ValueBound(Reverse(s));
    Bin2IntRoundTrip(Reverse(s));
  }

  /** Adds one by carrying: the digits are changed in place, and the carry out of the top is returned. */
  method Increment(v: array<char>) returns (toggle: seq<int>)
    requires IsBits(v[..])
    modifies v
    ensures IsBits(v[..]) && |toggle| == v.Length + 1
    ensures v.Length > 0 ==> toggle[v.Length] == 0 || toggle[v.Length] == 1
    ensures v.Length > 0 ==> LowFirst(v[..]) + toggle[v.Length] * Pow2(v.Length) == LowFirst(old(v[..])) + 1
  {
    var bits := v.Length;
    toggle := [1] + seq(bits, _ => 0);
    var i := 0;
    ghost var start := v[..];
    while i < bits && toggle[i] == 1
      invariant i <= bits && |toggle| == bits + 1 && IsBits(v[..])
      invariant toggle[i] == 0 || toggle[i] == 1
      invariant forall j :: i < j <= bits ==> toggle[j] == 0
      invariant LowFirst(v[..]) + toggle[i] * Pow2(i) == LowFirst(start) + 1
      decreases bits - i
    {
      ghost var before := v[..];
      if v[i] == '0' {
        v[i] := '1';
        toggle := toggle[i + 1 := 0];
      } else {
        v[i] := '0';
        toggle := toggle[i + 1 := 1];
      }
      SetBit(before, i, v[i]);
      assert v[..] == before[i := v[i]];
      i := i + 1;
    }
  }

  method BinaryRange(bits: nat) returns (l: seq<string>)
    ensures |l| == if bits == 0 then 0 else Pow2(bits)
    ensures forall k :: 0 <= k < |l| ==> Int2Bin(k, bits) == Ok(l[k])
  {
    hide LowFirst, Int2Bin, Pow2, Reverse;
    l := [];
    var v := new char[bits](_ => '0');
    var toggle := [1] + seq(bits, _ => 0);
    NothingSet(v[..]);
    while toggle[bits] != 1
      invariant IsBits(v[..]) && |toggle| == bits + 1
      invariant bits == 0 ==> l == [] && toggle[bits] == 1
      invariant bits > 0 ==> if toggle[bits] == 1 then |l| == Pow2(bits) else LowFirst(v[..]) == |l| < Pow2(bits)
      invariant forall k :: 0 <= k < |l| ==> Int2Bin(k, bits) == Ok(l[k])
      decreases Pow2(bits) - |l|
    {
      ReversedIsInt2Bin(v[..]);
      l := l + [Reverse(v[..])];
      toggle := Increment(v);
      ReversedIsInt2Bin(v[..]);
    }
  }

  lemma {:induction false} NothingSet(s: string)
    requires forall i :: 0 <= i < |s| ==> s[i] == '0'
    ensures LowFirst(s) == 0
  {
    if s != "" { NothingSet(s[1..]); }
  }
}
