/** Shared value types and string helpers used by every other module:
    optional values, Go's int64 arithmetic, decimal rendering as Go's fmt
    package does it, and the few strings-package functions the core calls. */
module Common {

  datatype Option<T> = None | Some(value: T)

  const INT64_MIN: int := -0x8000_0000_0000_0000
  const INT64_MAX: int := 0x7FFF_FFFF_FFFF_FFFF

  /** Go's int64. */
  type Int64 = x: int | INT64_MIN <= x <= INT64_MAX

  /** Two's-complement wrap-around of an int64 operation whose exact result is x. */
  function Wrap64(x: int): (r: Int64)
    ensures INT64_MIN <= x <= INT64_MAX ==> r == x
    ensures (r - x) % 0x1_0000_0000_0000_0000 == 0
  {
    (x - INT64_MIN) % 0x1_0000_0000_0000_0000 + INT64_MIN
  }

  function Min(a: int, b: int): int { if a <= b then a else b }

  // ---------------------------------------------------------------------
  // Decimal digits

  predicate IsDigit(c: char) { '0' <= c <= '9' }

  predicate AllDigits(s: string) { forall i :: 0 <= i < |s| ==> IsDigit(s[i]) }

  function DigitChar(d: nat): (c: char)
    requires d < 10
    ensures IsDigit(c) && c as int - '0' as int == d
  {
    ('0' as int + d) as char
  }

  /** The value of a string of decimal digits, read most significant first. */
  function DigitsValue(s: string): nat
    requires AllDigits(s)
  {
    if s == [] then 0
    else DigitsValue(s[..|s| - 1]) * 10 + (s[|s| - 1] as int - '0' as int)
  }

  /** Go's strconv.Itoa / fmt "%d" for a non-negative value. */
  function NatToString(n: nat): (s: string)
    ensures |s| >= 1 && AllDigits(s)
    ensures s[0] == '0' ==> n == 0
  {
    if n < 10 then [DigitChar(n)] else NatToString(n / 10) + [DigitChar(n % 10)]
  }

  /** fmt "%d" for any value: a minus sign followed by the magnitude. */
  function IntToString(i: int): (s: string)
    ensures |s| >= 1
    ensures (s[0] == '-') <==> i < 0
  {
    if i < 0 then "-" + NatToString(-i) else NatToString(i)
  }

  function Zeros(k: nat): (s: string)
    ensures |s| == k && AllDigits(s)
    ensures forall i :: 0 <= i < k ==> s[i] == '0'
  {
    if k == 0 then [] else Zeros(k - 1) + "0"
  }

  /** fmt "%04d": at least four characters, zeros inserted after the sign. */
  function Pad4(n: int): string
  {
    if n >= 0 then
      var s := NatToString(n);
      if |s| < 4 then Zeros(4 - |s|) + s else s
    else
      var s := NatToString(-n);
      "-" + (if |s| < 3 then Zeros(3 - |s|) + s else s)
  }

  /** A decimal field with no sign, as a parser of non-negative ids reads it. */
  function ParseNat(s: string): (r: Option<nat>)
    ensures r.Some? <==> |s| > 0 && AllDigits(s)
  {
    if |s| > 0 && AllDigits(s) then Some(DigitsValue(s)) else None
  }

  lemma {:induction false} DigitsValueOfNatToString(n: nat)
    ensures DigitsValue(NatToString(n)) == n
  {
    if n >= 10 {
      DigitsValueOfNatToString(n / 10);
      var s := NatToString(n / 10) + [DigitChar(n % 10)];
      assert s[..|s| - 1] == NatToString(n / 10);
    }
  }

  /** Rendering a number and reading it back yields the number. */
  lemma ParseNatRoundTrip(n: nat)
    ensures ParseNat(NatToString(n)) == Some(n)
  {
    DigitsValueOfNatToString(n);
  }

  lemma NatToStringInjective(a: nat, b: nat)
    ensures NatToString(a) == NatToString(b) ==> a == b
  {
    DigitsValueOfNatToString(a);
    DigitsValueOfNatToString(b);
  }

  lemma {:induction false} DigitsValueLeadingZeros(k: nat, s: string)
    requires AllDigits(s)
    ensures DigitsValue(Zeros(k) + s) == DigitsValue(s)
    decreases |s|
  {
    if s == [] {
      assert Zeros(k) + s == Zeros(k);
      ZerosValue(k);
    } else {
      var t := Zeros(k) + s;
      assert t[..|t| - 1] == Zeros(k) + s[..|s| - 1];
      DigitsValueLeadingZeros(k, s[..|s| - 1]);
    }
  }

  lemma {:induction false} ZerosValue(k: nat)
    ensures DigitsValue(Zeros(k)) == 0
  {
    if k > 0 {
      assert Zeros(k)[..k - 1] == Zeros(k - 1);
      ZerosValue(k - 1);
    }
  }

  /** The value that Pad4 renders, read back. */
  function Unpad(s: string): int
    requires |s| >= 1
    requires s[0] == '-' ==> AllDigits(s[1..])
    requires s[0] != '-' ==> AllDigits(s)
  {
    if s[0] == '-' then -(DigitsValue(s[1..]) as int) else DigitsValue(s)
  }

  /** "%04d" output: digits with an optional leading minus sign, at least four
      characters, exactly four for 0..9999, and it can be read back. */
  lemma Pad4Facts(n: int)
    ensures |Pad4(n)| >= 4
    ensures 0 <= n <= 9999 ==> |Pad4(n)| == 4 && AllDigits(Pad4(n))
    ensures n >= 0 ==> AllDigits(Pad4(n))
    ensures n < 0 ==> Pad4(n)[0] == '-' && AllDigits(Pad4(n)[1..])
    ensures Unpad(Pad4(n)) == n
  {
    if n >= 0 {
      var s := NatToString(n);
      DigitsValueOfNatToString(n);
      if |s| < 4 {
        DigitsValueLeadingZeros(4 - |s|, s);
      }
      if n <= 9999 {
        NatToStringLength(n);
      }
    } else {
      var s := NatToString(-n);
      DigitsValueOfNatToString(-n);
      var p := Pad4(n);
      if |s| < 3 {
        DigitsValueLeadingZeros(3 - |s|, s);
        assert p[1..] == Zeros(3 - |s|) + s;
      } else {
        assert p[1..] == s;
      }
    }
  }

  lemma {:induction false} NatToStringLength(n: nat)
    ensures n <= 9999 ==> |NatToString(n)| <= 4
    ensures n <= 999 ==> |NatToString(n)| <= 3
    ensures n <= 99 ==> |NatToString(n)| <= 2
  {
    if n >= 10 {
      NatToStringLength(n / 10);
    }
  }

  /** Distinct queue numbers give distinct "%04d" renderings. */
  lemma Pad4Injective(a: int, b: int)
    ensures Pad4(a) == Pad4(b) ==> a == b
  {
    Pad4Facts(a);
    Pad4Facts(b);
  }

  // ---------------------------------------------------------------------
  // strings package

  /** strings.HasPrefix */
  predicate StartsWith(s: string, p: string) { |p| <= |s| && s[..|p|] == p }

  /** strings.Contains: sub occurs somewhere in s (the empty string occurs everywhere). */
  predicate Contains(s: string, sub: string)
  {
    exists i :: 0 <= i <= |s| - |sub| && OccursAt(s, sub, i)
  }

  predicate OccursAt(s: string, sub: string, i: int)
  {
    0 <= i <= |s| - |sub| && s[i..i + |sub|] == sub
  }

  /** strings.ContainsRune for a single character. */
  predicate HasChar(s: string, c: char) { exists i :: 0 <= i < |s| && s[i] == c }

  /** strings.Index for a single character: the first position of c, if any. */
  function IndexOf(s: string, c: char): (r: Option<nat>)
    ensures r.None? <==> !HasChar(s, c)
    ensures r.Some? ==> r.value < |s| && s[r.value] == c
                        && forall j :: 0 <= j < r.value ==> s[j] != c
  {
    if s == [] then None
    else if s[0] == c then Some(0)
    else match IndexOf(s[1..], c)
      case None => None
      case Some(k) => Some(k + 1)
  }

  /** strings.ReplaceAll for single characters. */
  function ReplaceChar(s: string, from: char, to: char): (r: string)
    ensures |r| == |s|
    ensures forall i :: 0 <= i < |s| ==> r[i] == (if s[i] == from then to else s[i])
  {
    if s == [] then [] else [if s[0] == from then to else s[0]] + ReplaceChar(s[1..], from, to)
  }
}
