/** Decimal text and PHP's integer conversions: `intval` on strings,
    `strval` on integers, `str_pad` with a left pad, and `substr` for a
    non-negative start and length. PHP integers are 64-bit; `intval` on a
    string saturates at the ends of that range, which is written out here. */
module Numeric {
  import opened Common

  const PhpIntMax: int := 0x7fff_ffff_ffff_ffff
  const PhpIntMin: int := -0x8000_0000_0000_0000

  /** Saturating conversion into PHP's integer range, as string-to-int
      conversion does. */
  function Clamp(i: int): (r: int)
    ensures PhpIntMin <= r <= PhpIntMax
    ensures PhpIntMin <= i <= PhpIntMax ==> r == i
    ensures i > PhpIntMax ==> r == PhpIntMax
    ensures i < PhpIntMin ==> r == PhpIntMin
  {
    if i > PhpIntMax then PhpIntMax else if i < PhpIntMin then PhpIntMin else i
  }

  function DigitValue(c: char): nat
    requires IsDigit(c)
  {
    c as int - '0' as int
  }

  function DigitChar(d: nat): (c: char)
    requires d < 10
    ensures IsDigit(c) && DigitValue(c) == d
  {
    ('0' as int + d) as char
  }

  /** The value of a string of decimal digits; the empty string is 0. */
  function DigitsValue(d: string): nat
    requires AllDigits(d)
    decreases |d|
  {
    if |d| == 0 then 0 else DigitsValue(d[..|d| - 1]) * 10 + DigitValue(d[|d| - 1])
  }

  function Pow10(k: nat): (r: nat)
    ensures r >= 1
  {
    if k == 0 then 1 else 10 * Pow10(k - 1)
  }

  /** Canonical decimal text of a natural number (no leading zero). */
  function NatToString(n: nat): (r: string)
    decreases n
    ensures |r| >= 1 && AllDigits(r)
    ensures |r| > 1 ==> r[0] != '0'
  {
    if n < 10 then [DigitChar(n)] else NatToString(n / 10) + [DigitChar(n % 10)]
  }

  /** PHP `strval` on an integer. */
  function IntToString(i: int): string {
    if i < 0 then "-" + NatToString(-i) else NatToString(i)
  }

  function Zeros(k: nat): (r: string)
    ensures |r| == k && AllDigits(r)
    ensures forall j :: 0 <= j < k ==> r[j] == '0'
  {
    seq(k, _ => '0')
  }

  /** PHP `str_pad($s, $len, $c, STR_PAD_LEFT)` with a one-character pad. */
  function PadLeft(s: string, len: nat, c: char): (r: string)
    ensures |r| == if |s| >= len then |s| else len
    ensures r[|r| - |s|..] == s
    ensures forall j :: 0 <= j < |r| - |s| ==> r[j] == c
  {
    if |s| >= len then s else seq(len - |s|, _ => c) + s
  }

  /** PHP 8 `substr($s, $start, $length)` for non-negative arguments: empty
      once the start lies past the end, otherwise at most `length` characters. */
  function Substr(s: string, start: nat, length: nat): (r: string)
    ensures start <= |s| ==> r == s[start..if start + length <= |s| then start + length else |s|]
    ensures start > |s| ==> r == ""
    ensures |r| <= length
  {
    if start > |s| then ""
    else if start + length <= |s| then s[start..start + length]
    else s[start..]
  }

  /** Number of consecutive digits in `s` starting at index `i`. */
  function DigitRun(s: string, i: nat): (n: nat)
    decreases |s| - i
    ensures i + n <= |s| || (i >= |s| && n == 0)
    ensures forall k :: i <= k < i + n ==> IsDigit(s[k])
    ensures i + n < |s| ==> !IsDigit(s[i + n])
  {
    if i < |s| && IsDigit(s[i]) then 1 + DigitRun(s, i + 1) else 0
  }

  function SkipSpaces(s: string): (r: string)
    decreases |s|
    ensures |r| <= |s| && r == s[|s| - |r|..]
    ensures |r| > 0 ==> !IsSpace(r[0])
  {
    if |s| > 0 && IsSpace(s[0]) then SkipSpaces(s[1..]) else s
  }

  /** PHP `intval` on a string: leading white space, an optional sign, then
      the longest run of digits; no digits gives 0; out-of-range values
      saturate. */
  function IntVal(s: string): int {
    var t := SkipSpaces(s);
    var neg := |t| > 0 && t[0] == '-';
    var u := if |t| > 0 && (t[0] == '-' || t[0] == '+') then t[1..] else t;
    var d := u[..DigitRun(u, 0)];
    var v: int := DigitsValue(d);
    Clamp(if neg then -v else v)
  }

  /** The text of an integer starts with a minus sign or a digit and ends
      with a digit. */
  lemma IntToStringEnds(i: int)
    ensures var r := IntToString(i);
            |r| > 0 && (r[0] == '-' || IsDigit(r[0])) && IsDigit(r[|r| - 1])
  {
    if i < 0 {
      var d := NatToString(-i);
      assert IntToString(i) == "-" + d;
    }
  }

  lemma {:induction false} DigitsValueAppend(a: string, b: string)
    requires AllDigits(a) && AllDigits(b)
    ensures AllDigits(a + b)
    ensures DigitsValue(a + b) == DigitsValue(a) * Pow10(|b|) + DigitsValue(b)
    decreases |b|
  {
    if |b| == 0 {
      assert a + b == a;
    } else {
      var b' := b[..|b| - 1];
      var ab := a + b;
      assert ab[..|ab| - 1] == a + b';
      assert ab[|ab| - 1] == b[|b| - 1];
      DigitsValueAppend(a, b');
      var x := DigitsValue(a);
      var p := Pow10(|b'|);
      var last := DigitValue(b[|b| - 1]);
      assert DigitsValue(ab) == (x * p + DigitsValue(b')) * 10 + last;
      assert DigitsValue(b) == DigitsValue(b') * 10 + last;
      assert Pow10(|b|) == 10 * p;
      ShiftDistrib(x, p, DigitsValue(b'));
    }
  }

  lemma ShiftDistrib(x: nat, p: nat, y: nat)
    ensures (x * p + y) * 10 == x * (10 * p) + y * 10
  {
  }

  lemma {:induction false} ZerosValue(k: nat)
    ensures DigitsValue(Zeros(k)) == 0
    decreases k
  {
    if k > 0 {
      assert Zeros(k)[..k - 1] == Zeros(k - 1);
      ZerosValue(k - 1);
    }
  }

  /** Leading zeros do not change a digit string's value. */
  lemma LeadingZeros(k: nat, d: string)
    requires AllDigits(d)
    ensures AllDigits(Zeros(k) + d)
    ensures DigitsValue(Zeros(k) + d) == DigitsValue(d)
  {
    DigitsValueAppend(Zeros(k), d);
    ZerosValue(k);
  }

  /** Reading back the decimal text of a number gives the number. */
  lemma {:induction false} NatToStringValue(n: nat)
    ensures DigitsValue(NatToString(n)) == n
    decreases n
  {
    if n >= 10 {
      var r := NatToString(n);
      assert r[..|r| - 1] == NatToString(n / 10);
      NatToStringValue(n / 10);
    }
  }

  /** The decimal text of `n` has at most `k` digits exactly when n < 10^k. */
  lemma {:induction false} NatToStringLength(n: nat, k: nat)
    requires k >= 1
    ensures |NatToString(n)| <= k <==> n < Pow10(k)
    decreases n
  {
    if n >= 10 {
      if k == 1 {
        assert |NatToString(n)| >= 2 by { assert NatToString(n) == NatToString(n / 10) + [DigitChar(n % 10)]; }
      } else {
        NatToStringLength(n / 10, k - 1);
      }
    }
  }

  /** The digits of a value read by `intval` are read back to that value,
      saturated. */
  lemma IntValDigits(d: string)
    requires AllDigits(d)
    ensures IntVal(d) == Clamp(DigitsValue(d))
  {
    SkipSpacesOnDigits(d);
    if |d| > 0 {
      assert d[0] != '-' && d[0] != '+';
    }
    DigitRunAll(d, 0);
    assert d[..DigitRun(d, 0)] == d;
  }

  /** Everything `SkipSpaces` drops is white space. */
  lemma {:induction false} SkipSpacesDropped(s: string)
    ensures forall k :: 0 <= k < |s| - |SkipSpaces(s)| ==> IsSpace(s[k])
    decreases |s|
  {
    if |s| > 0 && IsSpace(s[0]) {
      SkipSpacesDropped(s[1..]);
      forall k | 1 <= k < |s| - |SkipSpaces(s)| ensures IsSpace(s[k]) {
        assert s[1..][k - 1] == s[k];
      }
    }
  }

  lemma SkipSpacesOnDigits(d: string)
    requires AllDigits(d)
    ensures SkipSpaces(d) == d
  {
  }

  lemma {:induction false} DigitRunAll(d: string, i: nat)
    requires AllDigits(d) && i <= |d|
    ensures DigitRun(d, i) == |d| - i
    decreases |d| - i
  {
    if i < |d| {
      DigitRunAll(d, i + 1);
    }
  }

  /** `strval` followed by `intval` is the identity on PHP integers. */
  lemma IntValIntToString(i: int)
    requires PhpIntMin <= i <= PhpIntMax
    ensures IntVal(IntToString(i)) == i
  {
    if i < 0 {
      IntValNegativeInt(i);
    } else {
      var d := NatToString(i);
      assert IntToString(i) == d;
      NatToStringValue(i);
      IntValDigits(d);
    }
  }

  lemma IntValNegativeInt(i: int)
    requires PhpIntMin <= i < 0
    ensures IntVal(IntToString(i)) == i
  {
    var n: nat := -i;
    var d := NatToString(n);
    NatToStringValue(n);
    IntValNegative(d);
    assert IntVal("-" + d) == i;
    assert IntToString(i) == "-" + d;
  }

  /** A minus sign before a digit string negates its value. */
  lemma IntValNegative(d: string)
    requires |d| > 0 && AllDigits(d)
    ensures IntVal("-" + d) == Clamp(-(DigitsValue(d) as int))
  {
    var s := "-" + d;
    SkipSign(s);
    assert s[1..] == d;
    DigitRunAll(d, 0);
    assert d[..DigitRun(d, 0)] == d;
    IntValSigned(d, s);
  }

  /** A text starting with a sign has no leading white space to skip. */
  lemma SkipSign(s: string)
    requires |s| > 0 && s[0] == '-'
    ensures SkipSpaces(s) == s
  {
    assert !IsSpace(s[0]);
  }

  lemma IntValSigned(d: string, s: string)
    requires |d| > 0 && AllDigits(d) && s == "-" + d
    requires SkipSpaces(s) == s && s[1..] == d && d[..DigitRun(d, 0)] == d
    ensures IntVal(s) == Clamp(-(DigitsValue(d) as int))
  {
  }
}
