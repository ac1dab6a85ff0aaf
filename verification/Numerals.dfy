/** Decimal digits: printing natural numbers and reading them back. */
module Numerals {
  import opened Wrappers

  predicate IsDigit(c: char) {
    '0' <= c <= '9'
  }

  predicate AllDigits(s: string) {
    forall i :: 0 <= i < |s| ==> IsDigit(s[i])
  }

  function Digit(d: nat): (c: char)
    requires d < 10
    ensures IsDigit(c) && DigitValue(c) == d
  {
    '0' + d as char
  }

  function DigitValue(c: char): (d: nat)
    requires IsDigit(c)
    ensures d < 10
  {
    c as int - '0' as int
  }

  function DigitsOf(n: nat): (s: string)
    ensures s != "" && AllDigits(s)
  {
    if n < 10 then [Digit(n)] else DigitsOf(n / 10) + [Digit(n % 10)]
  }

  /** The number that the first `k` digits of `s` spell. */
  function Spelled(s: string, k: nat): nat
    requires k <= |s| && AllDigits(s)
  {
    if k == 0 then 0 else Spelled(s, k - 1) * 10 + DigitValue(s[k - 1])
  }

  function ValueOf(s: string): nat
    requires AllDigits(s)
  {
    Spelled(s, |s|)
  }

  function Zeros(n: nat): (s: string)
    ensures |s| == n && AllDigits(s)
    ensures forall i :: 0 <= i < n ==> s[i] == '0'
  {
    seq(n, _ => '0')
  }

  /** `n` in decimal, padded with zeros on the left to at least `width`. */
  function Padded(n: nat, width: nat): (s: string)
    ensures AllDigits(s) && |s| >= width && s != ""
  {
    var s := DigitsOf(n);
    if |s| < width then Zeros(width - |s|) + s else s
  }

  function Pow10(n: nat): (p: nat)
    ensures p >= 1
  {
    if n == 0 then 1 else 10 * Pow10(n - 1)
  }

  lemma {:induction false} SamePrefix(s: string, t: string, k: nat)
    requires k <= |s| && k <= |t| && AllDigits(s) && AllDigits(t)
    requires forall i :: 0 <= i < k ==> s[i] == t[i]
    ensures Spelled(s, k) == Spelled(t, k)
  {
    if k > 0 {
      SamePrefix(s, t, k - 1);
    }
  }

  lemma {:induction false} ValueOfDigitsOf(n: nat)
    ensures ValueOf(DigitsOf(n)) == n
  {
    var s := DigitsOf(n);
    if n < 10 {
      assert Spelled(s, 0) == 0;
    } else {
      ValueOfDigitsOf(n / 10);
      SamePrefix(s, DigitsOf(n / 10), |s| - 1);
    }
  }

  lemma {:induction false} ZerosBefore(z: nat, s: string, t: string, k: nat)
    requires AllDigits(s) && AllDigits(t) && t == Zeros(z) + s && k <= |t|
    ensures Spelled(t, k) == if k <= z then 0 else Spelled(s, k - z)
  {
    if k > 0 {
      ZerosBefore(z, s, t, k - 1);
    }
  }

  lemma {:induction false} LeadingZeros(z: nat, s: string)
    requires AllDigits(s)
    ensures AllDigits(Zeros(z) + s) && ValueOf(Zeros(z) + s) == ValueOf(s)
  {
    ZerosBefore(z, s, Zeros(z) + s, z + |s|);
  }

  lemma {:induction false} ValueOfPadded(n: nat, width: nat)
    ensures ValueOf(Padded(n, width)) == n
  {
    ValueOfDigitsOf(n);
    if |DigitsOf(n)| < width {
      LeadingZeros(width - |DigitsOf(n)|, DigitsOf(n));
    }
  }

  lemma {:induction false} DigitsOfLength(n: nat, k: nat)
    requires 1 <= k
    ensures |DigitsOf(n)| <= k <==> n < Pow10(k)
  {
    if n >= 10 && k > 1 {
      DigitsOfLength(n / 10, k - 1);
    } else if n < 10 {
      assert Pow10(k) == 10 * Pow10(k - 1);
    } else {
      assert Pow10(1) == 10 * Pow10(0);
    }
  }

  lemma {:induction false} PaddedLength(n: nat, width: nat)
    requires 1 <= width
    ensures |Padded(n, width)| == width <==> n < Pow10(width)
  {
    DigitsOfLength(n, width);
  }

  /** Digits of one length spell one number only. */
  lemma {:induction false} SameSpelling(s: string, t: string, k: nat)
    requires AllDigits(s) && AllDigits(t) && k <= |s| && k <= |t| && Spelled(s, k) == Spelled(t, k)
    ensures s[..k] == t[..k]
  {
    if k > 0 {
      LastDigit(Spelled(s, k - 1), DigitValue(s[k - 1]), Spelled(t, k - 1), DigitValue(t[k - 1]));
      SameSpelling(s, t, k - 1);
      assert s[k - 1] == t[k - 1];
      assert s[..k] == s[..k - 1] + [s[k - 1]] && t[..k] == t[..k - 1] + [t[k - 1]];
    }
  }

  lemma {:induction false} LastDigit(a: nat, c: nat, b: nat, d: nat)
    requires c < 10 && d < 10 && a * 10 + c == b * 10 + d
    ensures a == b && c == d
  {
  }

  lemma {:induction false} PrefixBound(s: string, k: nat)
    requires AllDigits(s) && k <= |s|
    ensures Spelled(s, k) < Pow10(k)
  {
    if k > 0 {
      PrefixBound(s, k - 1);
    }
  }

  /** Digits are the padded print of what they spell. */
  lemma {:induction false} PaddedOfValue(s: string)
    requires AllDigits(s) && s != ""
    ensures Padded(ValueOf(s), |s|) == s
  {
    var t := Padded(ValueOf(s), |s|);
    PrefixBound(s, |s|);
    PaddedLength(ValueOf(s), |s|);
    ValueOfPadded(ValueOf(s), |s|);
    SameSpelling(s, t, |s|);
    assert s[..|s|] == s && t[..|s|] == t;
  }

  /** Go's `strconv.ParseInt(s, 10, _)` before its range check: an optional
      sign, then one or more digits. */
  function ParseInt(s: string): Option<int> {
    var signed := s != "" && (s[0] == '-' || s[0] == '+');
    var digits := if signed then s[1..] else s;
    if digits == "" || !AllDigits(digits) then None
    else if signed && s[0] == '-' then Some(-(ValueOf(digits) as int))
    else Some(ValueOf(digits))
  }

  predicate IsSign(sign: string) {
    sign == "" || sign == "-" || sign == "+"
  }

  predicate IsNumeral(digits: string) {
    digits != "" && AllDigits(digits)
  }

  /** The value of digits under a sign. */
  function Signed(sign: string, n: int): int {
    if sign == "-" then -n else n
  }

  /** The marks a number is cut at. */
  datatype Mark = Point | Exponent

  predicate Marks(mark: Mark, c: char) {
    match mark
    case Point => c == '.'
    case Exponent => c == 'E' || c == 'e'
  }

  /** The first position from `i` on where a mark stands, or the length. */
  function Find(mark: Mark, s: string, i: nat): (r: nat)
    requires i <= |s|
    ensures i <= r <= |s| && (r < |s| ==> Marks(mark, s[r]))
    ensures forall j :: i <= j < r ==> !Marks(mark, s[j])
    decreases |s| - i
  {
    if i < |s| && !Marks(mark, s[i]) then Find(mark, s, i + 1) else i
  }
}
