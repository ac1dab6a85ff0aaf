/** Money: Spliit keeps integer cents, the tools speak decimal text.

    The decimal type is that of shopspring/decimal (go.mod names v1.4.0): an
    integer coefficient and a power of ten. The library is not part of the
    repository; its `Shift`, `Round(0)`, `IntPart`, `StringFixed(2)` and
    `NewFromString` are modelled here step by step. */
module Money {
  import opened Wrappers
  import opened Numerals
  import Text
  import Lists

  datatype Decimal = Decimal(coef: int, exp: int)

  const INT64_SPAN: int := 0x1_0000_0000_0000_0000
  const INT64_LIMIT: int := 0x8000_0000_0000_0000
  const INT32_LIMIT: int := 0x8000_0000

  predicate InInt64(n: int) {
    -INT64_LIMIT <= n < INT64_LIMIT
  }

  /** An amount as Spliit stores it. */
  type Amount = n: int | InInt64(n)

  /** The low 64 bits of an integer, as a signed number. */
  function Wrap64(n: int): (r: int)
    ensures InInt64(r) && (InInt64(n) ==> r == n)
  {
    (n + INT64_LIMIT) % INT64_SPAN - INT64_LIMIT
  }

  /** Wrapping drops whole multiples of two to the 64. */
  lemma {:induction false} WrapMeaning(n: int)
    ensures (Wrap64(n) - n) % 0x1_0000_0000_0000_0000 == 0
  {
    var q := (n + INT64_LIMIT) / INT64_SPAN;
    assert Wrap64(n) - n == -q * INT64_SPAN;
  }

  /** A natural number without its last `k` decimal digits. */
  function DropDigits(n: nat, k: nat): (r: int)
    ensures r >= 0
  {
    if k == 0 then n else DropDigits(n / 10, k - 1)
  }

  /** Division by ten to the `k`, truncating toward zero. */
  function Quo(a: int, k: nat): int {
    if a >= 0 then DropDigits(a, k) else -DropDigits(-a, k)
  }

  /** A number with `k` zeros appended. */
  function AddZeros(n: int, k: nat): int {
    if k == 0 then n else 10 * AddZeros(n, k - 1)
  }

  function Shift(d: Decimal, places: int): Decimal {
    Decimal(d.coef, d.exp + places)
  }

  function Rescale(d: Decimal, exp: int): Decimal {
    if d.exp < exp
    then Decimal(Quo(d.coef, exp - d.exp), exp)
    else Decimal(AddZeros(d.coef, d.exp - exp), exp)
  }

  /** `Round(0)`: cut to tenths, push away from zero by five tenths, drop the
      tenths. */
  function Round(d: Decimal): Decimal {
    if d.exp == 0 then d else Decimal(DropTenths(Rescale(d, -1).coef), 0)
  }

  function DropTenths(tenths: int): int {
    var pushed := if tenths < 0 then tenths - 5 else tenths + 5;
    var q := pushed / 10;
    if q < 0 && pushed % 10 != 0 then q + 1 else q
  }

  function IntPart(d: Decimal): (r: int)
    ensures InInt64(r)
  {
    Wrap64(Rescale(d, 0).coef)
  }

  function ToAmount(value: Decimal): (r: int)
    ensures InInt64(r)
  {
    IntPart(Round(Shift(value, 2)))
  }

  // ---------------------------------------------------------------------
  // The reference: real arithmetic

  function Scale(e: int): real {
    if e >= 0 then Pow10(e) as real else 1.0 / Pow10(-e) as real
  }

  function Value(d: Decimal): real {
    d.coef as real * Scale(d.exp)
  }

  function Cents(d: Decimal): real {
    Value(d) * 100.0
  }

  function Abs(x: real): real {
    if x < 0.0 then -x else x
  }

  /** The nearest integer, ties away from zero. */
  function Nearest(x: real): int {
    if x >= 0.0 then (x + 0.5).Floor else -((0.5 - x).Floor)
  }

  /** The cents of a value fit Spliit's 64-bit amount. */
  predicate Representable(d: Decimal) {
    InInt64(Nearest(Cents(d)))
  }

  lemma {:induction false} NearestInteger(n: int)
    ensures Nearest(n as real) == n
  {
    assert (n as real + 0.5).Floor == n;
    assert (0.5 - n as real).Floor == -n;
  }

  lemma {:induction false} ScaleUp(e: int)
    ensures Scale(e + 1) == Scale(e) * 10.0
  {
    if e < -1 {
      var p := Pow10(-e - 1) as real;
      assert Pow10(-e) as real == 10.0 * p;
      assert 1.0 / (10.0 * p) * 10.0 == 1.0 / p;
    } else if e == -1 {
      assert Pow10(1) == 10 * Pow10(0);
    } else {
      assert Pow10(e + 1) as real == 10.0 * Pow10(e) as real;
    }
  }

  lemma {:induction false} ShiftedValue(d: Decimal)
    ensures Value(Shift(d, 2)) == Cents(d)
  {
    ScaleUp(d.exp);
    ScaleUp(d.exp + 1);
  }

  lemma {:induction false} Distribute(a: int, b: int, m: int)
    ensures (a + b) * m == a * m + b * m
  {
  }

  lemma {:induction false} TenTimes(q: int, p: int)
    ensures q * (10 * p) == 10 * (q * p)
  {
  }

  /** Dropping digits is dividing: what is dropped is less than one unit. */
  lemma {:induction false} DropDigitsBounds(n: nat, k: nat)
    ensures DropDigits(n, k) * Pow10(k) <= n < (DropDigits(n, k) + 1) * Pow10(k)
  {
    if k > 0 {
      DropDigitsBounds(n / 10, k - 1);
      var q, p := DropDigits(n, k), Pow10(k - 1);
      TenTimes(q, p);
      TenTimes(q + 1, p);
      assert 10 * (n / 10) <= n < 10 * (n / 10) + 10;
    }
  }

  /** Cutting to tenths first does not disturb the rounding. */
  lemma {:induction false} CutThenPush(c: int, m: int, q: int, t: int, s: int)
    requires m > 0 && 0 <= s <= 9
    requires q * m <= c < (q + 1) * m
    requires q + 5 == 10 * t + s
    ensures t * (10 * m) <= c + 5 * m < (t + 1) * (10 * m)
  {
    Distribute(q, 5, m);
    Distribute(q, 1, m);
    Distribute(10 * t, s, m);
    assert t * (10 * m) == (10 * t) * m;
    Distribute(t, 1, 10 * m);
    assert 0 <= s * m <= 9 * m;
  }

  lemma {:induction false} CastProduct(a: int, b: int)
    ensures (a * b) as real == a as real * b as real
  {
  }

  lemma {:induction false} SignOfProduct(a: real, k: real)
    requires k > 0.0
    ensures a * k >= 0.0 <==> a >= 0.0
    ensures a * k > 0.0 <==> a > 0.0
  {
  }

  lemma {:induction false} DivideBounds(x: real, k: real, c: real, t: real)
    requires k > 0.0 && x == c / k && t * k <= c < (t + 1.0) * k
    ensures t <= x < t + 1.0
  {
    assert x * k == c;
    assert (x - t) * k == c - t * k;
    SignOfProduct(x - t, k);
    assert (t + 1.0 - x) * k == (t + 1.0) * k - c;
    SignOfProduct(t + 1.0 - x, k);
  }

  lemma {:induction false} FloorOfQuotient(c: int, k: int, t: int)
    requires k > 0
    requires t * k <= c < (t + 1) * k
    ensures (c as real / k as real).Floor == t
  {
    CastProduct(t, k);
    CastProduct(t + 1, k);
    DivideBounds(c as real / k as real, k as real, c as real, t as real);
  }

  lemma {:induction false} HalfMore(c: int, m: int)
    requires m >= 1
    ensures (c + 5 * m) as real / (10 * m) as real == c as real * (1.0 / (10 * m) as real) + 0.5
  {
    var k := (10 * m) as real;
    assert (c + 5 * m) as real == c as real + 0.5 * k;
    assert (c as real + 0.5 * k) / k == c as real / k + 0.5;
  }

  lemma {:induction false} NearestFromBounds(n: nat, m: int, t: int, x: real)
    requires m >= 1
    requires t * (10 * m) <= n + 5 * m < (t + 1) * (10 * m)
    requires x == n as real * (1.0 / (10 * m) as real)
    ensures Nearest(x) == t
  {
    FloorOfQuotient(n + 5 * m, 10 * m, t);
    HalfMore(n, m);
    SignOfProduct(n as real, 1.0 / (10 * m) as real);
  }

  lemma {:induction false} DropTenthsOdd(tenths: int)
    ensures DropTenths(-tenths) == -DropTenths(tenths)
  {
  }

  lemma {:induction false} NearestOfFraction(n: nat, e: int, x: real)
    requires e <= -1 && x == n as real * Scale(e)
    ensures Nearest(x) == DropTenths(DropDigits(n, -1 - e))
  {
    var m := Pow10(-1 - e);
    var q := DropDigits(n, -1 - e);
    var t := DropTenths(q);
    DropDigitsBounds(n, -1 - e);
    CutThenPush(n, m, q, t, (q + 5) % 10);
    NearestFromBounds(n, m, t, x);
  }

  lemma {:induction false} RoundTo(c: int, e: int, x: real)
    requires e <= -1
    requires if c >= 0 then x == c as real * Scale(e) else -x == (-c) as real * Scale(e)
    ensures Round(Decimal(c, e)) == Decimal(Nearest(x), 0)
  {
    if c >= 0 {
      NearestOfFraction(c, e, x);
    } else {
      NearestOfFraction(-c, e, -x);
      NearestOdd(x);
      DropTenthsOdd(DropDigits(-c, -1 - e));
    }
  }

  lemma {:induction false} RoundFraction(d: Decimal)
    requires d.exp <= -1
    ensures Round(d) == Decimal(Nearest(Value(d)), 0)
  {
    ValueNegated(d.coef, d.exp);
    RoundTo(d.coef, d.exp, Value(d));
  }

  lemma {:induction false} ScalePositive(e: int)
    ensures Scale(e) > 0.0
  {
    if e < 0 {
      assert Pow10(-e) as real > 0.0;
    }
  }

  lemma {:induction false} ValueNegated(c: int, e: int)
    ensures Value(Decimal(-c, e)) == -Value(Decimal(c, e))
  {
    assert (-c) as real * Scale(e) == -(c as real * Scale(e));
  }

  lemma {:induction false} AddZerosValue(n: int, k: nat)
    ensures AddZeros(n, k) as real == n as real * Scale(k)
  {
    if k > 0 {
      AddZerosValue(n, k - 1);
      ScaleUp(k - 1);
      TimesTen(n as real, Scale(k - 1));
    }
  }

  lemma {:induction false} TimesTen(a: real, b: real)
    ensures a * (b * 10.0) == 10.0 * (a * b)
  {
  }

  lemma {:induction false} WholeTenths(n: int)
    ensures DropTenths(10 * n) == n
  {
  }

  lemma {:induction false} RoundWhole(d: Decimal)
    requires d.exp >= 0
    ensures Round(d) == Decimal(Nearest(Value(d)), 0)
  {
    var n := AddZeros(d.coef, d.exp);
    AddZerosValue(d.coef, d.exp);
    NearestInteger(n);
    if d.exp > 0 {
      WholeTenths(n);
    }
  }

  /** The library's rounding is rounding to the nearest integer. */
  lemma {:induction false} RoundIsNearest(d: Decimal)
    ensures Round(d) == Decimal(Nearest(Value(d)), 0)
  {
    if d.exp >= 0 {
      RoundWhole(d);
    } else {
      RoundFraction(d);
    }
  }

  lemma {:induction false} NearestOdd(x: real)
    ensures Nearest(-x) == -Nearest(x)
  {
    assert x == 0.0 ==> Nearest(x) == 0;
  }

  lemma {:induction false} NearestMonotone(x: real, y: real)
    requires x <= y
    ensures Nearest(x) <= Nearest(y)
  {
  }

  /** `ToAmount` is the nearest cent, ties away from zero, kept to 64 bits. */
  lemma {:induction false} ToAmountIsNearestCent(d: Decimal)
    ensures ToAmount(d) == Wrap64(Nearest(Cents(d)))
    ensures Representable(d) ==> ToAmount(d) == Nearest(Cents(d))
  {
    ShiftedValue(d);
    RoundIsNearest(Shift(d, 2));
  }

  /** Half a cent at most is lost, and exactly half a cent goes away from zero. */
  lemma {:induction false} ToAmountWithinHalfACent(d: Decimal)
    requires Representable(d)
    ensures Abs(ToAmount(d) as real - Cents(d)) <= 0.5
    ensures Abs(ToAmount(d) as real - Cents(d)) == 0.5 ==> Abs(ToAmount(d) as real) > Abs(Cents(d))
  {
    ToAmountIsNearestCent(d);
  }

  lemma {:induction false} AmountAt(d: Decimal, x: real)
    requires x == Cents(d) && InInt64(Nearest(x))
    ensures ToAmount(d) == Nearest(x)
  {
    ToAmountIsNearestCent(d);
  }

  lemma {:induction false} CentsNegated(c: int, e: int)
    ensures Cents(Decimal(-c, e)) == -Cents(Decimal(c, e))
  {
    ValueNegated(c, e);
  }

  lemma {:induction false} ToAmountOdd(d: Decimal)
    requires Representable(d) && Representable(Decimal(-d.coef, d.exp))
    ensures ToAmount(Decimal(-d.coef, d.exp)) == -ToAmount(d)
  {
    var x := Cents(d);
    CentsNegated(d.coef, d.exp);
    NearestOdd(x);
    AmountAt(d, x);
    AmountAt(Decimal(-d.coef, d.exp), -x);
  }

  lemma {:induction false} ToAmountMonotone(d: Decimal, e: Decimal)
    requires Representable(d) && Representable(e)
    requires Value(d) <= Value(e)
    ensures ToAmount(d) <= ToAmount(e)
  {
    ToAmountIsNearestCent(d);
    ToAmountIsNearestCent(e);
    NearestMonotone(Cents(d), Cents(e));
  }

  /** Two scalings of one value, 10.5 and 10.500 say, give the same cents. No
      range is needed: overflow treats both alike. */
  lemma {:induction false} ToAmountIgnoresScaling(d: Decimal, e: Decimal)
    requires Value(d) == Value(e)
    ensures ToAmount(d) == ToAmount(e)
  {
    ToAmountIsNearestCent(d);
    ToAmountIsNearestCent(e);
  }

  lemma {:induction false} ZeroProduct(c: int, s: real)
    requires s > 0.0
    ensures c as real * s == 0.0 <==> c == 0
  {
    if c > 0 {
      assert c as real * s > 0.0;
    } else if c < 0 {
      assert (-c) as real * s > 0.0;
    }
  }

  lemma {:induction false} ZeroValue(d: Decimal)
    ensures Value(d) == 0.0 <==> d.coef == 0
  {
    ScalePositive(d.exp);
    ZeroProduct(d.coef, Scale(d.exp));
  }

  /** The zero check looks at the decimal, not at the cents: what passes it and
      still becomes zero cents is exactly what lies under half a cent. */
  lemma {:induction false} ZeroCentsIff(d: Decimal)
    requires Representable(d)
    ensures d.coef != 0 && ToAmount(d) == 0 <==> 0.0 < Abs(Value(d)) < 0.005
  {
    var v := Value(d);
    ZeroValue(d);
    AmountAt(d, v * 100.0);
    NearestZero(v);
  }

  lemma {:induction false} NearestZero(v: real)
    ensures Nearest(v * 100.0) == 0 <==> Abs(v) < 0.005
  {
  }

  // ---------------------------------------------------------------------
  // Text

  /** `NewFromString`: an optional exponent, an optional point, then an integer. */
  function ParseDecimal(text: string): Option<Decimal> {
    var mark := Find(Exponent, text, 0);
    if mark == |text| then ParseMantissa(text, 0)
    else match ParseInt(text[mark + 1..])
      case None => None
      case Some(exp) =>
        if -INT32_LIMIT <= exp < INT32_LIMIT then ParseMantissa(text[..mark], exp) else None
  }

  function ParseMantissa(text: string, exp: int): Option<Decimal> {
    var point := Find(Point, text, 0);
    if point == |text| then ScaledInt(text, exp)
    else if Find(Point, text, point + 1) < |text| then None
    else ScaledInt(text[..point] + text[point + 1..], exp - (|text| - point - 1))
  }

  function ScaledInt(digits: string, exp: int): Option<Decimal> {
    match ParseInt(digits)
    case None => None
    case Some(coef) =>
      if -INT32_LIMIT <= exp < INT32_LIMIT then Some(Decimal(coef, exp)) else None
  }

  /** Digits with a point before the last two, and a zero before the point when
      nothing else stands there. */
  function WithPoint(digits: string): string {
    if |digits| > 2
    then digits[..|digits| - 2] + "." + digits[|digits| - 2..]
    else "0" + "." + (Zeros(2 - |digits|) + digits)
  }

  function SignOf(n: int): (sign: string)
    ensures sign == "" || sign == "-"
  {
    if n < 0 then "-" else ""
  }

  function AbsInt(n: int): nat {
    if n < 0 then -n else n
  }

  /** `AsDecimal().StringFixed(2)` of a cent count. */
  function PrintCents(cents: int): string {
    SignOf(cents) + WithPoint(DigitsOf(AbsInt(cents)))
  }

  lemma {:induction false} ParseSigned(sign: string, digits: string, text: string)
    requires sign == "" || sign == "-"
    requires digits != "" && AllDigits(digits)
    requires text == sign + digits
    ensures ParseInt(text) == Some(Signed(sign, ValueOf(digits)))
  {
    if sign == "-" {
      assert text[0] == '-' && text[1..] == digits;
    } else {
      assert text == digits;
      assert IsDigit(digits[0]);
    }
  }

  /** Text with a point and no exponent: the digits around the point are the
      coefficient, the places after it the scale. */
  lemma {:induction false} ParseAtPoint(before: string, places: string, text: string)
    requires text == before + "." + places
    requires forall i :: 0 <= i < |before| ==> !Marks(Point, before[i]) && !Marks(Exponent, before[i])
    requires AllDigits(places)
    ensures ParseDecimal(text) == ScaledInt(before + places, -|places|)
  {
    assert text[|before|] == '.';
    assert Find(Exponent, text, 0) == |text|;
    assert Find(Point, text, 0) == |before|;
    assert Find(Point, text, |before| + 1) == |text|;
    assert text[..|before|] + text[|before| + 1..] == before + places;
  }

  /** Plain signed text with a point reads as its digits, scaled by the number of
      places after the point. */
  lemma {:induction false} ParsePlain(sign: string, whole: string, places: string, text: string)
    requires sign == "" || sign == "-"
    requires AllDigits(whole) && AllDigits(places) && whole != "" && |places| < INT32_LIMIT
    requires text == sign + whole + "." + places
    ensures ParseDecimal(text) == Some(Decimal(Signed(sign, ValueOf(whole + places)), -|places|))
  {
    var before, digits := sign + whole, whole + places;
    assert before + places == sign + digits;
    ParseSigned(sign, digits, before + places);
    ParseAtPoint(before, places, text);
  }

  /** The two places after the point and the digits before it spell the same
      number as the digits did. */
  lemma {:induction false} PointParts(digits: string) returns (whole: string, places: string)
    requires AllDigits(digits) && digits != ""
    ensures AllDigits(whole) && AllDigits(places) && whole != "" && |places| == 2
    ensures WithPoint(digits) == whole + "." + places
    ensures ValueOf(whole + places) == ValueOf(digits)
  {
    if |digits| > 2 {
      whole, places := digits[..|digits| - 2], digits[|digits| - 2..];
      assert whole + places == digits;
    } else {
      whole, places := "0", Zeros(2 - |digits|) + digits;
      LeadingZeros(3 - |digits|, digits);
      assert AllDigits(whole) && AllDigits(places);
      assert whole + places == Zeros(3 - |digits|) + digits;
    }
  }

  /** What was printed is read back, for every cent count. */
  lemma {:induction false} PrintedCentsParse(cents: int)
    ensures ParseDecimal(PrintCents(cents)) == Some(Decimal(cents, -2))
  {
    var digits := DigitsOf(AbsInt(cents));
    var whole, places := PointParts(digits);
    ValueOfDigitsOf(AbsInt(cents));
    SignBefore(SignOf(cents), whole, places, WithPoint(digits));
    ParsePlain(SignOf(cents), whole, places, PrintCents(cents));
  }

  lemma {:induction false} PrintedCentsBare(cents: int)
    ensures PrintCents(cents) != "" && Text.Bare(Text.White, PrintCents(cents))
  {
    var digits := DigitsOf(AbsInt(cents));
    var whole, places := PointParts(digits);
    SignBefore(SignOf(cents), whole, places, WithPoint(digits));
    BareEnds(SignOf(cents), whole, places, PrintCents(cents));
  }

  lemma {:induction false} BareEnds(sign: string, whole: string, places: string, text: string)
    requires sign == "" || sign == "-"
    requires AllDigits(whole) && AllDigits(places) && whole != "" && places != ""
    requires text == sign + whole + "." + places
    ensures text != "" && Text.Bare(Text.White, text)
  {
    assert text[|text| - 1] == places[|places| - 1] && IsDigit(text[|text| - 1]);
    assert text[0] == if sign == "" then whole[0] else '-';
    Text.VisibleIsNotSpace(text[0]);
    Text.VisibleIsNotSpace(text[|text| - 1]);
  }

  lemma {:induction false} SignBefore(sign: string, whole: string, places: string, body: string)
    requires body == whole + "." + places
    ensures sign + body == sign + whole + "." + places
  {
    Lists.Join3(sign, whole + ".", places);
    Lists.Join3(sign, whole, ".");
  }

  lemma {:induction false} CentsOfWhole(cents: int)
    ensures Cents(Decimal(cents, -2)) == cents as real
  {
    assert Pow10(2) == 10 * Pow10(1) && Pow10(1) == 10 * Pow10(0);
    assert Scale(-2) == 0.01;
  }

  /** Print, read, convert: every 64-bit cent count comes back unchanged. */
  lemma {:induction false} CentsRoundTrip(cents: Amount)
    ensures ParseDecimal(PrintCents(cents)).Some?
    ensures ToAmount(ParseDecimal(PrintCents(cents)).value) == cents
  {
    PrintedCentsParse(cents);
    CentsOfWhole(cents);
    NearestInteger(cents);
    AmountAt(Decimal(cents, -2), cents as real);
  }
}
