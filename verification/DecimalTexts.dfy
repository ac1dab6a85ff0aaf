/** Which texts `NewFromString` accepts as a decimal number, and which number each is. */
module DecimalTexts {
  import opened Wrappers
  import opened Lists
  import opened Numerals
  import opened Money

  /** A power of ten, as written after its mark. */
  datatype Power = Power(mark: char, sign: string, digits: string)

  /** A number as written: a sign and digits, a point before the last `places` of these
      characters, if there is one, and a power, if there is one. */
  datatype Number = Number(sign: string, digits: string, places: Option<nat>, power: Option<Power>)

  predicate InInt32(n: int) {
    -INT32_LIMIT <= n < INT32_LIMIT
  }

  function PlacesOf(n: Number): nat {
    if n.places.Some? then n.places.value else 0
  }

  function PowerOf(n: Number): int
    requires n.power.Some? ==> IsNumeral(n.power.value.digits)
  {
    if n.power.Some? then Signed(n.power.value.sign, ValueOf(n.power.value.digits)) else 0
  }

  predicate WellWritten(n: Number) {
    && IsSign(n.sign) && IsNumeral(n.digits)
    && PlacesOf(n) <= |n.sign + n.digits|
    && (n.power.Some? ==>
          && (n.power.value.mark == 'e' || n.power.value.mark == 'E')
          && IsSign(n.power.value.sign) && IsNumeral(n.power.value.digits))
    && InInt32(PowerOf(n)) && InInt32(PowerOf(n) - PlacesOf(n))
  }

  function Mantissa(n: Number): string
    requires PlacesOf(n) <= |n.sign + n.digits|
  {
    var body := n.sign + n.digits;
    if n.places.None? then body
    else body[..|body| - n.places.value] + ("." + body[|body| - n.places.value..])
  }

  function TextOf(n: Number): string
    requires PlacesOf(n) <= |n.sign + n.digits|
  {
    if n.power.None? then Mantissa(n)
    else Mantissa(n) + ([n.power.value.mark] + (n.power.value.sign + n.power.value.digits))
  }

  /** The number meant: the digits under their sign, times ten to the power less the
      places. */
  function Meant(n: Number): Decimal
    requires WellWritten(n)
  {
    Decimal(Signed(n.sign, ValueOf(n.digits)), PowerOf(n) - PlacesOf(n))
  }

  // ---------------------------------------------------------------------

  lemma {:induction false} ParseIntOf(sign: string, digits: string)
    requires IsSign(sign) && IsNumeral(digits)
    ensures ParseInt(sign + digits) == Some(Signed(sign, ValueOf(digits)))
  {
    var s := sign + digits;
    if sign == "" {
      assert s == digits && IsDigit(digits[0]);
    } else {
      assert s[0] == sign[0] && s[1..] == digits;
    }
  }

  lemma {:induction false} ParseIntParts(s: string) returns (sign: string, digits: string)
    requires ParseInt(s).Some?
    ensures IsSign(sign) && IsNumeral(digits) && s == sign + digits
  {
    if s[0] == '-' || s[0] == '+' {
      sign, digits := [s[0]], s[1..];
    } else {
      sign, digits := "", s;
    }
  }

  predicate Unmarked(mark: Mark, s: string) {
    forall i :: 0 <= i < |s| ==> !Marks(mark, s[i])
  }

  lemma {:induction false} FindNone(mark: Mark, s: string, i: nat)
    requires i <= |s| && forall j :: i <= j < |s| ==> !Marks(mark, s[j])
    ensures Find(mark, s, i) == |s|
  {
  }

  lemma {:induction false} FindAt(mark: Mark, text: string, k: nat)
    requires k < |text| && Unmarked(mark, text[..k]) && Marks(mark, text[k])
    ensures Find(mark, text, 0) == k
  {
    assert forall i :: 0 <= i < k ==> text[i] == text[..k][i];
  }

  lemma {:induction false} UnmarkedJoin(mark: Mark, a: string, b: string)
    ensures Unmarked(mark, a + b) <==> Unmarked(mark, a) && Unmarked(mark, b)
  {
    assert forall i :: 0 <= i < |a| ==> (a + b)[i] == a[i];
    assert forall i :: 0 <= i < |b| ==> (a + b)[|a| + i] == b[i];
  }

  lemma {:induction false} BodyIsUnmarked(mark: Mark, sign: string, digits: string)
    requires IsSign(sign) && IsNumeral(digits)
    ensures Unmarked(mark, sign + digits)
  {
    UnmarkedJoin(mark, sign, digits);
    assert forall i :: 0 <= i < |digits| ==> IsDigit(digits[i]);
  }

  lemma {:induction false} MantissaCut(text: string, k: nat, exp: int)
    requires k < |text| && text[k] == '.' && Unmarked(Point, text[..k]) && Unmarked(Point, text[k + 1..])
    ensures ParseMantissa(text, exp) == ScaledInt(text[..k] + text[k + 1..], exp - (|text| - k - 1))
  {
    FindAt(Point, text, k);
    assert forall j :: k + 1 <= j < |text| ==> text[j] == text[k + 1..][j - k - 1];
    FindNone(Point, text, k + 1);
  }

  lemma {:induction false} MantissaAtPoint(text: string, before: string, after: string, exp: int)
    requires text == before + ("." + after) && Unmarked(Point, before) && Unmarked(Point, after)
    ensures ParseMantissa(text, exp) == ScaledInt(before + after, exp - |after|)
  {
    Around(text, before, '.', after);
    MantissaCut(text, |before|, exp);
  }

  lemma {:induction false} PointedMantissa(
    text: string, before: string, after: string, sign: string, digits: string, exp: int)
    requires text == before + ("." + after)
    requires IsSign(sign) && IsNumeral(digits) && before + after == sign + digits && InInt32(exp - |after|)
    ensures ParseMantissa(text, exp) == Some(Decimal(Signed(sign, ValueOf(digits)), exp - |after|))
    ensures Unmarked(Exponent, text)
  {
    BodyIsUnmarked(Point, sign, digits);
    BodyIsUnmarked(Exponent, sign, digits);
    UnmarkedJoin(Point, before, after);
    UnmarkedJoin(Exponent, before, after);
    UnmarkedJoin(Exponent, ".", after);
    UnmarkedJoin(Exponent, before, "." + after);
    MantissaAtPoint(text, before, after, exp);
    ParseIntOf(sign, digits);
  }

  lemma {:induction false} PlainMantissa(sign: string, digits: string, exp: int)
    requires IsSign(sign) && IsNumeral(digits) && InInt32(exp)
    ensures ParseMantissa(sign + digits, exp) == Some(Decimal(Signed(sign, ValueOf(digits)), exp))
    ensures Unmarked(Exponent, sign + digits)
  {
    BodyIsUnmarked(Point, sign, digits);
    BodyIsUnmarked(Exponent, sign, digits);
    FindNone(Point, sign + digits, 0);
    ParseIntOf(sign, digits);
  }

  lemma {:induction false} MantissaSplit(n: Number) returns (before: string, after: string)
    requires n.places.Some? && n.places.value <= |n.sign + n.digits|
    ensures Mantissa(n) == before + ("." + after)
    ensures before + after == n.sign + n.digits && |after| == n.places.value
  {
    var body := n.sign + n.digits;
    var k := |body| - n.places.value;
    before, after := body[..k], body[k..];
    SplitAt(body, k);
  }

  lemma {:induction false} MantissaOfPointed(n: Number)
    requires WellWritten(n) && n.places.Some?
    ensures ParseMantissa(Mantissa(n), PowerOf(n)) == Some(Meant(n)) && Unmarked(Exponent, Mantissa(n))
  {
    var before, after := MantissaSplit(n);
    var text, exp := Mantissa(n), PowerOf(n);
    var d := Decimal(Signed(n.sign, ValueOf(n.digits)), exp - |after|);
    assert Meant(n) == d;
    PointedMantissa(text, before, after, n.sign, n.digits, exp);
  }

  lemma {:induction false} MantissaOf(n: Number)
    requires WellWritten(n)
    ensures ParseMantissa(Mantissa(n), PowerOf(n)) == Some(Meant(n)) && Unmarked(Exponent, Mantissa(n))
  {
    if n.places.Some? {
      MantissaOfPointed(n);
    } else {
      PlainMantissa(n.sign, n.digits, PowerOf(n));
    }
  }

  lemma {:induction false} DecimalCut(text: string, k: nat, exp: int)
    requires k < |text| && Unmarked(Exponent, text[..k]) && Marks(Exponent, text[k])
    requires ParseInt(text[k + 1..]) == Some(exp) && InInt32(exp)
    ensures ParseDecimal(text) == ParseMantissa(text[..k], exp)
  {
    FindAt(Exponent, text, k);
  }

  lemma {:induction false} DecimalAtMark(text: string, m: string, mark: char, p: string, exp: int)
    requires text == m + ([mark] + p) && Unmarked(Exponent, m) && Marks(Exponent, mark)
    requires ParseInt(p) == Some(exp) && InInt32(exp)
    ensures ParseDecimal(text) == ParseMantissa(m, exp)
  {
    Around(text, m, mark, p);
    DecimalCut(text, |m|, exp);
  }

  lemma {:induction false} DecimalWithoutMark(m: string)
    requires Unmarked(Exponent, m)
    ensures ParseDecimal(m) == ParseMantissa(m, 0)
  {
    FindNone(Exponent, m, 0);
  }

  /** Every well-written number is read as the number meant. */
  lemma {:induction false} WrittenIsRead(n: Number)
    requires WellWritten(n)
    ensures ParseDecimal(TextOf(n)) == Some(Meant(n))
  {
    MantissaOf(n);
    if n.power.Some? {
      var p := n.power.value;
      ParseIntOf(p.sign, p.digits);
      DecimalAtMark(TextOf(n), Mantissa(n), p.mark, p.sign + p.digits, PowerOf(n));
    } else {
      DecimalWithoutMark(Mantissa(n));
    }
  }

  lemma {:induction false} PointCut(text: string, point: nat) returns (body: string)
    requires point < |text| && text[point] == '.'
    ensures body == text[..point] + text[point + 1..] && |body| == |text| - 1
    ensures text == body[..point] + ("." + body[point..])
  {
    body := text[..point] + text[point + 1..];
    CutAround(text, point);
    assert body[..point] == text[..point] && body[point..] == text[point + 1..];
    assert [text[point]] == ".";
  }

  lemma {:induction false} MantissaParts(text: string, exp: int)
    returns (sign: string, digits: string, places: Option<nat>)
    requires ParseMantissa(text, exp).Some?
    ensures var n := Number(sign, digits, places, None);
      && IsSign(sign) && IsNumeral(digits)
      && PlacesOf(n) <= |sign + digits| && Mantissa(n) == text && InInt32(exp - PlacesOf(n))
  {
    var point := Find(Point, text, 0);
    if point == |text| {
      sign, digits := ParseIntParts(text);
      places := None;
    } else {
      var body := PointCut(text, point);
      sign, digits := ParseIntParts(body);
      places := Some(|text| - point - 1);
    }
  }

  lemma {:induction false} WithPower(m: string, mark: char, p: string, power: Power, plain: Number) returns (n: Number)
    requires IsSign(plain.sign) && IsNumeral(plain.digits) && PlacesOf(plain) <= |plain.sign + plain.digits|
    requires Mantissa(plain) == m && Marks(Exponent, mark) && power.mark == mark && p == power.sign + power.digits
    requires IsSign(power.sign) && IsNumeral(power.digits)
    requires var e := Signed(power.sign, ValueOf(power.digits)); InInt32(e) && InInt32(e - PlacesOf(plain))
    ensures WellWritten(n) && TextOf(n) == m + ([mark] + p)
  {
    n := plain.(power := Some(power));
    SameMantissa(n, plain);
  }

  lemma {:induction false} ReadAtMark(text: string, mark: nat) returns (n: Number)
    requires mark == Find(Exponent, text, 0) < |text| && ParseDecimal(text).Some?
    ensures WellWritten(n) && TextOf(n) == text
  {
    var m, p := text[..mark], text[mark + 1..];
    var psign, pdigits := ParseIntParts(p);
    ParseIntOf(psign, pdigits);
    var sign, digits, places := MantissaParts(m, Signed(psign, ValueOf(pdigits)));
    n := WithPower(m, text[mark], p, Power(text[mark], psign, pdigits), Number(sign, digits, places, None));
    CutAround(text, mark);
  }

  lemma {:induction false} SameMantissa(n: Number, m: Number)
    requires n.sign == m.sign && n.digits == m.digits && n.places == m.places && PlacesOf(n) <= |n.sign + n.digits|
    ensures Mantissa(n) == Mantissa(m)
  {
  }

  /** Whatever is read was a well-written number. */
  lemma {:induction false} ReadIsWritten(text: string) returns (n: Number)
    requires ParseDecimal(text).Some?
    ensures WellWritten(n) && TextOf(n) == text
  {
    var mark := Find(Exponent, text, 0);
    if mark == |text| {
      var sign, digits, places := MantissaParts(text, 0);
      n := Number(sign, digits, places, None);
    } else {
      n := ReadAtMark(text, mark);
    }
  }
}
