/** Amounts as decimal text, at the level of characters (app/domain/money.py). */
module DecimalText {
  import opened Prelude
  import opened Rounding

  datatype TextError = NotADecimal

  // ---------------------------------------------------------------- digits

  function DigitChar(d: nat): char
    requires d < 10
  {
    "0123456789"[d]
  }

  predicate IsDigit(c: char) {
    '0' <= c <= '9'
  }

  function DigitValue(c: char): nat
    requires IsDigit(c)
  {
    c as int - '0' as int
  }

  function Digits(n: nat): string {
    if n < 10 then [DigitChar(n)] else Digits(n / 10) + [DigitChar(n % 10)]
  }

  predicate AllDigits(s: string) {
    forall i :: 0 <= i < |s| ==> IsDigit(s[i])
  }

  function Value(s: string): nat
    requires AllDigits(s)
  {
    if s == "" then 0 else 10 * Value(s[..|s| - 1]) + DigitValue(s[|s| - 1])
  }

  lemma {:induction false} DigitsRead(n: nat)
    ensures AllDigits(Digits(n)) && Digits(n) != "" && Value(Digits(n)) == n
  {
    if n < 10 {
      assert [DigitChar(n)][..0] == "";
    } else {
      DigitsRead(n / 10);
      OneMore(Digits(n / 10), n % 10);
    }
  }

  // ---------------------------------------------------------------- printing

  function Magnitude(n: nat, exponent: nat): string {
    if exponent == 0 then Digits(n)
    else Digits(n / 100) + "." + [DigitChar(n / 10 % 10), DigitChar(n % 10)]
  }

  function FromMinor(minor: int, currency: Currency): string {
    (if minor < 0 then "-" else "") + Magnitude(Abs(minor), Exponent(currency))
  }

  // ---------------------------------------------------------------- parsing

  predicate IsSpace(c: char) {
    c in " \t\n\r"
  }

  function Strip(s: string): string {
    if s == "" then ""
    else if IsSpace(s[0]) then Strip(s[1..])
    else if IsSpace(s[|s| - 1]) then Strip(s[..|s| - 1])
    else s
  }

  /** Before and after the first point; everything before when there is none. */
  function AtPoint(s: string): (string, string) {
    if s == "" then ("", "")
    else if s[0] == '.' then ("", s[1..])
    else var rest := AtPoint(s[1..]); ([s[0]] + rest.0, rest.1)
  }

  /** An unsigned plain decimal as its digits and how many of them follow the point. */
  function ParseMagnitude(s: string): Option<(nat, nat)> {
    var (whole, fraction) := AtPoint(s);
    if whole + fraction == "" || !AllDigits(whole + fraction) then None
    else Some((Value(whole + fraction), |fraction|))
  }

  function Unsigned(s: string): (bool, string) {
    if s != "" && s[0] == '-' then (true, s[1..])
    else if s != "" && s[0] == '+' then (false, s[1..])
    else (false, s)
  }

  function ToMinor(amount: string, currency: Currency): Result<int, TextError> {
    var (negative, body) := Unsigned(Strip(amount));
    match ParseMagnitude(body)
    case None => Err(NotADecimal)
    case Some((digits, places)) =>
      var n: int := if negative then 0 - digits else digits;
      Ok(HalfUp(n * Power(Exponent(currency)), Power(places)))
  }

  // ---------------------------------------------------------------- the round trip

  lemma {:induction false} AtPointPlain(whole: string)
    requires AllDigits(whole)
    ensures AtPoint(whole) == (whole, "")
  {
    if whole != "" {
      AtPointPlain(whole[1..]);
      assert [whole[0]] + whole[1..] == whole;
    }
  }

  lemma {:induction false} AtPointSplits(whole: string, fraction: string)
    requires AllDigits(whole)
    ensures AtPoint(whole + "." + fraction) == (whole, fraction)
  {
    var s := whole + "." + fraction;
    if whole == "" {
      assert s[1..] == fraction;
    } else {
      AtPointSplits(whole[1..], fraction);
      assert s[1..] == whole[1..] + "." + fraction;
      assert [whole[0]] + whole[1..] == whole;
    }
  }

  lemma MagnitudeRead(n: nat, exponent: nat)
    requires exponent == 0 || exponent == 2
    ensures ParseMagnitude(Magnitude(n, exponent)) == Some((n, exponent))
    ensures IsDigit(Magnitude(n, exponent)[0])
  {
    if exponent == 0 {
      DigitsRead(n);
      AtPointPlain(Digits(n));
      assert Digits(n) + "" == Digits(n);
    } else {
      DigitsRead(n / 100);
      PointRead(Digits(n / 100), n / 10 % 10, n % 10);
      LastTwo(n);
    }
  }

  lemma LastTwo(n: nat)
    ensures n == 100 * (n / 100) + 10 * (n / 10 % 10) + n % 10
  {
    assert n / 10 / 10 == n / 100;
  }

  lemma PointRead(whole: string, a: nat, b: nat)
    requires AllDigits(whole) && a < 10 && b < 10
    ensures ParseMagnitude(whole + "." + [DigitChar(a), DigitChar(b)]) == Some((100 * Value(whole) + 10 * a + b, 2))
  {
    AtPointSplits(whole, [DigitChar(a), DigitChar(b)]);
    TwoMore(whole, a, b);
  }

  lemma OneMore(s: string, d: nat)
    requires AllDigits(s) && d < 10
    ensures AllDigits(s + [DigitChar(d)]) && Value(s + [DigitChar(d)]) == 10 * Value(s) + d
  {
    assert (s + [DigitChar(d)])[..|s|] == s;
  }

  lemma TwoMore(whole: string, a: nat, b: nat)
    requires AllDigits(whole) && a < 10 && b < 10
    ensures AllDigits(whole + [DigitChar(a), DigitChar(b)])
    ensures Value(whole + [DigitChar(a), DigitChar(b)]) == 100 * Value(whole) + 10 * a + b
  {
    OneMore(whole, a);
    OneMore(whole + [DigitChar(a)], b);
    assert whole + [DigitChar(a), DigitChar(b)] == whole + [DigitChar(a)] + [DigitChar(b)];
  }

  lemma {:induction false} StripPlain(s: string)
    requires s != "" && !IsSpace(s[0]) && !IsSpace(s[|s| - 1])
    ensures Strip(s) == s
  {
  }

  lemma {:induction false} LastIsDigit(n: nat, exponent: nat)
    ensures Magnitude(n, exponent) != "" && IsDigit(Magnitude(n, exponent)[|Magnitude(n, exponent)| - 1])
  {
    DigitsRead(n);
  }

  /** Printing and reading back is the identity, negative, zero and sub-unit amounts included. */
  lemma RoundTrip(minor: int, currency: Currency)
    ensures ToMinor(FromMinor(minor, currency), currency) == Ok(minor)
  {
    var e := Exponent(currency);
    MagnitudeRead(Abs(minor), e);
    LastIsDigit(Abs(minor), e);
    SignRead(minor < 0, Magnitude(Abs(minor), e));
    HalfUpWhole(minor, Power(e));
  }

  /** A sign in front of digits survives the strip and comes off again. */
  lemma SignRead(negative: bool, body: string)
    requires body != "" && IsDigit(body[0]) && IsDigit(body[|body| - 1])
    ensures Unsigned(Strip((if negative then "-" else "") + body)) == (negative, body)
  {
    var text := (if negative then "-" else "") + body;
    if negative {
      assert text[|text| - 1] == body[|body| - 1];
      StripPlain(text);
      assert text[1..] == body;
    } else {
      assert text == body;
      StripPlain(body);
    }
  }

  // ---------------------------------------------------------------- which texts are amounts

  predicate Blank(s: string) {
    forall i :: 0 <= i < |s| ==> IsSpace(s[i])
  }

  /** An amount as it may be written: blanks, a sign, digits around at most one point, blanks. */
  datatype Written = Written(
    before: string, sign: string, whole: string, point: string, fraction: string, after: string)

  predicate Plain(w: Written) {
    && Blank(w.before) && Blank(w.after)
    && w.sign in ["", "+", "-"]
    && AllDigits(w.whole) && AllDigits(w.fraction) && w.whole + w.fraction != ""
    && (w.point == "." || (w.point == "" && w.fraction == ""))
  }

  function Text(w: Written): string {
    w.before + (w.sign + (w.whole + w.point + w.fraction)) + w.after
  }

  lemma {:induction false} StripTail(body: string, after: string)
    requires body != "" && !IsSpace(body[0]) && !IsSpace(body[|body| - 1]) && Blank(after)
    ensures Strip(body + after) == body
  {
    if after == "" {
      assert body + after == body;
      StripPlain(body);
    } else {
      var s := body + after;
      assert s[..|s| - 1] == body + after[..|after| - 1];
      StripTail(body, after[..|after| - 1]);
    }
  }

  lemma {:induction false} StripAround(before: string, body: string, after: string)
    requires body != "" && !IsSpace(body[0]) && !IsSpace(body[|body| - 1]) && Blank(before) && Blank(after)
    ensures Strip(before + body + after) == body
  {
    if before == "" {
      assert before + body + after == body + after;
      StripTail(body, after);
    } else {
      var s := before + body + after;
      assert s[1..] == before[1..] + body + after;
      assert s[0] == before[0];
      StripAround(before[1..], body, after);
    }
  }

  lemma {:induction false} StripSplits(s: string) returns (before: string, after: string)
    ensures Blank(before) && Blank(after) && s == before + Strip(s) + after
  {
    before, after := "", "";
    if s != "" && IsSpace(s[0]) {
      before, after := StripSplits(s[1..]);
      assert s == [s[0]] + s[1..];
      before := [s[0]] + before;
    } else if s != "" && IsSpace(s[|s| - 1]) {
      before, after := StripSplits(s[..|s| - 1]);
      assert s == s[..|s| - 1] + [s[|s| - 1]];
      after := after + [s[|s| - 1]];
    }
  }

  lemma {:induction false} AtPointJoins(s: string)
    ensures var (whole, fraction) := AtPoint(s);
            s == whole + (if '.' in s then "." else "") + fraction && ('.' !in s ==> fraction == "")
  {
    if s != "" {
      assert s == [s[0]] + s[1..];
      if s[0] != '.' {
        AtPointJoins(s[1..]);
      }
    }
  }

  lemma ParsesPlain(w: Written)
    requires Plain(w)
    ensures ParseMagnitude(w.whole + w.point + w.fraction) == Some((Value(w.whole + w.fraction), |w.fraction|))
  {
    if w.point == "." {
      AtPointSplits(w.whole, w.fraction);
    } else {
      AtPointPlain(w.whole);
      assert w.whole + w.point + w.fraction == w.whole;
    }
  }

  lemma MarksOff(w: Written)
    requires Plain(w)
    ensures Unsigned(Strip(Text(w))) == (w.sign == "-", w.whole + w.point + w.fraction)
  {
    var body := w.whole + w.point + w.fraction;
    var text := w.sign + body;
    StripAround(w.before, text, w.after);
    if w.sign == "" {
      assert text == body;
    } else {
      assert text[1..] == body;
    }
  }

  /** A plain decimal is read as the nearest minor unit to it, ties away from zero. */
  lemma ReadsNearest(w: Written, currency: Currency)
    requires Plain(w)
    ensures ToMinor(Text(w), currency).Ok?
    ensures var digits := (if w.sign == "-" then -1 else 1) * Value(w.whole + w.fraction);
            IsHalfUp(digits * Power(Exponent(currency)), Power(|w.fraction|), ToMinor(Text(w), currency).value)
  {
    MarksOff(w);
    ParsesPlain(w);
    var digits := (if w.sign == "-" then -1 else 1) * Value(w.whole + w.fraction);
    HalfUpNearest(digits * Power(Exponent(currency)), Power(|w.fraction|));
  }

  lemma DigitsApart(whole: string, fraction: string)
    requires AllDigits(whole + fraction)
    ensures AllDigits(whole) && AllDigits(fraction)
  {
    assert forall i :: 0 <= i < |whole| ==> whole[i] == (whole + fraction)[i];
    assert forall i :: 0 <= i < |fraction| ==> fraction[i] == (whole + fraction)[|whole| + i];
  }

  /** How a text without blanks around it was written, if its magnitude parses. */
  lemma BodyWritten(text: string) returns (w: Written)
    requires ParseMagnitude(Unsigned(text).1).Some?
    ensures Plain(w) && w.before == w.after == "" && w.sign + (w.whole + w.point + w.fraction) == text
  {
    var body := Unsigned(text).1;
    var (whole, fraction) := AtPoint(body);
    var sign := if text == body then "" else [text[0]];
    AtPointJoins(body);
    DigitsApart(whole, fraction);
    w := Written("", sign, whole, if '.' in body then "." else "", fraction, "");
    assert text == sign + body;
  }

  /** The texts read as amounts are exactly the plain decimals. */
  lemma ReadExactly(text: string, currency: Currency)
    ensures ToMinor(text, currency).Ok? <==> exists w :: Plain(w) && Text(w) == text
  {
    if w :| Plain(w) && Text(w) == text {
      ReadsNearest(w, currency);
    }
    if ToMinor(text, currency).Ok? {
      var before, after := StripSplits(text);
      var w := BodyWritten(Strip(text));
      var all := w.(before := before, after := after);
      assert Plain(all) && Text(all) == text;
    }
  }

  /** No blank, no plus, no needless zero in front, and exactly the currency's places. */
  predicate Printed(minor: int, places: nat, whole: string, fraction: string, text: string) {
    && AllDigits(whole) && AllDigits(fraction)
    && whole != "" && (whole[0] == '0' ==> whole == "0") && |fraction| == places
    && text == (if minor < 0 then "-" else "") + (if places == 0 then whole else whole + "." + fraction)
  }

  lemma PrintsPlainly(minor: int, currency: Currency)
    ensures exists whole, fraction :: Printed(minor, Exponent(currency), whole, fraction, FromMinor(minor, currency))
  {
    var n := Abs(minor);
    if Exponent(currency) == 0 {
      NoLeadingZero(n);
      assert Printed(minor, 0, Digits(n), "", FromMinor(minor, currency));
    } else {
      NoLeadingZero(n / 100);
      var fraction := [DigitChar(n / 10 % 10), DigitChar(n % 10)];
      assert Printed(minor, 2, Digits(n / 100), fraction, FromMinor(minor, currency));
    }
  }

  lemma {:induction false} NoLeadingZero(n: nat)
    ensures AllDigits(Digits(n)) && Digits(n) != "" && (Digits(n)[0] == '0' <==> n == 0)
    ensures n == 0 ==> Digits(n) == "0"
  {
    DigitsRead(n);
    if n >= 10 {
      NoLeadingZero(n / 10);
    }
  }
}
