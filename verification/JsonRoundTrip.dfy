/** Reading what was written gives the value back, whatever follows; so no two values share a text. */
module JsonRoundTrip {
  import opened Basics
  import opened Documents
  import opened JsonText
  import Text

  /* ---------- digits ---------- */

  predicate Decimals(digits: seq<nat>) {
    forall i :: 0 <= i < |digits| ==> digits[i] < 10
  }

  predicate StartsWithDigit(s: string) {
    s != [] && IsDigit(s[0])
  }

  lemma {:induction false} DigitsReadBack(digits: seq<nat>, rest: string)
    requires Decimals(digits) && !StartsWithDigit(rest)
    ensures TakeDigits(DigitText(digits) + rest) == (digits, rest)
  {
    var s := DigitText(digits) + rest;
    if digits == [] {
      assert s == rest;
    } else {
      assert s[0] == Text.DIGITS[digits[0]];
      assert s[1..] == DigitText(digits[1..]) + rest;
      DigitsReadBack(digits[1..], rest);
      assert [digits[0]] + digits[1..] == digits;
    }
  }

  lemma {:induction false} DigitsOfReadBack(n: nat)
    ensures DigitsValue(DigitsOf(n)) == n
  {
    if n >= 10 {
      DigitsOfReadBack(n / 10);
      assert DigitsOf(n)[..|DigitsOf(n)| - 1] == DigitsOf(n / 10);
    } else {
      assert DigitsValue([n][..0]) == 0;
    }
  }

  lemma {:induction false} TrailingZerosDrop(digits: seq<nat>, n: nat)
    requires digits != [] && digits[|digits| - 1] != 0
    ensures DropTrailingZeros(digits + Zeros(n)) == digits
  {
    var all := digits + Zeros(n);
    if n == 0 {
      assert all == digits;
    } else {
      assert all[..|all| - 1] == digits + Zeros(n - 1);
      TrailingZerosDrop(digits, n - 1);
    }
  }

  lemma {:induction false} LeadingZerosShift(negative: bool, n: nat, digits: seq<nat>, exponent: int)
    ensures Normal(negative, Zeros(n) + digits, exponent) == Normal(negative, digits, exponent - n)
  {
    var all := Zeros(n) + digits;
    if n == 0 {
      assert all == digits;
    } else {
      assert all[1..] == Zeros(n - 1) + digits;
      LeadingZerosShift(negative, n - 1, digits, exponent - 1);
    }
  }

  /* ---------- numbers ---------- */

  /** What may follow a number in a text. */
  predicate Stops(rest: string) {
    rest != [] ==> rest[0] == ',' || rest[0] == ']' || rest[0] == '}'
  }

  lemma ExponentStep(sign: char, s: string, digits: seq<nat>, rest: string)
    requires sign == '+' || sign == '-'
    requires TakeDigits(s) == (digits, rest) && digits != []
    ensures ParseExponent(['e', sign] + s) == Some(((if sign == '-' then -1 else 1) * DigitsValue(digits), rest))
  {
  }

  lemma SignedExponentReadsBack(sign: char, e: nat, rest: string)
    requires sign == '+' || sign == '-'
    requires Stops(rest)
    ensures ParseExponent(['e', sign] + DigitText(DigitsOf(e)) + rest) == Some(((if sign == '-' then -1 else 1) * e, rest))
  {
    DigitsReadBack(DigitsOf(e), rest);
    DigitsOfReadBack(e);
    ExponentStep(sign, DigitText(DigitsOf(e)) + rest, DigitsOf(e), rest);
    assert ['e', sign] + DigitText(DigitsOf(e)) + rest == ['e', sign] + (DigitText(DigitsOf(e)) + rest);
  }

  lemma ExponentReadsBack(exponent: Option<int>, rest: string)
    requires Stops(rest)
    ensures ParseExponent(ExponentText(exponent) + rest) == Some((exponent.GetOr(0), rest))
    ensures var s := ExponentText(exponent) + rest; s != [] ==> !IsDigit(s[0]) && s[0] != '.'
  {
    match exponent
    case None => assert ExponentText(exponent) + rest == rest;
    case Some(e) =>
      if e >= 0 {
        SignedExponentReadsBack('+', e, rest);
      } else {
        SignedExponentReadsBack('-', -e, rest);
      }
  }

  lemma FractionStep(s: string, digits: seq<nat>, rest: string)
    requires TakeDigits(s) == (digits, rest) && digits != []
    ensures ParseFraction("." + s) == Some((digits, rest))
  {
  }

  lemma FractionReadsBack(fraction: seq<nat>, rest: string)
    requires Decimals(fraction) && (rest != [] ==> !IsDigit(rest[0]) && rest[0] != '.')
    ensures ParseFraction(FractionText(fraction) + rest) == Some((fraction, rest))
    ensures !StartsWithDigit(FractionText(fraction) + rest)
  {
    if fraction == [] {
      assert FractionText(fraction) + rest == rest;
    } else {
      DigitsReadBack(fraction, rest);
      FractionStep(DigitText(fraction) + rest, fraction, rest);
      assert "." + DigitText(fraction) + rest == "." + (DigitText(fraction) + rest);
    }
  }

  lemma Regroup(a: string, b: string, c: string, rest: string)
    ensures a + (b + c) + rest == a + (b + (c + rest))
  {
  }

  lemma SecondPartsReadBack(fraction: seq<nat>, exponent: Option<int>, rest: string)
    requires Decimals(fraction) && Stops(rest)
    ensures var third := ExponentText(exponent) + rest;
            && ParseFraction(FractionText(fraction) + third) == Some((fraction, third))
            && ParseExponent(third) == Some((exponent.GetOr(0), rest))
            && !StartsWithDigit(FractionText(fraction) + third)
  {
    ExponentReadsBack(exponent, rest);
    FractionReadsBack(fraction, ExponentText(exponent) + rest);
  }

  /** The three parts of a number are read one after the other. */
  lemma PartsMakeNumber(negative: bool, whole: seq<nat>, second: string, fraction: seq<nat>, third: string,
                        exponent: int, rest: string)
    requires Decimals(whole) && IntPart(whole) && !StartsWithDigit(second)
    requires ParseFraction(second) == Some((fraction, third))
    requires ParseExponent(third) == Some((exponent, rest))
    ensures ParseMagnitude(negative, DigitText(whole) + second)
         == Some((Normal(negative, whole + fraction, |whole| + exponent), rest))
  {
    DigitsReadBack(whole, second);
  }

  lemma PartsReadBack(negative: bool, shape: Shape, rest: string)
    requires Decimals(shape.whole) && Decimals(shape.fraction) && IntPart(shape.whole) && Stops(rest)
    ensures ParseMagnitude(negative, PartsText(shape) + rest)
         == Some((Normal(negative, shape.whole + shape.fraction, |shape.whole| + shape.exponent.GetOr(0)), rest))
  {
    var fraction, exponent := FractionText(shape.fraction), ExponentText(shape.exponent);
    SecondPartsReadBack(shape.fraction, shape.exponent, rest);
    PartsMakeNumber(negative, shape.whole, fraction + (exponent + rest), shape.fraction, exponent + rest,
                    shape.exponent.GetOr(0), rest);
    Regroup(DigitText(shape.whole), fraction, exponent, rest);
  }

  /** Whatever the shape, its parts name the number. */
  predicate Names(negative: bool, digits: seq<nat>, n: int) {
    Shortest(Finite(negative, digits, n)) &&
    var shape := ShapeOf(digits, n);
    && IntPart(shape.whole)
    && Normal(negative, shape.whole + shape.fraction, |shape.whole| + shape.exponent.GetOr(0))
    == Finite(negative, digits, n)
  }

  lemma NormalIsItself(negative: bool, digits: seq<nat>, n: int)
    requires Shortest(Finite(negative, digits, n))
    ensures Normal(negative, digits, n) == Finite(negative, digits, n)
  {
  }

  lemma PaddedNames(negative: bool, digits: seq<nat>, n: int)
    requires Shortest(Finite(negative, digits, n)) && |digits| <= n <= 21
    ensures Names(negative, digits, n)
  {
    var padded := digits + Zeros(n - |digits|);
    assert padded + [] == padded;
    TrailingZerosDrop(digits, n - |digits|);
  }

  lemma CutNames(negative: bool, digits: seq<nat>, n: int)
    requires Shortest(Finite(negative, digits, n)) && ((0 < n < |digits| && n <= 21) || n > 21 || n <= -6)
    ensures Names(negative, digits, n)
  {
  }

  lemma SmallNames(negative: bool, digits: seq<nat>, n: int)
    requires Shortest(Finite(negative, digits, n)) && -6 < n <= 0
    ensures Names(negative, digits, n)
  {
    assert [0] + (Zeros(-n) + digits) == Zeros(1 - n) + digits;
    LeadingZerosShift(negative, 1 - n, digits, 1);
    NormalIsItself(negative, digits, n);
  }

  lemma ShapeNames(negative: bool, digits: seq<nat>, n: int)
    requires Shortest(Finite(negative, digits, n))
    ensures Names(negative, digits, n)
  {
    if |digits| <= n <= 21 {
      PaddedNames(negative, digits, n);
    } else if -6 < n <= 0 {
      SmallNames(negative, digits, n);
    } else {
      CutNames(negative, digits, n);
    }
  }

  lemma MagnitudeReadsBack(negative: bool, digits: seq<nat>, n: int, rest: string)
    requires Shortest(Finite(negative, digits, n)) && Stops(rest)
    ensures ParseMagnitude(negative, Magnitude(digits, n) + rest) == Some((Finite(negative, digits, n), rest))
  {
    ShapeNames(negative, digits, n);
    PartsReadBack(negative, ShapeOf(digits, n), rest);
  }

  lemma StartsWithItsDigit(digits: seq<nat>, n: int)
    requires Shortest(Finite(false, digits, n))
    ensures StartsWithDigit(Magnitude(digits, n))
  {
    var whole := ShapeOf(digits, n).whole;
    assert whole != [] && DigitText(whole)[0] == Text.DIGITS[whole[0]];
  }

  lemma ZeroReadsBack(rest: string)
    requires Stops(rest)
    ensures ParseMagnitude(false, "0" + rest) == Some((Zero, rest))
  {
    var shape := Shape([0], [], None);
    PartsReadBack(false, shape, rest);
    assert DigitText([0]) + (FractionText([]) + ExponentText(None)) == "0";
    assert [0] + [] == [0];
    assert Normal(false, [0], 1) == Normal(false, [0][1..], 0);
  }

  lemma NumberStarts(n: Number)
    requires Shortest(n)
    ensures NumberText(n) != [] && (NumberText(n)[0] == '-' || IsDigit(NumberText(n)[0]))
  {
    if n.Finite? {
      StartsWithItsDigit(n.digits, n.exponent);
    }
  }

  lemma SignIsRead(text: string)
    ensures ParseNumber("-" + text) == ParseMagnitude(true, text)
    ensures StartsWithDigit(text) ==> ParseNumber(text) == ParseMagnitude(false, text)
  {
  }

  lemma NumberReadsBack(n: Number, rest: string)
    requires Shortest(n) && Stops(rest)
    ensures ParseNumber(NumberText(n) + rest) == Some((n, rest))
  {
    match n
    case Zero =>
      ZeroReadsBack(rest);
      SignIsRead("0" + rest);
    case Finite(negative, digits, exponent) =>
      var text := Magnitude(digits, exponent);
      StartsWithItsDigit(digits, exponent);
      MagnitudeReadsBack(negative, digits, exponent, rest);
      SignIsRead(text + rest);
      assert "-" + text + rest == "-" + (text + rest) && "" + text == text;
  }

  /* ---------- strings ---------- */

  lemma ControlReadsBack(c: char, rest: string)
    requires c < ' '
    requires EscapeChar(c) == "\\u00" + [HEX[c as int / 16], HEX[c as int % 16]]
    ensures ParseChar(EscapeChar(c) + rest) == Some((c, rest))
  {
  }

  lemma CharReadsBack(c: char, rest: string)
    ensures ParseChar(EscapeChar(c) + rest) == Some((c, rest))
    ensures EscapeChar(c)[0] != '"'
  {
    var s := EscapeChar(c) + rest;
    if |EscapeChar(c)| == 2 {
      assert s[2..] == rest;
    } else if c < ' ' {
      ControlReadsBack(c, rest);
    } else {
      assert s[1..] == rest;
    }
  }

  lemma {:induction false} BodyReadsBack(s: string, rest: string)
    ensures ParseBody(Escape(s) + "\"" + rest) == Some((s, rest))
  {
    var text := Escape(s) + "\"" + rest;
    if s == [] {
      assert text[1..] == rest;
    } else {
      var more := Escape(s[1..]) + "\"" + rest;
      assert text == EscapeChar(s[0]) + more;
      CharReadsBack(s[0], more);
      assert text[0] == EscapeChar(s[0])[0];
      BodyReadsBack(s[1..], rest);
      assert [s[0]] + s[1..] == s;
    }
  }

  /* ---------- values ---------- */

  /** A text that starts a value, and so neither white space nor a closing bracket. */
  predicate StartsValue(s: string) {
    s != [] && s[0] !in [' ', '\t', '\n', '\r', ']', '}', ',', ':']
  }

  lemma NothingToSkip(s: string)
    requires s != [] ==> s[0] !in [' ', '\t', '\n', '\r']
    ensures SkipSpace(s) == s
  {
  }

  lemma EmitStartsValue(j: Json)
    requires Writable(j)
    ensures StartsValue(Emit(j))
  {
    match j
    case Num(n) => NumberStarts(n);
    case _ =>
  }

  lemma WordReadsBack(j: Json, rest: string)
    requires j.Null? || j.Bool?
    ensures ParseValue(Emit(j) + rest) == Some((j, rest))
  {
  }

  /* What each production does with texts it is given, whatever they are. */

  lemma StringStep(s: string, text: string, rest: string)
    requires ParseBody(s) == Some((text, rest))
    ensures ParseValue("\"" + s) == Some((Str(text), rest))
  {
  }

  lemma NumberStep(s: string, n: Number, rest: string)
    requires s != [] && (s[0] == '-' || IsDigit(s[0]))
    requires ParseNumber(s) == Some((n, rest))
    ensures ParseValue(s) == Some((Num(n), rest))
  {
    NothingToSkip(s);
  }

  lemma EmptyStep(rest: string)
    ensures ParseValue("[]" + rest) == Some((Arr([]), rest))
    ensures ParseValue("{}" + rest) == Some((Obj([]), rest))
  {
    assert ("[]" + rest)[1..] == "]" + rest && ("]" + rest)[1..] == rest;
    assert ("{}" + rest)[1..] == "}" + rest && ("}" + rest)[1..] == rest;
  }

  lemma ArrayStep(s: string, items: seq<Json>, rest: string)
    requires StartsValue(s) && ParseItems(s) == Some((items, rest))
    ensures ParseValue("[" + s) == Some((Arr(items), rest))
  {
  }

  lemma ObjectStep(s: string, fields: seq<Field>, rest: string)
    requires StartsValue(s) && ParseFields(s) == Some((fields, rest))
    ensures ParseValue("{" + s) == Some((Obj(fields), rest))
  {
  }

  lemma LastItemStep(s: string, first: Json, rest: string)
    requires ParseValue(s) == Some((first, "]" + rest))
    ensures ParseItems(s) == Some(([first], rest))
  {
  }

  lemma NextItemStep(s: string, first: Json, more: string, items: seq<Json>, rest: string)
    requires ParseValue(s) == Some((first, "," + more)) && ParseItems(more) == Some((items, rest))
    ensures ParseItems(s) == Some(([first] + items, rest))
  {
  }

  lemma FieldStep(s: string, name: string, value: string, j: Json, rest: string)
    requires ParseBody(s) == Some((name, ":" + value)) && ParseValue(value) == Some((j, rest))
    ensures ParseField("\"" + s) == Some((Field(name, j), rest))
  {
  }

  lemma LastFieldStep(s: string, first: Field, rest: string)
    requires ParseField(s) == Some((first, "}" + rest))
    ensures ParseFields(s) == Some(([first], rest))
  {
  }

  lemma NextFieldStep(s: string, first: Field, more: string, fields: seq<Field>, rest: string)
    requires ParseField(s) == Some((first, "," + more)) && ParseFields(more) == Some((fields, rest))
    ensures ParseFields(s) == Some(([first] + fields, rest))
  {
  }

  lemma ScalarReadsBack(j: Json, rest: string)
    requires Writable(j) && !j.Arr? && !j.Obj? && Stops(rest)
    ensures ParseValue(Emit(j) + rest) == Some((j, rest))
  {
    match j
    case Num(n) =>
      NumberStarts(n);
      NumberReadsBack(n, rest);
      NumberStep(NumberText(n) + rest, n, rest);
    case Str(t) =>
      BodyReadsBack(t, rest);
      StringStep(Escape(t) + "\"" + rest, t, rest);
      assert Quote(t) + rest == "\"" + (Escape(t) + "\"" + rest);
    case _ => WordReadsBack(j, rest);
  }

  lemma Front(first: string, separator: string, more: string, closing: string, rest: string)
    ensures first + separator + more + closing + rest == first + (separator + (more + closing + rest))
  {
  }

  lemma {:induction false} ItemsReadBack(items: seq<Json>, rest: string)
    requires items != [] && forall i :: 0 <= i < |items| ==> Writable(items[i])
    ensures ParseItems(EmitItems(items) + "]" + rest) == Some((items, rest))
    ensures StartsValue(EmitItems(items) + "]" + rest)
    decreases items, 0
  {
    var first := Emit(items[0]);
    EmitStartsValue(items[0]);
    if |items| == 1 {
      ValueReadsBack(items[0], "]" + rest);
      assert first + "]" + rest == first + ("]" + rest);
      LastItemStep(first + ("]" + rest), items[0], rest);
      assert items == [items[0]];
    } else {
      var more := EmitItems(items[1..]) + "]" + rest;
      ItemsReadBack(items[1..], rest);
      ValueReadsBack(items[0], "," + more);
      NextItemStep(first + ("," + more), items[0], more, items[1..], rest);
      Front(first, ",", EmitItems(items[1..]), "]", rest);
      assert items == [items[0]] + items[1..];
    }
  }

  lemma Requote(name: string, value: string, rest: string)
    ensures "\"" + name + "\"" + ":" + value + rest == "\"" + (name + "\"" + (":" + (value + rest)))
  {
  }

  lemma {:induction false} FieldReadsBack(f: Field, rest: string)
    requires Writable(f.value) && Stops(rest)
    ensures ParseField(EmitField(f) + rest) == Some((f, rest))
    decreases f, 0
  {
    var value := Emit(f.value) + rest;
    BodyReadsBack(f.name, ":" + value);
    ValueReadsBack(f.value, rest);
    FieldStep(Escape(f.name) + "\"" + (":" + value), f.name, value, f.value, rest);
    Requote(Escape(f.name), Emit(f.value), rest);
  }

  lemma {:induction false} FieldsReadBack(fields: seq<Field>, rest: string)
    requires fields != [] && forall i :: 0 <= i < |fields| ==> Writable(fields[i].value)
    ensures ParseFields(EmitFields(fields) + "}" + rest) == Some((fields, rest))
    ensures StartsValue(EmitFields(fields) + "}" + rest)
    decreases fields, 1
  {
    var first := EmitField(fields[0]);
    assert first[0] == '"';
    if |fields| == 1 {
      FieldReadsBack(fields[0], "}" + rest);
      assert first + "}" + rest == first + ("}" + rest);
      LastFieldStep(first + ("}" + rest), fields[0], rest);
      assert fields == [fields[0]];
    } else {
      var more := EmitFields(fields[1..]) + "}" + rest;
      FieldsReadBack(fields[1..], rest);
      FieldReadsBack(fields[0], "," + more);
      NextFieldStep(first + ("," + more), fields[0], more, fields[1..], rest);
      Front(first, ",", EmitFields(fields[1..]), "}", rest);
      assert fields == [fields[0]] + fields[1..];
    }
  }

  /** Reading a text that starts with a value's text yields that value and leaves the rest. */
  lemma {:induction false} ValueReadsBack(j: Json, rest: string)
    requires Writable(j) && Stops(rest)
    ensures ParseValue(Emit(j) + rest) == Some((j, rest))
    decreases j, 1
  {
    match j
    case Arr(items) =>
      if items == [] {
        EmptyStep(rest);
        assert "[" + "" + "]" == "[]";
      } else {
        ItemsReadBack(items, rest);
        ArrayStep(EmitItems(items) + "]" + rest, items, rest);
        assert "[" + EmitItems(items) + "]" + rest == "[" + (EmitItems(items) + "]" + rest);
      }
    case Obj(fields) =>
      if fields == [] {
        EmptyStep(rest);
        assert "{" + "" + "}" == "{}";
      } else {
        FieldsReadBack(fields, rest);
        ObjectStep(EmitFields(fields) + "}" + rest, fields, rest);
        assert "{" + EmitFields(fields) + "}" + rest == "{" + (EmitFields(fields) + "}" + rest);
      }
    case _ => ScalarReadsBack(j, rest);
  }

  /** Round trip: the grammar recovers the value from its text. */
  lemma TextReadsBack(j: Json)
    requires Writable(j)
    ensures Parse(Emit(j)) == Some(j)
  {
    ValueReadsBack(j, "");
    assert Emit(j) + "" == Emit(j);
  }

  /** Two values, members in order, have one text only if they are one value. */
  lemma TextIsUnique(a: Json, b: Json)
    requires Writable(a) && Writable(b)
    ensures Emit(a) == Emit(b) <==> a == b
  {
    TextReadsBack(a);
    TextReadsBack(b);
  }
}
