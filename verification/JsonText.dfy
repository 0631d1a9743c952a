/** JSON text: how a value is written, and the grammar of sections 2 to 7 of RFC 8259 reading it back. */
module JsonText {
  import opened Basics
  import opened Documents
  import Text

  /* ---------- writing ---------- */

  const HEX: string := "0123456789abcdef"

  function DigitText(digits: seq<nat>): (s: string)
    requires forall i :: 0 <= i < |digits| ==> digits[i] < 10
    ensures |s| == |digits|
  {
    seq(|digits|, i requires 0 <= i < |digits| => Text.DIGITS[digits[i]])
  }

  function Zeros(n: nat): (r: seq<nat>)
    ensures |r| == n
  {
    seq(n, _ => 0)
  }

  /** The parts of a number's text: digits, digits after a point, an exponent. */
  datatype Shape = Shape(whole: seq<nat>, fraction: seq<nat>, exponent: Option<int>)

  /** What `Number::toString` chooses when the digits run to the exponent `n`: plain, with a point, with
      leading zeros, or the scientific form. */
  function ShapeOf(digits: seq<nat>, n: int): (r: Shape)
    requires Shortest(Finite(false, digits, n))
    ensures forall i :: 0 <= i < |r.whole| ==> r.whole[i] < 10
    ensures forall i :: 0 <= i < |r.fraction| ==> r.fraction[i] < 10
  {
    var k := |digits|;
    if k <= n <= 21 then Shape(digits + Zeros(n - k), [], None)
    else if 0 < n <= 21 then Shape(digits[..n], digits[n..], None)
    else if -6 < n <= 0 then Shape([0], Zeros(-n) + digits, None)
    else Shape(digits[..1], digits[1..], Some(n - 1))
  }

  function FractionText(fraction: seq<nat>): string
    requires forall i :: 0 <= i < |fraction| ==> fraction[i] < 10
  {
    if fraction == [] then "" else "." + DigitText(fraction)
  }

  function ExponentText(exponent: Option<int>): string {
    match exponent
    case None => ""
    case Some(e) => if e >= 0 then "e+" + DigitText(DigitsOf(e)) else "e-" + DigitText(DigitsOf(-e))
  }

  function PartsText(shape: Shape): string
    requires forall i :: 0 <= i < |shape.whole| ==> shape.whole[i] < 10
    requires forall i :: 0 <= i < |shape.fraction| ==> shape.fraction[i] < 10
  {
    DigitText(shape.whole) + (FractionText(shape.fraction) + ExponentText(shape.exponent))
  }

  function Magnitude(digits: seq<nat>, n: int): string
    requires Shortest(Finite(false, digits, n))
  {
    PartsText(ShapeOf(digits, n))
  }

  function NumberText(n: Number): string
    requires Shortest(n)
  {
    match n
    case Zero => "0"
    case Finite(negative, digits, exponent) => (if negative then "-" else "") + Magnitude(digits, exponent)
  }

  function EscapeChar(c: char): string {
    if c == '"' then "\\\""
    else if c == '\\' then "\\\\"
    else if c == 8 as char then "\\b"
    else if c == 9 as char then "\\t"
    else if c == 10 as char then "\\n"
    else if c == 12 as char then "\\f"
    else if c == 13 as char then "\\r"
    else if c < ' ' then "\\u00" + [HEX[c as int / 16], HEX[c as int % 16]]
    else [c]
  }

  function Escape(s: string): string {
    if s == [] then [] else EscapeChar(s[0]) + Escape(s[1..])
  }

  function Quote(s: string): string {
    "\"" + Escape(s) + "\""
  }

  /** Numbers that can be written at all. */
  predicate Writable(j: Json) {
    match j
    case Num(n) => Shortest(n)
    case Arr(items) => forall i :: 0 <= i < |items| ==> Writable(items[i])
    case Obj(fields) => forall i :: 0 <= i < |fields| ==> Writable(fields[i].value)
    case _ => true
  }

  function EmitItems(items: seq<Json>): string
    requires forall i :: 0 <= i < |items| ==> Writable(items[i])
    decreases items
  {
    if items == [] then ""
    else if |items| == 1 then Emit(items[0])
    else Emit(items[0]) + "," + EmitItems(items[1..])
  }

  function EmitField(f: Field): string
    requires Writable(f.value)
    decreases f
  {
    Quote(f.name) + ":" + Emit(f.value)
  }

  function EmitFields(fields: seq<Field>): string
    requires forall i :: 0 <= i < |fields| ==> Writable(fields[i].value)
    decreases fields
  {
    if fields == [] then ""
    else if |fields| == 1 then EmitField(fields[0])
    else EmitField(fields[0]) + "," + EmitFields(fields[1..])
  }

  /** The text of a value, members in the order given, without white space. */
  function Emit(j: Json): string
    requires Writable(j)
    decreases j
  {
    match j
    case Null => "null"
    case Bool(b) => if b then "true" else "false"
    case Num(n) => NumberText(n)
    case Str(s) => Quote(s)
    case Arr(items) => "[" + EmitItems(items) + "]"
    case Obj(fields) => "{" + EmitFields(fields) + "}"
  }

  /* ---------- reading: tokens ---------- */

  predicate IsDigit(c: char) {
    '0' <= c <= '9'
  }

  function DigitValue(c: char): nat
    requires IsDigit(c)
  {
    c as int - '0' as int
  }

  function SkipSpace(s: string): (r: string)
    ensures |r| <= |s|
  {
    if s != [] && s[0] in [' ', '\t', '\n', '\r'] then SkipSpace(s[1..]) else s
  }

  /** The leading digits, and what follows them. */
  function TakeDigits(s: string): (r: (seq<nat>, string))
    ensures |r.0| + |r.1| == |s|
  {
    if s != [] && IsDigit(s[0]) then
      var r := TakeDigits(s[1..]);
      ([DigitValue(s[0])] + r.0, r.1)
    else ([], s)
  }

  function DigitsValue(digits: seq<nat>): nat {
    if digits == [] then 0 else 10 * DigitsValue(digits[..|digits| - 1]) + digits[|digits| - 1]
  }

  /** Leading zeros only shift the exponent, trailing ones say nothing. */
  function Normal(negative: bool, digits: seq<nat>, exponent: int): Number {
    if digits == [] then Zero
    else if digits[0] == 0 then Normal(negative, digits[1..], exponent - 1)
    else Finite(negative, DropTrailingZeros(digits), exponent)
  }

  /** `int`: a zero by itself, or digits that start with another. */
  predicate IntPart(digits: seq<nat>) {
    digits != [] && (digits[0] == 0 ==> |digits| == 1)
  }

  function ParseExponent(s: string): (r: Option<(int, string)>)
    ensures r.Some? ==> |r.value.1| <= |s|
  {
    if s == [] || (s[0] != 'e' && s[0] != 'E') then Some((0, s))
    else
      var negative := |s| > 1 && s[1] == '-';
      var signed := |s| > 1 && (s[1] == '-' || s[1] == '+');
      var digits := TakeDigits(if signed then s[2..] else s[1..]);
      if digits.0 == [] then None
      else Some(((if negative then -1 else 1) * DigitsValue(digits.0), digits.1))
  }

  function ParseFraction(s: string): (r: Option<(seq<nat>, string)>)
    ensures r.Some? ==> |r.value.1| <= |s|
  {
    if s == [] || s[0] != '.' then Some(([], s))
    else
      var digits := TakeDigits(s[1..]);
      if digits.0 == [] then None else Some(digits)
  }

  function ParseMagnitude(negative: bool, s: string): (r: Option<(Number, string)>)
    ensures r.Some? ==> |r.value.1| < |s|
  {
    var whole := TakeDigits(s);
    if !IntPart(whole.0) then None
    else
      match ParseFraction(whole.1)
      case None => None
      case Some(fraction) =>
        match ParseExponent(fraction.1)
        case None => None
        case Some(exponent) =>
          Some((Normal(negative, whole.0 + fraction.0, |whole.0| + exponent.0), exponent.1))
  }

  function ParseNumber(s: string): (r: Option<(Number, string)>)
    ensures r.Some? ==> |r.value.1| < |s|
  {
    if s != [] && s[0] == '-' then ParseMagnitude(true, s[1..]) else ParseMagnitude(false, s)
  }

  function HexValue(c: char): Option<nat> {
    if IsDigit(c) then Some(DigitValue(c))
    else if 'a' <= c <= 'f' then Some(c as int - 'a' as int + 10)
    else if 'A' <= c <= 'F' then Some(c as int - 'A' as int + 10)
    else None
  }

  /** Four hexadecimal digits; a half of a surrogate pair is no character of the model. */
  function ParseHex(s: string): Option<char>
    requires |s| == 4
  {
    var a, b, c, d := HexValue(s[0]), HexValue(s[1]), HexValue(s[2]), HexValue(s[3]);
    if a.None? || b.None? || c.None? || d.None? then None
    else
      var code := ((a.value * 16 + b.value) * 16 + c.value) * 16 + d.value;
      if code < 0xD800 || 0xE000 <= code < 0x10000 then Some(code as char) else None
  }

  function Unescape(c: char): Option<char> {
    match c
    case '"' => Some('"')
    case '\\' => Some('\\')
    case '/' => Some('/')
    case 'b' => Some(8 as char)
    case 'f' => Some(12 as char)
    case 'n' => Some(10 as char)
    case 'r' => Some(13 as char)
    case 't' => Some(9 as char)
    case _ => None
  }

  /** One character of a string's body, escaped or not. */
  function ParseChar(s: string): (r: Option<(char, string)>)
    requires s != []
    ensures r.Some? ==> |r.value.1| < |s|
  {
    if s[0] != '\\' then (if s[0] < ' ' then None else Some((s[0], s[1..])))
    else if |s| < 2 then None
    else if s[1] != 'u' then
      match Unescape(s[1])
      case None => None
      case Some(c) => Some((c, s[2..]))
    else if |s| < 6 then None
    else
      match ParseHex(s[2..6])
      case None => None
      case Some(c) => Some((c, s[6..]))
  }

  /** The rest of a string after its opening quote. */
  function ParseBody(s: string): (r: Option<(string, string)>)
    ensures r.Some? ==> |r.value.1| < |s|
    decreases |s|
  {
    if s == [] then None
    else if s[0] == '"' then Some(("", s[1..]))
    else
      match ParseChar(s)
      case None => None
      case Some(first) =>
        match ParseBody(first.1)
        case None => None
        case Some(rest) => Some(([first.0] + rest.0, rest.1))
  }

  /* ---------- reading: values ---------- */

  function Literal(s: string, word: string, value: Json): (r: Option<(Json, string)>)
    requires word != []
    ensures r.Some? ==> |r.value.1| < |s|
  {
    if word <= s then Some((value, s[|word|..])) else None
  }

  function ParseValue(s: string): (r: Option<(Json, string)>)
    ensures r.Some? ==> |r.value.1| < |s|
    decreases |s|, 1
  {
    var t := SkipSpace(s);
    if t == [] then None
    else if t[0] == 'n' then Literal(t, "null", Null)
    else if t[0] == 't' then Literal(t, "true", Bool(true))
    else if t[0] == 'f' then Literal(t, "false", Bool(false))
    else if t[0] == '"' then
      match ParseBody(t[1..])
      case None => None
      case Some(body) => Some((Str(body.0), body.1))
    else if t[0] == '[' then
      var u := SkipSpace(t[1..]);
      if u != [] && u[0] == ']' then Some((Arr([]), u[1..]))
      else
        match ParseItems(t[1..])
        case None => None
        case Some(items) => Some((Arr(items.0), items.1))
    else if t[0] == '{' then
      var u := SkipSpace(t[1..]);
      if u != [] && u[0] == '}' then Some((Obj([]), u[1..]))
      else
        match ParseFields(t[1..])
        case None => None
        case Some(fields) => Some((Obj(fields.0), fields.1))
    else
      match ParseNumber(t)
      case None => None
      case Some(number) => Some((Num(number.0), number.1))
  }

  /** Values separated by commas, up to the closing bracket. */
  function ParseItems(s: string): (r: Option<(seq<Json>, string)>)
    ensures r.Some? ==> |r.value.1| < |s|
    decreases |s|, 2
  {
    match ParseValue(s)
    case None => None
    case Some(first) =>
      var t := SkipSpace(first.1);
      if t != [] && t[0] == ']' then Some(([first.0], t[1..]))
      else if t != [] && t[0] == ',' then
        match ParseItems(t[1..])
        case None => None
        case Some(rest) => Some(([first.0] + rest.0, rest.1))
      else None
  }

  function ParseField(s: string): (r: Option<(Field, string)>)
    ensures r.Some? ==> |r.value.1| < |s|
    decreases |s|, 2
  {
    var t := SkipSpace(s);
    if t == [] || t[0] != '"' then None
    else
      match ParseBody(t[1..])
      case None => None
      case Some(name) =>
        var u := SkipSpace(name.1);
        if u == [] || u[0] != ':' then None
        else
          match ParseValue(u[1..])
          case None => None
          case Some(value) => Some((Field(name.0, value.0), value.1))
  }

  function ParseFields(s: string): (r: Option<(seq<Field>, string)>)
    ensures r.Some? ==> |r.value.1| < |s|
    decreases |s|, 3
  {
    match ParseField(s)
    case None => None
    case Some(first) =>
      var t := SkipSpace(first.1);
      if t != [] && t[0] == '}' then Some(([first.0], t[1..]))
      else if t != [] && t[0] == ',' then
        match ParseFields(t[1..])
        case None => None
        case Some(rest) => Some(([first.0] + rest.0, rest.1))
      else None
  }

  /** A whole text: one value and nothing after it. */
  function Parse(s: string): Option<Json> {
    match ParseValue(s)
    case None => None
    case Some(r) => if SkipSpace(r.1) == [] then Some(r.0) else None
  }
}
