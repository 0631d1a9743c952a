/** JSON documents: the values that are stored, queried and written as canonical text. */
module Documents {
  import opened Basics

  /* ---------- numbers ---------- */

  /** A finite number by its shortest decimal form, the one that `Number::toString` of the ECMAScript
      specification picks: 0.d1d2...dk times ten to the exponent, with d1 and dk not zero. Distinct
      doubles have distinct forms, and the two zeros are one number. */
  datatype Number = Zero | Finite(negative: bool, digits: seq<nat>, exponent: int)

  predicate Shortest(n: Number) {
    n.Finite? ==>
      && |n.digits| > 0
      && n.digits[0] != 0
      && n.digits[|n.digits| - 1] != 0
      && forall i :: 0 <= i < |n.digits| ==> n.digits[i] < 10
  }

  const ONE := Finite(false, [1], 1)

  function Power10(e: int): real
    decreases if e < 0 then -e else e
  {
    if e == 0 then 1.0 else if e > 0 then 10.0 * Power10(e - 1) else Power10(e + 1) / 10.0
  }

  function Whole(digits: seq<nat>): nat {
    if digits == [] then 0 else 10 * Whole(digits[..|digits| - 1]) + digits[|digits| - 1]
  }

  /** The value that `<` and `>` compare. */
  function Value(n: Number): real {
    match n
    case Zero => 0.0
    case Finite(negative, digits, exponent) =>
      (if negative then -1.0 else 1.0) * Whole(digits) as real * Power10(exponent - |digits|)
  }

  /** The decimal digits of a number. */
  function DigitsOf(n: nat): (r: seq<nat>)
    ensures |r| > 0 && forall i :: 0 <= i < |r| ==> r[i] < 10
  {
    if n < 10 then [n] else DigitsOf(n / 10) + [n % 10]
  }

  function DropTrailingZeros(digits: seq<nat>): seq<nat> {
    if digits != [] && digits[|digits| - 1] == 0 then DropTrailingZeros(digits[..|digits| - 1]) else digits
  }

  /* ---------- values ---------- */

  datatype Json =
    | Null
    | Bool(b: bool)
    | Num(n: Number)
    | Str(s: string)
    | Arr(items: seq<Json>)
    | Obj(fields: seq<Field>)

  /** An own property; an object lists its properties in insertion order. */
  datatype Field = Field(name: string, value: Json)

  function Lookup(fields: seq<Field>, name: string): (r: Option<Json>)
    ensures r.Some? ==> exists i :: 0 <= i < |fields| && fields[i] == Field(name, r.value)
    ensures r.None? ==> forall i :: 0 <= i < |fields| ==> fields[i].name != name
  {
    if fields == [] then None
    else if fields[0].name == name then Some(fields[0].value)
    else
      var r := Lookup(fields[1..], name);
      assert r.Some? ==> exists i :: 0 <= i < |fields[1..]| && fields[1..][i] == Field(name, r.value);
      assert forall i :: 0 <= i < |fields[1..]| ==> fields[1..][i] == fields[i + 1];
      assert r.None? ==> forall i :: 1 <= i < |fields| ==> fields[1..][i - 1] == fields[i];
      r
  }

  predicate Distinct(fields: seq<Field>) {
    forall i, j :: 0 <= i < j < |fields| ==> fields[i].name != fields[j].name
  }

  /** What a JavaScript value can be: no object has one name twice, and numbers are in shortest form. */
  predicate WellFormed(j: Json) {
    match j
    case Num(n) => Shortest(n)
    case Arr(items) => forall i :: 0 <= i < |items| ==> WellFormed(items[i])
    case Obj(fields) =>
      && Distinct(fields)
      && forall i :: 0 <= i < |fields| ==> WellFormed(fields[i].value)
    case _ => true
  }

  lemma {:induction false} LookupAt(fields: seq<Field>, i: nat)
    requires Distinct(fields) && i < |fields|
    ensures Lookup(fields, fields[i].name) == Some(fields[i].value)
  {
  }

  /* ---------- deep equality ---------- */

  /** Equal as values, with object members in any order. */
  predicate Same(a: Json, b: Json)
    decreases a
  {
    match a
    case Arr(items) =>
      && b.Arr?
      && |items| == |b.items|
      && forall i :: 0 <= i < |items| ==> Same(items[i], b.items[i])
    case Obj(fields) =>
      && b.Obj?
      && |fields| == |b.fields|
      && forall i :: 0 <= i < |fields| ==>
           var other := Lookup(b.fields, fields[i].name);
           other.Some? && Same(fields[i].value, other.value)
    case _ => a == b
  }

  lemma {:induction false} SameReflexive(a: Json)
    requires WellFormed(a)
    ensures Same(a, a)
  {
    match a
    case Arr(items) =>
      forall i | 0 <= i < |items| ensures Same(items[i], items[i]) {
        SameReflexive(items[i]);
      }
    case Obj(fields) =>
      forall i | 0 <= i < |fields|
        ensures Lookup(fields, fields[i].name).Some?
        ensures Same(fields[i].value, Lookup(fields, fields[i].name).value)
      {
        LookupAt(fields, i);
        SameReflexive(fields[i].value);
      }
    case _ =>
  }
}
