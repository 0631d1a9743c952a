/** Numbers by value: two shortest forms of one value are one form. */
module NumberOrder {
  import opened Documents
  import JsonRoundTrip
  import JsonText

  /** A number in its shortest form. */
  type Decimal = n: Number | Shortest(n) witness Zero

  predicate Decimals(digits: seq<nat>) {
    forall i :: 0 <= i < |digits| ==> digits[i] < 10
  }

  /** The digits of a shortest form. */
  predicate Trimmed(digits: seq<nat>) {
    digits != [] && digits[0] != 0 && digits[|digits| - 1] != 0 && Decimals(digits)
  }

  function TenTo(d: nat): nat {
    if d == 0 then 1 else 10 * TenTo(d - 1)
  }

  /* ---------- powers ---------- */

  lemma {:induction false} PowerIsPositive(e: int)
    ensures Power10(e) > 0.0
    decreases if e < 0 then -e else e
  {
    if e > 0 {
      PowerIsPositive(e - 1);
    } else if e < 0 {
      PowerIsPositive(e + 1);
    }
  }

  lemma {:induction false} PowerOfSum(e: int, d: nat)
    ensures Power10(e + d) == Power10(e) * TenTo(d) as real
    decreases d
  {
    if d > 0 {
      PowerOfSum(e, d - 1);
      assert Power10(e + d) == 10.0 * Power10(e + d - 1);
      TensMove(Power10(e), TenTo(d - 1));
    }
  }

  lemma TensMove(p: real, t: nat)
    ensures 10.0 * (p * t as real) == p * (10 * t) as real
  {
    assert (10 * t) as real == 10.0 * t as real;
  }

  /* ---------- digits ---------- */

  lemma {:induction false} WholeIsPositive(digits: seq<nat>)
    requires digits != [] && digits[0] != 0
    ensures Whole(digits) >= 1
    decreases |digits|
  {
    if |digits| > 1 {
      WholeIsPositive(digits[..|digits| - 1]);
    }
  }

  lemma LastDigit(digits: seq<nat>)
    requires digits != [] && Decimals(digits)
    ensures Whole(digits) % 10 == digits[|digits| - 1] && Whole(digits) / 10 == Whole(digits[..|digits| - 1])
  {
  }

  /** Digits without a leading zero are those of one number only. */
  lemma {:induction false} WholeIsInjective(a: seq<nat>, b: seq<nat>)
    requires a != [] && b != [] && a[0] != 0 && b[0] != 0 && Decimals(a) && Decimals(b)
    requires Whole(a) == Whole(b)
    ensures a == b
    decreases |a|
  {
    LastDigit(a);
    LastDigit(b);
    var x, y := a[..|a| - 1], b[..|b| - 1];
    assert a == x + [a[|a| - 1]] && b == y + [b[|b| - 1]];
    assert (forall i :: 0 <= i < |x| ==> x[i] == a[i]) && forall i :: 0 <= i < |y| ==> y[i] == b[i];
    if x != [] && y != [] {
      WholeIsInjective(x, y);
    } else if x != [] {
      WholeIsPositive(x);
    } else if y != [] {
      WholeIsPositive(y);
    }
  }

  /* ---------- values ---------- */

  lemma Cancels(p: real, u: int, v: int)
    requires p > 0.0 && u as real * p == v as real * p
    ensures u == v
  {
  }

  lemma Regroup(w: nat, p: real, t: nat)
    ensures w as real * (p * t as real) == (w * t) as real * p
  {
    assert (w * t) as real == w as real * t as real;
  }

  /** `w` times ten to the exponent. */
  function Scaled(w: nat, exponent: int): real {
    w as real * Power10(exponent)
  }

  lemma ScaledUp(u: nat, v: nat, p: real, t: nat, q: real)
    requires p > 0.0 && q == p * t as real && u as real * q == v as real * p
    ensures v == u * t
  {
    Regroup(u, p, t);
    Cancels(p, u * t, v);
  }

  lemma LargerExponent(u: nat, x: int, v: nat, y: int)
    requires Scaled(u, x) == Scaled(v, y) && y <= x
    ensures v == u * TenTo(x - y)
  {
    PowerIsPositive(y);
    PowerOfSum(y, x - y);
    assert y + (x - y) == x;
    ScaledUp(u, v, Power10(y), TenTo(x - y), Power10(x));
  }

  lemma TimesTen(w: nat, t: nat)
    ensures (w * (10 * t)) % 10 == 0
  {
    assert w * (10 * t) == 10 * (w * t);
  }

  lemma TenTimesEndsInZero(w: nat, d: nat)
    requires d > 0
    ensures (w * TenTo(d)) % 10 == 0
  {
    TimesTen(w, TenTo(d - 1));
  }

  /** Without zeros at the end a whole number is not ten times another. */
  lemma ExponentsAgree(a: seq<nat>, x: int, b: seq<nat>, y: int)
    requires Trimmed(a) && Trimmed(b) && Scaled(Whole(a), x) == Scaled(Whole(b), y)
    ensures x <= y
  {
    if x > y {
      LargerExponent(Whole(a), x, Whole(b), y);
      TenTimesEndsInZero(Whole(a), x - y);
      LastDigit(b);
    }
  }

  lemma MagnitudeIsInjective(a: seq<nat>, x: int, b: seq<nat>, y: int)
    requires Trimmed(a) && Trimmed(b)
    requires Scaled(Whole(a), x - |a|) == Scaled(Whole(b), y - |b|)
    ensures a == b && x == y
  {
    ExponentsAgree(a, x - |a|, b, y - |b|);
    ExponentsAgree(b, y - |b|, a, x - |a|);
    LargerExponent(Whole(a), x - |a|, Whole(b), y - |b|);
    WholeIsInjective(a, b);
  }

  lemma ScaledIsPositive(a: seq<nat>, x: int)
    requires Trimmed(a)
    ensures Scaled(Whole(a), x) > 0.0
  {
    WholeIsPositive(a);
    PowerIsPositive(x);
  }

  function Magnitude(n: Number): real
    requires n.Finite?
  {
    Scaled(Whole(n.digits), n.exponent - |n.digits|)
  }

  lemma SignedValue(n: Number)
    requires n.Finite? && Shortest(n)
    ensures Value(n) == (if n.negative then -Magnitude(n) else Magnitude(n)) && Magnitude(n) > 0.0
  {
    ScaledIsPositive(n.digits, n.exponent - |n.digits|);
    Unit(Whole(n.digits) as real, Power10(n.exponent - |n.digits|));
  }

  lemma Unit(w: real, p: real)
    ensures 1.0 * w * p == w * p && -1.0 * w * p == -(w * p)
  {
  }

  lemma OppositeOrSame(p: real, q: real, negative: bool, other: bool)
    requires p > 0.0 && q > 0.0
    requires (if negative then -p else p) == (if other then -q else q)
    ensures negative == other && p == q
  {
  }

  lemma FiniteIsInjective(m: Number, n: Number)
    requires Shortest(m) && Shortest(n) && m.Finite? && n.Finite? && Value(m) == Value(n)
    ensures m == n
  {
    SignedValue(m);
    SignedValue(n);
    OppositeOrSame(Magnitude(m), Magnitude(n), m.negative, n.negative);
    MagnitudeIsInjective(m.digits, m.exponent, n.digits, n.exponent);
  }

  /** One value, one form. */
  lemma ValueIsInjective(m: Number, n: Number)
    requires Shortest(m) && Shortest(n) && Value(m) == Value(n)
    ensures m == n
  {
    if m.Finite? && n.Finite? {
      FiniteIsInjective(m, n);
    } else if m.Finite? {
      SignedValue(m);
    } else if n.Finite? {
      SignedValue(n);
    }
  }

  /** One text, one number. */
  lemma TextIsInjective(m: Number, n: Number)
    requires Shortest(m) && Shortest(n) && JsonText.NumberText(m) == JsonText.NumberText(n)
    ensures m == n
  {
    JsonRoundTrip.NumberReadsBack(m, "");
    JsonRoundTrip.NumberReadsBack(n, "");
  }
}
