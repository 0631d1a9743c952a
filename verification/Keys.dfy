/** Record keys, their text, and the comparator that orders a flush. */
module Keys {
  import opened Documents
  import opened NumberOrder
  import JsonText
  import Text

  /** A record key: the source accepts numbers and strings. */
  datatype Key = Num(n: Decimal) | Str(s: string)

  /** `String(key)`: the name under which every layer stores the key. */
  function Name(k: Key): string {
    match k
    case Num(n) => JsonText.NumberText(n)
    case Str(s) => s
  }

  /** The sign of a difference, which is all that sorting looks at. */
  function Difference(x: real, y: real): int {
    if x < y then -1 else if x > y then 1 else 0
  }

  /** `compareKeysDeterministic`: numerically for two numbers, by text otherwise. */
  function Compare(a: Key, b: Key): int {
    if a.Num? && b.Num? then Difference(Value(a.n), Value(b.n)) else Text.Compare(Name(a), Name(b))
  }

  /** Both keys are numbers, or both are strings. */
  predicate SameKind(a: Key, b: Key) {
    a.Num? == b.Num?
  }

  /** On keys of one kind the comparator is a strict total order. */
  lemma TotalOnOneKind(a: Key, b: Key, c: Key)
    requires SameKind(a, b) && SameKind(b, c)
    ensures Compare(a, b) == 0 <==> a == b
    ensures Compare(a, b) < 0 <==> Compare(b, a) > 0
    ensures Compare(a, b) < 0 && Compare(b, c) < 0 ==> Compare(a, c) < 0
  {
    if a.Num? {
      if Compare(a, b) == 0 {
        ValueIsInjective(a.n, b.n);
      }
    } else {
      Text.CompareFlips(a.s, b.s);
      if Compare(a, b) < 0 && Compare(b, c) < 0 {
        Text.CompareTransitive(a.s, b.s, c.s);
      }
    }
  }

  /** Two numbers whose texts stand the other way round, with the text of a string between them. */
  predicate Straddled(m: Key, n: Key, s: Key) {
    && m.Num? && n.Num? && s.Str?
    && Value(m.n) < Value(n.n) && Text.Compare(Name(n), s.s) < 0 && Text.Compare(s.s, Name(m)) < 0
  }

  /** Some rotation of the three keys is such a triple. */
  predicate Twisted(a: Key, b: Key, c: Key) {
    Straddled(a, b, c) || Straddled(b, c, a) || Straddled(c, a, b)
  }

  /** A chain a < b < c comes back to c < a exactly when the keys are twisted; it closes to a < c whenever
      they are not, unless a and c are written the same. */
  lemma TransitiveUnlessTwisted(a: Key, b: Key, c: Key)
    requires Compare(a, b) < 0 && Compare(b, c) < 0
    ensures Compare(c, a) < 0 <==> Twisted(a, b, c)
    ensures Compare(a, c) < 0 <==> !Twisted(a, b, c) && Name(a) != Name(c)
  {
    var p, q, r := Name(a), Name(b), Name(c);
    Text.CompareFlips(p, r);
    Text.CompareFlips(p, q);
    Text.CompareFlips(q, r);
    if a.Num? && c.Num? && Compare(a, c) == 0 {
      ValueIsInjective(a.n, c.n);
    }
    if a.Num? && b.Num? && c.Num? {
      if Name(a) == Name(c) {
        TextIsInjective(a.n, c.n);
      }
    } else if !(a.Num? && b.Num?) && !(b.Num? && c.Num?) {
      Text.CompareTransitive(p, q, r);
    }
  }

  /* ---------- keys that have an order ---------- */

  /** Different keys are different rows: none is the number that another one writes out. */
  ghost predicate NamedApart(keys: set<Key>) {
    forall a, b {:trigger Name(a), Name(b)} :: a in keys && b in keys && Name(a) == Name(b) ==> a == b
  }

  /** No string among the keys has its text between those of two numbers that stand the other way round. */
  ghost predicate Straight(keys: set<Key>) {
    forall m, n, s {:trigger Straddled(m, n, s)} :: m in keys && n in keys && s in keys ==> !Straddled(m, n, s)
  }

  lemma ComparesAsNamed(keys: set<Key>, a: Key, b: Key)
    requires NamedApart(keys) && a in keys && b in keys
    ensures Compare(a, b) == 0 <==> a == b
    ensures Compare(a, b) < 0 <==> Compare(b, a) > 0
  {
    Text.CompareFlips(Name(a), Name(b));
    if a.Num? && b.Num? && Compare(a, b) == 0 {
      ValueIsInjective(a.n, b.n);
    }
  }

  /** On keys that are straight the comparator is a strict total order. */
  lemma TotalOnStraight(keys: set<Key>, a: Key, b: Key, c: Key)
    requires NamedApart(keys) && Straight(keys) && a in keys && b in keys && c in keys
    ensures Compare(a, b) == 0 <==> a == b
    ensures Compare(a, b) < 0 <==> Compare(b, a) > 0
    ensures Compare(a, b) < 0 && Compare(b, c) < 0 ==> Compare(a, c) < 0
  {
    ComparesAsNamed(keys, a, b);
    if Compare(a, b) < 0 && Compare(b, c) < 0 {
      TransitiveUnlessTwisted(a, b, c);
      assert !Straddled(a, b, c) && !Straddled(b, c, a) && !Straddled(c, a, b);
      ComparesAsNamed(keys, b, c);
    }
  }

  lemma AtMostThenBelow(keys: set<Key>, a: Key, b: Key, c: Key)
    requires NamedApart(keys) && Straight(keys) && a in keys && b in keys && c in keys
    requires Compare(a, b) <= 0 && Compare(b, c) < 0
    ensures Compare(a, c) <= 0
  {
    TotalOnStraight(keys, a, b, c);
  }

  lemma NotBelowThenAtMost(keys: set<Key>, a: Key, b: Key)
    requires NamedApart(keys) && a in keys && b in keys && Compare(a, b) >= 0
    ensures Compare(b, a) <= 0
  {
    ComparesAsNamed(keys, a, b);
    ComparesAsNamed(keys, b, a);
  }

  /** None of the keys is above `k`. */
  ghost predicate AtMost(some: set<Key>, k: Key) {
    forall x :: x in some ==> Compare(x, k) <= 0
  }

  lemma {:induction false} Greatest(keys: set<Key>, some: set<Key>) returns (k: Key)
    requires NamedApart(keys) && Straight(keys) && some <= keys && some != {}
    ensures k in some && AtMost(some, k)
    decreases |some|
  {
    var x :| x in some;
    ComparesAsNamed(keys, x, x);
    if some == {x} {
      k := x;
    } else {
      var rest := some - {x};
      k := Greatest(keys, rest);
      if Compare(k, x) < 0 {
        forall y | y in rest ensures Compare(y, x) <= 0 {
          AtMostThenBelow(keys, y, k, x);
        }
        k := x;
      } else {
        NotBelowThenAtMost(keys, k, x);
      }
    }
  }

  /** Keys of one kind are straight and named apart. */
  lemma OneKindIsStraight(keys: set<Key>, numbers: bool)
    requires forall k :: k in keys ==> k.Num? == numbers
    ensures NamedApart(keys) && Straight(keys)
  {
    forall a, b | a in keys && b in keys && Name(a) == Name(b) ensures a == b {
      if numbers {
        TextIsInjective(a.n, b.n);
      }
    }
  }

  /** A straddled triple is a cycle. */
  lemma StraddledIsACycle(m: Key, n: Key, s: Key)
    requires Straddled(m, n, s)
    ensures Compare(m, n) < 0 && Compare(n, s) < 0 && Compare(s, m) < 0
    ensures Name(m) != Name(n) && Name(n) != Name(s) && Name(s) != Name(m)
  {
    Text.CompareTransitive(Name(n), s.s, Name(m));
  }

  /* ---------- keys that may name one row twice ---------- */

  /** The rows that the keys address: a number and the string that writes it out are one row. */
  function Rows(keys: set<Key>): set<string> {
    set k | k in keys :: Name(k)
  }

  /** Two numbers whose texts stand the other way round, with a string between them or at an end. */
  predicate Tangled(m: Key, n: Key, s: Key) {
    && m.Num? && n.Num? && s.Str?
    && Value(m.n) < Value(n.n) && Text.Compare(Name(n), s.s) <= 0 && Text.Compare(s.s, Name(m)) <= 0
  }

  ghost predicate Untangled(keys: set<Key>) {
    forall m, n, s {:trigger Tangled(m, n, s)} :: m in keys && n in keys && s in keys ==> !Tangled(m, n, s)
  }

  /** A row's place in the order: that of the number that addresses it, if one does, or else of its text. */
  ghost function Place(keys: set<Key>, row: string): (k: Key)
    ensures Name(k) == row
    ensures k.Num? ==> k in keys
    ensures k.Str? ==> forall n :: n in keys && n.Num? ==> Name(n) != row
  {
    if n :| n in keys && n.Num? && Name(n) == row then n else Key.Str(row)
  }

  ghost function Places(keys: set<Key>): set<Key> {
    set k | k in keys :: Place(keys, Name(k))
  }

  lemma NumberIsItsPlace(keys: set<Key>, n: Key)
    requires n in keys && n.Num?
    ensures Place(keys, Name(n)) == n
  {
    var k := Place(keys, Name(n));
    TextIsInjective(k.n, n.n);
  }

  /** Places are one for each row, and untangled keys have straight places. */
  lemma PlacesAreStraight(keys: set<Key>)
    requires Untangled(keys)
    ensures NamedApart(Places(keys)) && Straight(Places(keys))
  {
    forall m, n, s | m in Places(keys) && n in Places(keys) && s in Places(keys) ensures !Straddled(m, n, s) {
      if m.Num? && n.Num? && s.Str? {
        var k :| k in keys && Place(keys, Name(k)) == s;
        assert k == s;
        assert !Tangled(m, n, s);
      }
    }
  }

  lemma NumbersInPlace(keys: set<Key>, m: Key, n: Key, s: Key)
    requires Untangled(keys) && m in keys && n in keys && s in keys && m.Num? && n.Num? && s.Str?
    requires Text.Compare(Name(m), Name(n)) <= 0 && (s.s == Name(m) || s.s == Name(n))
    ensures Compare(m, n) <= 0
  {
    assert !Tangled(n, m, s);
  }

  /** Keys in order are rows in order: a sorted batch visits places that ascend, however it writes its keys. */
  lemma OrderIsOfPlaces(keys: set<Key>, a: Key, b: Key)
    requires Untangled(keys) && a in keys && b in keys && Compare(a, b) <= 0
    ensures Compare(Place(keys, Name(a)), Place(keys, Name(b))) <= 0
  {
    var p, q := Place(keys, Name(a)), Place(keys, Name(b));
    if a.Num? {
      NumberIsItsPlace(keys, a);
    }
    if b.Num? {
      NumberIsItsPlace(keys, b);
    }
    if p.Num? && q.Num? && !(a.Num? && b.Num?) {
      NumbersInPlace(keys, p, q, if a.Str? then a else b);
    }
  }

  ghost function RowCompare(keys: set<Key>, a: string, b: string): int {
    Compare(Place(keys, a), Place(keys, b))
  }

  /** The rows of untangled keys have a strict total order. */
  lemma RowsAreOrdered(keys: set<Key>, a: string, b: string, c: string)
    requires Untangled(keys) && a in Rows(keys) && b in Rows(keys) && c in Rows(keys)
    ensures RowCompare(keys, a, b) == 0 <==> a == b
    ensures RowCompare(keys, a, b) < 0 <==> RowCompare(keys, b, a) > 0
    ensures RowCompare(keys, a, b) < 0 && RowCompare(keys, b, c) < 0 ==> RowCompare(keys, a, c) < 0
  {
    PlacesAreStraight(keys);
    TotalOnStraight(Places(keys), Place(keys, a), Place(keys, b), Place(keys, c));
  }

  lemma EqualKeysAreOneRow(a: Key, b: Key)
    requires Compare(a, b) == 0
    ensures Name(a) == Name(b)
  {
    if a.Num? && b.Num? {
      ValueIsInjective(a.n, b.n);
    }
  }

  lemma BelowIsAnotherRow(a: Key, b: Key)
    requires Compare(a, b) < 0
    ensures Name(a) != Name(b)
  {
    if a.Num? && b.Num? && Name(a) == Name(b) {
      TextIsInjective(a.n, b.n);
    }
  }

  const TWO := Key.Num(Finite(false, [2], 1))

  const TEN := Key.Num(Finite(false, [1], 2))

  const ONE_A := Key.Str("1a")

  const TWO_TEXT := Key.Str("2")

  const TEN_TEXT := Key.Str("10")

  lemma SmallNumbers()
    ensures Value(TWO.n) == 2.0 && Value(TEN.n) == 10.0
    ensures Name(TWO) == "2" && Name(TEN) == "10"
  {
    assert [2][..0] == [] && Whole([2]) == 2;
    assert [1][..0] == [] && Whole([1]) == 1;
    assert Power10(1) == 10.0 * Power10(0);
    assert [2] + JsonText.Zeros(0) == [2];
    assert [1] + JsonText.Zeros(1) == [1, 0];
    assert JsonText.DigitText([2]) == "2";
    assert JsonText.DigitText([1, 0]) == "10";
  }

  /** Such keys exist: 2 < 10 < "1a" < 2. */
  lemma MixedKeysCycle()
    ensures Compare(TWO, TEN) < 0
    ensures Compare(TEN, ONE_A) < 0
    ensures Compare(ONE_A, TWO) < 0
    ensures Straddled(TWO, TEN, ONE_A)
  {
    SmallNumbers();
    assert "10"[1..] == "0" && "1a"[1..] == "a";
  }

  /** 2 < 10 but "10" < "2", and they are the same two rows. */
  lemma TwoSpellings()
    ensures Compare(TWO, TEN) < 0 && Compare(TEN_TEXT, TWO_TEXT) < 0
    ensures Name(TWO) == Name(TWO_TEXT) == "2" && Name(TEN) == Name(TEN_TEXT) == "10"
  {
    SmallNumbers();
  }
}
