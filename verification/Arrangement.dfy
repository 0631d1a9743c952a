/** Putting the members of every object into one order: equal values, and only those, come out alike. */
module Arrangement {
  import opened Basics
  import opened Documents

  /** An order of member names. */
  type Order = (string, string) -> bool

  ghost predicate StrictTotal(less: Order) {
    && (forall a :: !less(a, a))
    && (forall a, b, c :: less(a, b) && less(b, c) ==> less(a, c))
    && (forall a, b :: a != b ==> less(a, b) || less(b, a))
  }

  function Insert(less: Order, f: Field, fields: seq<Field>): seq<Field> {
    if fields == [] then [f]
    else if less(f.name, fields[0].name) then [f] + fields
    else [fields[0]] + Insert(less, f, fields[1..])
  }

  function Sort(less: Order, fields: seq<Field>): seq<Field> {
    if fields == [] then [] else Insert(less, fields[0], Sort(less, fields[1..]))
  }

  /** Members arranged one by one, those under a dropped name left out. */
  function ArrangeFields(less: Order, dropped: set<string>, fields: seq<Field>): seq<Field>
    decreases fields
  {
    if fields == [] then []
    else if fields[0].name in dropped then ArrangeFields(less, dropped, fields[1..])
    else [ArrangeField(less, dropped, fields[0])] + ArrangeFields(less, dropped, fields[1..])
  }

  function ArrangeField(less: Order, dropped: set<string>, f: Field): Field
    decreases f
  {
    Field(f.name, Arrange(less, dropped, f.value))
  }

  /** `j` with every object's members in order and without the dropped names. */
  function Arrange(less: Order, dropped: set<string>, j: Json): Json
    decreases j
  {
    match j
    case Arr(items) => Arr(seq(|items|, i requires 0 <= i < |items| => Arrange(less, dropped, items[i])))
    case Obj(fields) => Obj(Sort(less, ArrangeFields(less, dropped, fields)))
    case _ => j
  }

  /** No object in `j` has a member with one of the names. */
  predicate Free(names: set<string>, j: Json) {
    match j
    case Arr(items) => forall i :: 0 <= i < |items| ==> Free(names, items[i])
    case Obj(fields) => forall i :: 0 <= i < |fields| ==> fields[i].name !in names && Free(names, fields[i].value)
    case _ => true
  }

  /** `j` without its members under the names, at every level. */
  function Without(names: set<string>, j: Json): Json
    decreases j
  {
    match j
    case Arr(items) => Arr(seq(|items|, i requires 0 <= i < |items| => Without(names, items[i])))
    case Obj(fields) => Obj(FieldsWithout(names, fields))
    case _ => j
  }

  function FieldsWithout(names: set<string>, fields: seq<Field>): seq<Field>
    decreases fields
  {
    if fields == [] then []
    else if fields[0].name in names then FieldsWithout(names, fields[1..])
    else [FieldWithout(names, fields[0])] + FieldsWithout(names, fields[1..])
  }

  function FieldWithout(names: set<string>, f: Field): Field
    decreases f
  {
    Field(f.name, Without(names, f.value))
  }

  /* ---------- a sorted list is determined by what it looks up ---------- */

  predicate Above(less: Order, name: string, fields: seq<Field>) {
    forall i :: 0 <= i < |fields| ==> less(name, fields[i].name)
  }

  predicate Ascending(less: Order, fields: seq<Field>) {
    fields != [] ==> Above(less, fields[0].name, fields[1..]) && Ascending(less, fields[1..])
  }

  lemma {:induction false} InsertStaysAbove(less: Order, name: string, f: Field, fields: seq<Field>)
    requires Above(less, name, fields) && less(name, f.name)
    ensures Above(less, name, Insert(less, f, fields))
  {
    if fields != [] && !less(f.name, fields[0].name) {
      assert Above(less, name, fields[1..]);
      InsertStaysAbove(less, name, f, fields[1..]);
    }
  }

  lemma {:induction false} InsertAscends(less: Order, f: Field, fields: seq<Field>)
    requires StrictTotal(less) && Ascending(less, fields) && Lookup(fields, f.name).None?
    ensures Ascending(less, Insert(less, f, fields))
  {
    if fields == [] {
      assert Insert(less, f, fields)[1..] == [];
    } else if less(f.name, fields[0].name) {
      assert ([f] + fields)[1..] == fields;
      assert forall i :: 1 <= i < |fields| ==> fields[i] == fields[1..][i - 1];
      assert Above(less, f.name, fields);
    } else {
      var rest := Insert(less, f, fields[1..]);
      InsertAscends(less, f, fields[1..]);
      InsertStaysAbove(less, fields[0].name, f, fields[1..]);
      assert ([fields[0]] + rest)[1..] == rest;
    }
  }

  lemma {:induction false} InsertLooksUp(less: Order, f: Field, fields: seq<Field>, name: string)
    requires Lookup(fields, f.name).None?
    ensures Lookup(Insert(less, f, fields), name) == if name == f.name then Some(f.value) else Lookup(fields, name)
  {
    if fields == [] {
      assert Insert(less, f, fields)[1..] == [];
    } else if less(f.name, fields[0].name) {
      assert ([f] + fields)[1..] == fields;
    } else {
      InsertLooksUp(less, f, fields[1..], name);
      assert ([fields[0]] + Insert(less, f, fields[1..]))[1..] == Insert(less, f, fields[1..]);
    }
  }

  lemma HeadIsFresh(fields: seq<Field>)
    requires Distinct(fields) && fields != []
    ensures Lookup(fields[1..], fields[0].name).None? && Distinct(fields[1..])
  {
  }

  lemma {:induction false} SortLooksUp(less: Order, fields: seq<Field>, name: string)
    requires Distinct(fields)
    ensures Lookup(Sort(less, fields), name) == Lookup(fields, name)
  {
    if fields != [] {
      HeadIsFresh(fields);
      SortLooksUp(less, fields[1..], fields[0].name);
      SortLooksUp(less, fields[1..], name);
      InsertLooksUp(less, fields[0], Sort(less, fields[1..]), name);
    }
  }

  lemma {:induction false} SortAscends(less: Order, fields: seq<Field>)
    requires StrictTotal(less) && Distinct(fields)
    ensures Ascending(less, Sort(less, fields))
  {
    if fields != [] {
      HeadIsFresh(fields);
      SortAscends(less, fields[1..]);
      SortLooksUp(less, fields[1..], fields[0].name);
      InsertAscends(less, fields[0], Sort(less, fields[1..]));
    }
  }

  /** Nothing above a name is that name. */
  lemma {:induction false} AboveIsElsewhere(less: Order, name: string, fields: seq<Field>)
    requires StrictTotal(less) && Above(less, name, fields)
    ensures Lookup(fields, name).None?
  {
  }

  lemma HeadIsLeast(less: Order, fields: seq<Field>, name: string)
    requires Ascending(less, fields) && Lookup(fields, name).Some?
    ensures fields != [] && (name == fields[0].name || less(fields[0].name, name))
  {
  }

  lemma {:induction false} AscendingIsUnique(less: Order, a: seq<Field>, b: seq<Field>)
    requires StrictTotal(less) && Ascending(less, a) && Ascending(less, b)
    requires forall n :: Lookup(a, n) == Lookup(b, n)
    ensures a == b
  {
    if a == [] || b == [] {
      assert a != [] ==> Lookup(a, a[0].name).Some?;
      assert b != [] ==> Lookup(b, b[0].name).Some?;
    } else {
      HeadIsLeast(less, a, b[0].name);
      HeadIsLeast(less, b, a[0].name);
      assert a[0] == b[0];
      AboveIsElsewhere(less, a[0].name, a[1..]);
      AboveIsElsewhere(less, b[0].name, b[1..]);
      forall n ensures Lookup(a[1..], n) == Lookup(b[1..], n) {
        assert Lookup(a, n) == Lookup(b, n);
      }
      AscendingIsUnique(less, a[1..], b[1..]);
      assert a == [a[0]] + a[1..] && b == [b[0]] + b[1..];
    }
  }

  /* ---------- arranging members keeps names apart and looks up the same ---------- */

  lemma {:induction false} ArrangedFieldsLookUp(less: Order, dropped: set<string>, fields: seq<Field>, name: string)
    ensures Lookup(ArrangeFields(less, dropped, fields), name)
         == var found := Lookup(fields, name);
            if name in dropped || found.None? then None else Some(Arrange(less, dropped, found.value))
  {
    if fields != [] {
      var rest := ArrangeFields(less, dropped, fields[1..]);
      ArrangedFieldsLookUp(less, dropped, fields[1..], name);
      if fields[0].name !in dropped {
        assert ArrangeFields(less, dropped, fields)[1..] == rest;
      }
    }
  }

  lemma {:induction false} ArrangedFieldsDistinct(less: Order, dropped: set<string>, fields: seq<Field>)
    requires Distinct(fields)
    ensures Distinct(ArrangeFields(less, dropped, fields))
  {
    if fields != [] {
      var rest := ArrangeFields(less, dropped, fields[1..]);
      HeadIsFresh(fields);
      ArrangedFieldsDistinct(less, dropped, fields[1..]);
      ArrangedFieldsLookUp(less, dropped, fields[1..], fields[0].name);
      assert forall i :: 0 <= i < |rest| ==> rest[i].name != fields[0].name;
    }
  }

  /** What an arranged object looks up. */
  lemma ArrangedObjectLooksUp(less: Order, dropped: set<string>, fields: seq<Field>, name: string)
    requires StrictTotal(less) && Distinct(fields)
    ensures var out := Arrange(less, dropped, Obj(fields)).fields;
            && Ascending(less, out)
            && Lookup(out, name)
            == var found := Lookup(fields, name);
               if name in dropped || found.None? then None else Some(Arrange(less, dropped, found.value))
  {
    ArrangedFieldsDistinct(less, dropped, fields);
    SortAscends(less, ArrangeFields(less, dropped, fields));
    SortLooksUp(less, ArrangeFields(less, dropped, fields), name);
    ArrangedFieldsLookUp(less, dropped, fields, name);
  }

  /* ---------- counting names ---------- */

  function Names(fields: seq<Field>): set<string> {
    set i | 0 <= i < |fields| :: fields[i].name
  }

  lemma {:induction false} NamesCount(fields: seq<Field>)
    requires Distinct(fields)
    ensures |Names(fields)| == |fields|
  {
    if fields != [] {
      HeadIsFresh(fields);
      NamesCount(fields[1..]);
      assert Names(fields) == {fields[0].name} + Names(fields[1..]) by {
        assert forall i :: 1 <= i < |fields| ==> fields[i] == fields[1..][i - 1];
      }
      assert fields[0].name !in Names(fields[1..]);
    }
  }

  lemma AsManyNamesAreTheSame(a: set<string>, b: set<string>)
    requires a <= b && |a| == |b|
    ensures a == b
  {
    assert |b - a| == |b| - |a| by {
      assert b == a + (b - a);
    }
  }

  lemma FoundIsNamed(fields: seq<Field>, name: string)
    ensures Lookup(fields, name).Some? <==> name in Names(fields)
  {
  }

  /** As many members, and every one of `a` found in `b`: then every one of `b` is found in `a`. */
  lemma MembersAreMutual(a: seq<Field>, b: seq<Field>)
    requires Distinct(a) && Distinct(b) && |a| == |b|
    requires forall i :: 0 <= i < |a| ==> Lookup(b, a[i].name).Some?
    ensures forall n :: Lookup(a, n).Some? <==> Lookup(b, n).Some?
  {
    NamesCount(a);
    NamesCount(b);
    forall n | n in Names(a) ensures n in Names(b) {
      FoundIsNamed(b, n);
    }
    AsManyNamesAreTheSame(Names(a), Names(b));
    forall n ensures Lookup(a, n).Some? <==> Lookup(b, n).Some? {
      FoundIsNamed(a, n);
      FoundIsNamed(b, n);
    }
  }

  /* ---------- equal values are arranged alike ---------- */

  lemma {:induction false} SameIsArrangedAlike(less: Order, dropped: set<string>, a: Json, b: Json)
    requires StrictTotal(less)
    requires WellFormed(a) && WellFormed(b) && Free(dropped, a) && Free(dropped, b)
    requires Same(a, b)
    ensures Arrange(less, dropped, a) == Arrange(less, dropped, b)
    decreases a
  {
    match a
    case Arr(items) =>
      forall i | 0 <= i < |items| ensures Arrange(less, dropped, items[i]) == Arrange(less, dropped, b.items[i]) {
        SameIsArrangedAlike(less, dropped, items[i], b.items[i]);
      }
    case Obj(fields) => SameObjectsAreArrangedAlike(less, dropped, fields, b.fields);
    case _ =>
  }

  lemma {:induction false} SameObjectsAreArrangedAlike(less: Order, dropped: set<string>, a: seq<Field>, b: seq<Field>)
    requires StrictTotal(less)
    requires WellFormed(Obj(a)) && WellFormed(Obj(b)) && Free(dropped, Obj(a)) && Free(dropped, Obj(b))
    requires Same(Obj(a), Obj(b))
    ensures Arrange(less, dropped, Obj(a)) == Arrange(less, dropped, Obj(b))
    decreases a
  {
    var x, y := Arrange(less, dropped, Obj(a)).fields, Arrange(less, dropped, Obj(b)).fields;
    MembersAreMutual(a, b);
    forall n ensures Lookup(x, n) == Lookup(y, n) {
      ArrangedObjectLooksUp(less, dropped, a, n);
      ArrangedObjectLooksUp(less, dropped, b, n);
      if Lookup(a, n).Some? {
        var i :| 0 <= i < |a| && a[i] == Field(n, Lookup(a, n).value);
        var j :| 0 <= j < |b| && b[j] == Field(n, Lookup(b, n).value);
        SameIsArrangedAlike(less, dropped, a[i].value, b[j].value);
      }
    }
    ArrangedObjectLooksUp(less, dropped, a, "");
    ArrangedObjectLooksUp(less, dropped, b, "");
    AscendingIsUnique(less, x, y);
  }

  lemma {:induction false} ArrangedKeepsCount(less: Order, dropped: set<string>, fields: seq<Field>)
    requires forall i :: 0 <= i < |fields| ==> fields[i].name !in dropped
    ensures |ArrangeFields(less, dropped, fields)| == |fields|
  {
    if fields != [] {
      assert forall i :: 0 <= i < |fields[1..]| ==> fields[1..][i] == fields[i + 1];
      ArrangedKeepsCount(less, dropped, fields[1..]);
    }
  }

  lemma {:induction false} InsertCounts(less: Order, f: Field, fields: seq<Field>)
    ensures |Insert(less, f, fields)| == |fields| + 1
  {
    if fields != [] && !less(f.name, fields[0].name) {
      InsertCounts(less, f, fields[1..]);
    }
  }

  lemma {:induction false} SortCounts(less: Order, fields: seq<Field>)
    ensures |Sort(less, fields)| == |fields|
  {
    if fields != [] {
      SortCounts(less, fields[1..]);
      InsertCounts(less, fields[0], Sort(less, fields[1..]));
    }
  }

  lemma {:induction false} ArrangedAlikeIsSame(less: Order, dropped: set<string>, a: Json, b: Json)
    requires StrictTotal(less)
    requires WellFormed(a) && WellFormed(b) && Free(dropped, a) && Free(dropped, b)
    requires Arrange(less, dropped, a) == Arrange(less, dropped, b)
    ensures Same(a, b)
    decreases a
  {
    match a
    case Arr(items) =>
      var x, y := Arrange(less, dropped, a).items, Arrange(less, dropped, b).items;
      forall i | 0 <= i < |items| ensures Same(items[i], b.items[i]) {
        assert x[i] == y[i];
        ArrangedAlikeIsSame(less, dropped, items[i], b.items[i]);
      }
    case Obj(fields) => ArrangedObjectsAreSame(less, dropped, fields, b.fields);
    case _ =>
  }

  lemma {:induction false} ArrangedObjectsAreSame(less: Order, dropped: set<string>, a: seq<Field>, b: seq<Field>)
    requires StrictTotal(less)
    requires WellFormed(Obj(a)) && WellFormed(Obj(b)) && Free(dropped, Obj(a)) && Free(dropped, Obj(b))
    requires Arrange(less, dropped, Obj(a)) == Arrange(less, dropped, Obj(b))
    ensures Same(Obj(a), Obj(b))
    decreases a
  {
    SortCounts(less, ArrangeFields(less, dropped, a));
    SortCounts(less, ArrangeFields(less, dropped, b));
    ArrangedKeepsCount(less, dropped, a);
    ArrangedKeepsCount(less, dropped, b);
    forall i | 0 <= i < |a|
      ensures Lookup(b, a[i].name).Some? && Same(a[i].value, Lookup(b, a[i].name).value)
    {
      var n := a[i].name;
      LookupAt(a, i);
      ArrangedObjectLooksUp(less, dropped, a, n);
      ArrangedObjectLooksUp(less, dropped, b, n);
      var j :| 0 <= j < |b| && b[j] == Field(n, Lookup(b, n).value);
      ArrangedAlikeIsSame(less, dropped, a[i].value, b[j].value);
    }
  }

  /** Two values are arranged alike exactly when they are equal, members in any order. */
  lemma ArrangedAlikeExactlyWhenSame(less: Order, dropped: set<string>, a: Json, b: Json)
    requires StrictTotal(less)
    requires WellFormed(a) && WellFormed(b) && Free(dropped, a) && Free(dropped, b)
    ensures Arrange(less, dropped, a) == Arrange(less, dropped, b) <==> Same(a, b)
  {
    if Same(a, b) {
      SameIsArrangedAlike(less, dropped, a, b);
    }
    if Arrange(less, dropped, a) == Arrange(less, dropped, b) {
      ArrangedAlikeIsSame(less, dropped, a, b);
    }
  }

  lemma {:induction false} FreeOfNothing(j: Json)
    ensures Free({}, j)
  {
    match j
    case Arr(items) => forall i | 0 <= i < |items| ensures Free({}, items[i]) { FreeOfNothing(items[i]); }
    case Obj(fields) => forall i | 0 <= i < |fields| ensures Free({}, fields[i].value) { FreeOfNothing(fields[i].value); }
    case _ =>
  }

  /** Deep equality is symmetric and transitive, although the code looks members up from one side only. */
  lemma SameIsAnEquivalence(less: Order, a: Json, b: Json, c: Json)
    requires StrictTotal(less) && WellFormed(a) && WellFormed(b) && WellFormed(c)
    ensures Same(a, b) <==> Same(b, a)
    ensures Same(a, b) && Same(b, c) ==> Same(a, c)
  {
    FreeOfNothing(a);
    FreeOfNothing(b);
    FreeOfNothing(c);
    ArrangedAlikeExactlyWhenSame(less, {}, a, b);
    ArrangedAlikeExactlyWhenSame(less, {}, b, a);
    ArrangedAlikeExactlyWhenSame(less, {}, b, c);
    ArrangedAlikeExactlyWhenSame(less, {}, a, c);
  }

  /* ---------- what arranging leaves out ---------- */

  lemma {:induction false} FieldsWithoutLookUp(names: set<string>, fields: seq<Field>, name: string)
    ensures Lookup(FieldsWithout(names, fields), name)
         == var found := Lookup(fields, name);
            if name in names || found.None? then None else Some(Without(names, found.value))
  {
    if fields != [] {
      FieldsWithoutLookUp(names, fields[1..], name);
      if fields[0].name !in names {
        assert FieldsWithout(names, fields)[1..] == FieldsWithout(names, fields[1..]);
      }
    }
  }

  lemma {:induction false} FieldsWithoutDistinct(names: set<string>, fields: seq<Field>)
    requires Distinct(fields)
    ensures Distinct(FieldsWithout(names, fields))
  {
    if fields != [] {
      var rest := FieldsWithout(names, fields[1..]);
      HeadIsFresh(fields);
      FieldsWithoutDistinct(names, fields[1..]);
      FieldsWithoutLookUp(names, fields[1..], fields[0].name);
      assert forall i :: 0 <= i < |rest| ==> rest[i].name != fields[0].name;
    }
  }

  predicate Clean(names: set<string>, fields: seq<Field>) {
    forall i :: 0 <= i < |fields| ==>
      fields[i].name !in names && WellFormed(fields[i].value) && Free(names, fields[i].value)
  }

  lemma {:induction false} FieldsWithoutAreClean(names: set<string>, fields: seq<Field>)
    requires forall i :: 0 <= i < |fields| ==> WellFormed(fields[i].value)
    ensures Clean(names, FieldsWithout(names, fields))
    decreases fields
  {
    if fields != [] {
      assert forall i :: 0 <= i < |fields[1..]| ==> fields[1..][i] == fields[i + 1];
      FieldsWithoutAreClean(names, fields[1..]);
      WithoutIsFree(names, fields[0].value);
    }
  }

  /** Nothing under the names is left, and what is left is a proper value. */
  lemma {:induction false} WithoutIsFree(names: set<string>, j: Json)
    requires WellFormed(j)
    ensures WellFormed(Without(names, j)) && Free(names, Without(names, j))
    decreases j
  {
    match j
    case Arr(items) =>
      forall i | 0 <= i < |items| ensures WellFormed(Without(names, items[i])) && Free(names, Without(names, items[i])) {
        WithoutIsFree(names, items[i]);
      }
    case Obj(fields) =>
      FieldsWithoutDistinct(names, fields);
      FieldsWithoutAreClean(names, fields);
    case _ =>
  }

  lemma {:induction false} FieldsWithoutAreArrangedAlike(less: Order, names: set<string>, fields: seq<Field>)
    ensures ArrangeFields(less, names, FieldsWithout(names, fields)) == ArrangeFields(less, names, fields)
    decreases fields
  {
    if fields != [] {
      FieldsWithoutAreArrangedAlike(less, names, fields[1..]);
      if fields[0].name !in names {
        WithoutIsArrangedAlike(less, names, fields[0].value);
        assert FieldsWithout(names, fields)[1..] == FieldsWithout(names, fields[1..]);
      }
    }
  }

  lemma {:induction false} WithoutIsArrangedAlike(less: Order, names: set<string>, j: Json)
    ensures Arrange(less, names, Without(names, j)) == Arrange(less, names, j)
    decreases j
  {
    match j
    case Arr(items) =>
      forall i | 0 <= i < |items| ensures Arrange(less, names, Without(names, items[i])) == Arrange(less, names, items[i]) {
        WithoutIsArrangedAlike(less, names, items[i]);
      }
    case Obj(fields) => FieldsWithoutAreArrangedAlike(less, names, fields);
    case _ =>
  }

  /** For all values: arranged alike exactly when equal once the dropped members are gone. */
  lemma ArrangedAlikeExactlyWhenSameWithout(less: Order, dropped: set<string>, a: Json, b: Json)
    requires StrictTotal(less) && WellFormed(a) && WellFormed(b)
    ensures Arrange(less, dropped, a) == Arrange(less, dropped, b)
       <==> Same(Without(dropped, a), Without(dropped, b))
  {
    WithoutIsFree(dropped, a);
    WithoutIsFree(dropped, b);
    WithoutIsArrangedAlike(less, dropped, a);
    WithoutIsArrangedAlike(less, dropped, b);
    ArrangedAlikeExactlyWhenSame(less, dropped, Without(dropped, a), Without(dropped, b));
  }

  lemma {:induction false} FieldsWithoutNothing(names: set<string>, fields: seq<Field>)
    requires forall i :: 0 <= i < |fields| ==> fields[i].name !in names && Free(names, fields[i].value)
    ensures FieldsWithout(names, fields) == fields
    decreases fields
  {
    if fields != [] {
      assert forall i :: 0 <= i < |fields[1..]| ==> fields[1..][i] == fields[i + 1];
      FieldsWithoutNothing(names, fields[1..]);
      FreeIsUntouched(names, fields[0].value);
    }
  }

  lemma {:induction false} FreeIsUntouched(names: set<string>, j: Json)
    requires Free(names, j)
    ensures Without(names, j) == j
    decreases j
  {
    match j
    case Arr(items) =>
      forall i | 0 <= i < |items| ensures Without(names, items[i]) == items[i] {
        FreeIsUntouched(names, items[i]);
      }
    case Obj(fields) => FieldsWithoutNothing(names, fields);
    case _ =>
  }

  lemma {:induction false} SameIsAsFree(names: set<string>, a: Json, b: Json)
    requires WellFormed(a) && WellFormed(b) && Same(a, b) && Free(names, b)
    ensures Free(names, a)
    decreases a
  {
    match a
    case Arr(items) =>
      forall i | 0 <= i < |items| ensures Free(names, items[i]) {
        SameIsAsFree(names, items[i], b.items[i]);
      }
    case Obj(fields) =>
      forall i | 0 <= i < |fields| ensures fields[i].name !in names && Free(names, fields[i].value) {
        var n := fields[i].name;
        var j :| 0 <= j < |b.fields| && b.fields[j] == Field(n, Lookup(b.fields, n).value);
        SameIsAsFree(names, fields[i].value, b.fields[j].value);
      }
    case _ =>
  }

  /** Leaving members out changes a value exactly when it has such a member somewhere. */
  lemma WithoutIsSameExactlyWhenFree(names: set<string>, j: Json)
    requires WellFormed(j)
    ensures Same(j, Without(names, j)) <==> Free(names, j)
  {
    WithoutIsFree(names, j);
    if Free(names, j) {
      FreeIsUntouched(names, j);
      SameReflexive(j);
    }
    if Same(j, Without(names, j)) {
      SameIsAsFree(names, j, Without(names, j));
    }
  }
}
