/** The key of a cached query: queries that share it parse to filters that accept the same documents. */
module QueryCacheKey {
  import opened Basics
  import opened Documents
  import opened Query
  import opened QueryParser
  import opened Arrangement
  import JsonRoundTrip
  import JsonText
  import Serializer

  /* ---------- operands that are equal compare alike ---------- */

  lemma SameSide(actual: Json, a: Json, b: Json)
    requires WellFormed(actual) && WellFormed(a) && WellFormed(b) && Same(a, b)
    ensures Same(actual, a) <==> Same(actual, b)
  {
    Serializer.CodeUnitOrderIsStrictTotal();
    SameIsAnEquivalence(Serializer.CodeUnitLess, actual, a, b);
    SameIsAnEquivalence(Serializer.CodeUnitLess, actual, b, a);
    SameIsAnEquivalence(Serializer.CodeUnitLess, a, b, a);
  }

  lemma SameListsContainTheSame(actual: Json, a: seq<Json>, b: seq<Json>)
    requires WellFormed(actual) && WellFormed(Arr(a)) && WellFormed(Arr(b)) && Same(Arr(a), Arr(b))
    ensures Contains(a, actual) <==> Contains(b, actual)
    ensures Null in a <==> Null in b
  {
    forall i | 0 <= i < |a|
      ensures Same(actual, a[i]) <==> Same(actual, b[i])
      ensures a[i] == Null <==> b[i] == Null
    {
      SameSide(actual, a[i], b[i]);
    }
  }

  lemma SameOperandsCompareAlike(op: CompareOp, actual: Option<Json>, a: Json, b: Json)
    requires actual.Some? ==> WellFormed(actual.value)
    requires WellFormed(a) && WellFormed(b) && Same(a, b)
    ensures Compare(op, actual, a) <==> Compare(op, actual, b)
  {
    match op
    case Eq => if actual.Some? { SameSide(actual.value, a, b); }
    case Ne => if actual.Some? { SameSide(actual.value, a, b); }
    case In => if a.Arr? { SameListsContainTheSame(if actual.Some? then actual.value else Null, a.items, b.items); }
    case Nin => if a.Arr? { SameListsContainTheSame(if actual.Some? then actual.value else Null, a.items, b.items); }
    case _ =>
  }

  lemma {:induction false} ExtractedIsWellFormed(doc: Json, path: Path)
    requires WellFormed(doc) && Extract(doc, path).Some?
    ensures WellFormed(Extract(doc, path).value)
    decreases |path|
  {
    if path != [] {
      BelowIsWellFormed(doc, path[0]);
      ExtractedIsWellFormed(Below(doc, path[0]).value, path[1..]);
    }
  }

  lemma BelowIsWellFormed(doc: Json, segment: Segment)
    requires WellFormed(doc) && Below(doc, segment).Some?
    ensures WellFormed(Below(doc, segment).value)
  {
    match doc
    case Obj(fields) =>
      var i :| 0 <= i < |fields| && fields[i] == Field(segment.name, Below(doc, segment).value);
    case Arr(items) =>
      if segment.Key? && segment.name == LENGTH {
        LengthIsShortest(|items|);
      }
    case _ =>
  }

  lemma {:induction false} LeadingDigit(n: nat)
    requires n > 0
    ensures DigitsOf(n)[0] != 0
  {
    if n >= 10 {
      LeadingDigit(n / 10);
    }
  }

  lemma {:induction false} DroppingKeepsTheFront(digits: seq<nat>)
    requires digits != [] && digits[0] != 0
    ensures var r := DropTrailingZeros(digits);
            r != [] && r[0] == digits[0] && r[|r| - 1] != 0 && r <= digits
    decreases |digits|
  {
    if digits[|digits| - 1] == 0 {
      DroppingKeepsTheFront(digits[..|digits| - 1]);
    }
  }

  lemma LengthIsShortest(n: nat)
    ensures Shortest(NumberOf(n))
  {
    if n > 0 {
      var digits := DigitsOf(n);
      var r := DropTrailingZeros(digits);
      LeadingDigit(n);
      DroppingKeepsTheFront(digits);
      forall i | 0 <= i < |r| ensures r[i] < 10 {
        assert r[i] == digits[i];
      }
    }
  }

  /* ---------- lists of members that correspond ---------- */

  /** Both parses fail, or both succeed and say the same about the document. */
  predicate Alike(a: Result<Node, ParseError>, b: Result<Node, ParseError>, doc: Json) {
    if a.Ok? then b.Ok? && (Evaluate(a.value, doc) <==> Evaluate(b.value, doc)) else b.Err?
  }

  /** What a list of parses comes to, read as a conjunction. */
  predicate AllOk(rs: seq<Result<Node, ParseError>>) {
    forall i :: 0 <= i < |rs| ==> rs[i].Ok?
  }

  predicate AllAccept(rs: seq<Result<Node, ParseError>>, doc: Json) {
    forall i :: 0 <= i < |rs| ==> rs[i].Ok? && Evaluate(rs[i].value, doc)
  }

  lemma SameObjectsArePartners(a: seq<Field>, b: seq<Field>)
    requires WellFormed(Obj(a)) && WellFormed(Obj(b)) && Same(Obj(a), Obj(b))
    ensures Names(a) == Names(b)
    ensures forall i, j :: 0 <= i < |a| && 0 <= j < |b| && a[i].name == b[j].name ==> Same(a[i].value, b[j].value)
  {
    MembersAreMutual(a, b);
    forall n ensures n in Names(a) <==> n in Names(b) {
      FoundIsNamed(a, n);
      FoundIsNamed(b, n);
    }
    forall i, j | 0 <= i < |a| && 0 <= j < |b| && a[i].name == b[j].name ensures Same(a[i].value, b[j].value) {
      LookupAt(b, j);
    }
  }

  /** Results of members under the same names, alike pair by pair. */
  predicate Paired(a: seq<Field>, b: seq<Field>, ra: seq<Result<Node, ParseError>>,
                   rb: seq<Result<Node, ParseError>>, doc: Json) {
    && |ra| == |a|
    && |rb| == |b|
    && Names(a) == Names(b)
    && forall i, j :: 0 <= i < |a| && 0 <= j < |b| && a[i].name == b[j].name ==> Alike(ra[i], rb[j], doc)
  }

  /** Then the conjunctions are alike. */
  lemma PairedConjunctions(a: seq<Field>, b: seq<Field>, ra: seq<Result<Node, ParseError>>,
                           rb: seq<Result<Node, ParseError>>, doc: Json)
    requires Paired(a, b, ra, rb, doc)
    ensures AllOk(ra) <==> AllOk(rb)
    ensures AllAccept(ra, doc) <==> AllAccept(rb, doc)
  {
    forall i | 0 <= i < |ra| && (AllOk(rb) || AllAccept(rb, doc))
      ensures ra[i].Ok? && (AllAccept(rb, doc) ==> Evaluate(ra[i].value, doc))
    {
      assert a[i].name in Names(b);
      var j :| 0 <= j < |b| && b[j].name == a[i].name;
      assert Alike(ra[i], rb[j], doc);
    }
    forall j | 0 <= j < |rb| && (AllOk(ra) || AllAccept(ra, doc))
      ensures rb[j].Ok? && (AllAccept(ra, doc) ==> Evaluate(rb[j].value, doc))
    {
      assert b[j].name in Names(a);
      var i :| 0 <= i < |a| && a[i].name == b[j].name;
      assert Alike(ra[i], rb[j], doc);
    }
  }

  /** A joined list of results accepts what all of them accept. */
  lemma JoinedIsAll(rs: seq<Result<Node, ParseError>>, doc: Json)
    ensures Collect(rs).Ok? <==> AllOk(rs)
    ensures Collect(rs).Ok? ==> (Evaluate(Joined(Collect(rs).value), doc) <==> AllAccept(rs, doc))
  {
    CollectsAll(rs);
    if Collect(rs).Ok? {
      var nodes := Collect(rs).value;
      if |nodes| == 1 {
        assert rs[0] == Ok(nodes[0]);
      }
    }
  }

  /** Two joined lists, paired off, are alike. */
  lemma JoinedAlike(a: seq<Field>, b: seq<Field>, ra: seq<Result<Node, ParseError>>,
                    rb: seq<Result<Node, ParseError>>, doc: Json)
    requires Paired(a, b, ra, rb, doc)
    ensures Collect(ra).Ok? <==> Collect(rb).Ok?
    ensures Collect(ra).Ok? && Collect(rb).Ok? ==>
              (Evaluate(Joined(Collect(ra).value), doc) <==> Evaluate(Joined(Collect(rb).value), doc))
  {
    JoinedIsAll(ra, doc);
    JoinedIsAll(rb, doc);
    PairedConjunctions(a, b, ra, rb, doc);
  }

  /** Two lists of branches that are alike one by one are alike under and, or and nor. */
  lemma ListedAlike(op: string, ra: seq<Result<Node, ParseError>>, rb: seq<Result<Node, ParseError>>, doc: Json)
    requires |ra| == |rb| && forall i :: 0 <= i < |ra| ==> Alike(ra[i], rb[i], doc)
    ensures Collect(ra).Ok? <==> Collect(rb).Ok?
    ensures Collect(ra).Ok? && Collect(rb).Ok? ==>
              (Evaluate(Listed(op, Collect(ra).value), doc) <==> Evaluate(Listed(op, Collect(rb).value), doc))
  {
    CollectsAll(ra);
    CollectsAll(rb);
    if Collect(ra).Ok? && Collect(rb).Ok? {
      var x, y := Collect(ra).value, Collect(rb).value;
      forall i | 0 <= i < |x| ensures Evaluate(x[i], doc) <==> Evaluate(y[i], doc) {
        assert Alike(ra[i], rb[i], doc);
      }
    }
  }

  /* ---------- equal documents parse alike ---------- */

  lemma {:induction false} BranchesAlike(op: string, a: seq<Json>, b: seq<Json>, doc: Json)
    requires WellFormed(Arr(a)) && WellFormed(Arr(b)) && Same(Arr(a), Arr(b)) && WellFormed(doc)
    ensures forall i :: 0 <= i < |a| ==> Alike(Branches(op, a)[i], Branches(op, b)[i], doc)
    decreases a, 0
  {
    forall i | 0 <= i < |a| ensures Alike(Branches(op, a)[i], Branches(op, b)[i], doc) {
      BranchAlike(op, a[i], b[i], doc);
    }
  }

  lemma {:induction false} BranchAlike(op: string, a: Json, b: Json, doc: Json)
    requires WellFormed(a) && WellFormed(b) && Same(a, b) && WellFormed(doc)
    ensures Alike(Branch(op, a), Branch(op, b), doc)
    decreases a, 2
  {
    if a.Obj? {
      WhereAlike(a.fields, b.fields, doc);
    }
  }

  lemma ComparisonsAlike(op: CompareOp, path: Path, a: Json, b: Json, doc: Json)
    requires WellFormed(a) && WellFormed(b) && WellFormed(doc) && Same(a, b)
    ensures Evaluate(Cmp(op, path, a), doc) <==> Evaluate(Cmp(op, path, b), doc)
  {
    if Extract(doc, path).Some? {
      ExtractedIsWellFormed(doc, path);
    }
    SameOperandsCompareAlike(op, Extract(doc, path), a, b);
  }

  /** Some element matches the one child exactly when some element matches the other. */
  lemma ElementsAlike(path: Path, a: Node, b: Node, doc: Json)
    requires forall elem :: WellFormed(elem) ==> (Evaluate(a, elem) <==> Evaluate(b, elem))
    requires WellFormed(doc)
    ensures Evaluate(ElemMatch(path, a), doc) <==> Evaluate(ElemMatch(path, b), doc)
  {
    if Extract(doc, path).Some? {
      ExtractedIsWellFormed(doc, path);
    }
  }

  lemma {:induction false} ChildrenAlike(a: seq<Field>, b: seq<Field>)
    requires WellFormed(Obj(a)) && WellFormed(Obj(b)) && Same(Obj(a), Obj(b))
    ensures ParseWhere(a).Ok? <==> ParseWhere(b).Ok?
    ensures ParseWhere(a).Ok? && ParseWhere(b).Ok? ==>
              forall elem :: WellFormed(elem) ==>
                (Evaluate(ParseWhere(a).value, elem) <==> Evaluate(ParseWhere(b).value, elem))
    decreases a, 2
  {
    WhereAlike(a, b, Null);
    forall elem | WellFormed(elem) ensures Alike(ParseWhere(a), ParseWhere(b), elem) {
      WhereAlike(a, b, elem);
    }
  }

  lemma {:induction false} ConditionAlike(source: string, path: Path, a: Field, b: Field, doc: Json)
    requires WellFormed(a.value) && WellFormed(b.value) && WellFormed(doc)
    requires a.name == b.name && Same(a.value, b.value)
    ensures Alike(Condition(source, path, a), Condition(source, path, b), doc)
    decreases a, 0
  {
    var op := CompareOpOf(a.name);
    if op.Some? {
      ComparisonsAlike(op.value, path, a.value, b.value, doc);
    } else if a.name == "$elemMatch" && a.value.Obj? {
      ChildrenAlike(a.value.fields, b.value.fields);
      var x, y := ParseWhere(a.value.fields), ParseWhere(b.value.fields);
      if x.Ok? && y.Ok? {
        ElementsAlike(path, x.value, y.value, doc);
      }
    }
  }

  lemma OperatorObjectsAlike(a: Json, b: Json)
    requires WellFormed(a) && WellFormed(b) && Same(a, b)
    ensures IsOperatorObject(a) <==> IsOperatorObject(b)
  {
    if a.Obj? {
      SameObjectsArePartners(a.fields, b.fields);
      OperatorsByName(a.fields);
      OperatorsByName(b.fields);
    }
  }

  lemma OperatorsByName(fields: seq<Field>)
    ensures IsOperatorObject(Obj(fields)) <==> Names(fields) != {} && forall n :: n in Names(fields) ==> StartsWithDollar(n)
  {
    if fields != [] {
      assert fields[0].name in Names(fields);
      if forall n :: n in Names(fields) ==> StartsWithDollar(n) {
        forall i | 0 <= i < |fields| ensures StartsWithDollar(fields[i].name) {
          assert fields[i].name in Names(fields);
        }
      }
    }
  }

  lemma {:induction false} ConditionsPaired(source: string, path: Path, a: seq<Field>, b: seq<Field>, doc: Json)
    requires WellFormed(Obj(a)) && WellFormed(Obj(b)) && WellFormed(doc) && Same(Obj(a), Obj(b))
    ensures Paired(a, b, Conditions(source, path, a), Conditions(source, path, b), doc)
    decreases a, 0
  {
    SameObjectsArePartners(a, b);
    var ra, rb := Conditions(source, path, a), Conditions(source, path, b);
    forall i, j | 0 <= i < |a| && 0 <= j < |b| && a[i].name == b[j].name ensures Alike(ra[i], rb[j], doc) {
      ConditionAlike(source, path, a[i], b[j], doc);
    }
  }

  lemma {:induction false} FieldAlike(source: string, path: Path, a: Json, b: Json, doc: Json)
    requires WellFormed(a) && WellFormed(b) && WellFormed(doc) && Same(a, b)
    ensures Alike(FieldNode(source, path, a), FieldNode(source, path, b), doc)
    decreases a, 1
  {
    OperatorObjectsAlike(a, b);
    if IsOperatorObject(a) {
      ConditionsPaired(source, path, a.fields, b.fields, doc);
      JoinedAlike(a.fields, b.fields, Conditions(source, path, a.fields), Conditions(source, path, b.fields), doc);
    } else {
      ComparisonsAlike(Eq, path, a, b, doc);
    }
  }

  lemma {:induction false} EntryAlike(a: Field, b: Field, doc: Json)
    requires WellFormed(a.value) && WellFormed(b.value) && WellFormed(doc)
    requires a.name == b.name && Same(a.value, b.value)
    ensures Alike(ParseEntry(a), ParseEntry(b), doc)
    decreases a, 0
  {
    if a.name in ["$and", "$or", "$nor"] {
      if a.value.Arr? {
        BranchesAlike(a.name, a.value.items, b.value.items, doc);
        ListedAlike(a.name, Branches(a.name, a.value.items), Branches(a.name, b.value.items), doc);
      }
    } else if a.name == "$not" {
      BranchAlike(a.name, a.value, b.value, doc);
    } else if !StartsWithDollar(a.name) && ParsePath(a.name).Ok? {
      FieldAlike(a.name, ParsePath(a.name).value, a.value, b.value, doc);
    }
  }

  lemma {:induction false} EntriesPaired(a: seq<Field>, b: seq<Field>, doc: Json)
    requires WellFormed(Obj(a)) && WellFormed(Obj(b)) && WellFormed(doc) && Same(Obj(a), Obj(b))
    ensures Paired(a, b, Entries(a), Entries(b), doc)
    decreases a, 0
  {
    SameObjectsArePartners(a, b);
    var ra, rb := Entries(a), Entries(b);
    forall i, j | 0 <= i < |a| && 0 <= j < |b| && a[i].name == b[j].name ensures Alike(ra[i], rb[j], doc) {
      EntryAlike(a[i], b[j], doc);
    }
  }

  lemma PollutionIsByName(fields: seq<Field>)
    ensures FirstPolluting(fields).None? <==> Names(fields) !! POLLUTING
  {
  }

  /** Equal where-documents parse to filters that accept the same documents, or both fail to parse. */
  lemma {:induction false} WhereAlike(a: seq<Field>, b: seq<Field>, doc: Json)
    requires WellFormed(Obj(a)) && WellFormed(Obj(b)) && Same(Obj(a), Obj(b)) && WellFormed(doc)
    ensures Alike(ParseWhere(a), ParseWhere(b), doc)
    decreases a, 1
  {
    EntriesPaired(a, b, doc);
    PollutionIsByName(a);
    PollutionIsByName(b);
    JoinedAlike(a, b, Entries(a), Entries(b), doc);
  }

  /* ---------- the key ---------- */

  /** Assigning this name to a plain object sets its prototype and makes no member. */
  const UNASSIGNABLE: set<string> := {"__proto__"}

  /** `JSON.stringify(sortObject(query))`. The names are assigned in sorted order, and a JavaScript engine
      then lists integer-like names first: `less` stands for the resulting order, whatever it is. */
  function CacheKey(less: Order, query: Json): string
    requires JsonText.Writable(Arrange(less, UNASSIGNABLE, query))
  {
    JsonText.Emit(Arrange(less, UNASSIGNABLE, query))
  }

  /** The filter of a query document; the type of `where` admits objects only. */
  function Filter(query: Json): Result<Node, ParseError> {
    if !query.Obj? then Err(ExpectsObject("query"))
    else
      match Lookup(query.fields, "where")
      case None => Ok(True)
      case Some(Obj(fields)) => ParseWhere(fields)
      case Some(_) => Err(ExpectsObject("where"))
  }

  lemma {:induction false} ArrangedIsWritable(less: Order, dropped: set<string>, j: Json)
    requires WellFormed(j)
    ensures JsonText.Writable(Arrange(less, dropped, j))
    decreases j
  {
    match j
    case Arr(items) =>
      forall i | 0 <= i < |items| ensures JsonText.Writable(Arrange(less, dropped, items[i])) {
        ArrangedIsWritable(less, dropped, items[i]);
      }
    case Obj(fields) =>
      ArrangedFieldsAreWritable(less, dropped, fields);
      SortedIsWritable(less, ArrangeFields(less, dropped, fields));
    case _ =>
  }

  predicate WritableFields(fields: seq<Field>) {
    forall i :: 0 <= i < |fields| ==> JsonText.Writable(fields[i].value)
  }

  lemma {:induction false} ArrangedFieldsAreWritable(less: Order, dropped: set<string>, fields: seq<Field>)
    requires forall i :: 0 <= i < |fields| ==> WellFormed(fields[i].value)
    ensures WritableFields(ArrangeFields(less, dropped, fields))
    decreases fields
  {
    if fields != [] {
      assert forall i :: 0 <= i < |fields[1..]| ==> fields[1..][i] == fields[i + 1];
      ArrangedFieldsAreWritable(less, dropped, fields[1..]);
      ArrangedIsWritable(less, dropped, fields[0].value);
    }
  }

  lemma {:induction false} InsertedIsWritable(less: Order, f: Field, fields: seq<Field>)
    requires JsonText.Writable(f.value) && WritableFields(fields)
    ensures WritableFields(Insert(less, f, fields))
  {
    if fields != [] && !less(f.name, fields[0].name) {
      InsertedIsWritable(less, f, fields[1..]);
    }
  }

  lemma {:induction false} SortedIsWritable(less: Order, fields: seq<Field>)
    requires WritableFields(fields)
    ensures WritableFields(Sort(less, fields))
  {
    if fields != [] {
      SortedIsWritable(less, fields[1..]);
      InsertedIsWritable(less, fields[0], Sort(less, fields[1..]));
    }
  }

  ghost function KeyOf(less: Order, query: Json): string
    requires WellFormed(query)
  {
    ArrangedIsWritable(less, UNASSIGNABLE, query);
    CacheKey(less, query)
  }

  /** Two queries share a key exactly when they are equal as values, unassignable members apart. */
  lemma KeysAreEqualExactlyWhenSame(less: Order, a: Json, b: Json)
    requires StrictTotal(less) && WellFormed(a) && WellFormed(b)
    ensures KeyOf(less, a) == KeyOf(less, b) <==> Same(Without(UNASSIGNABLE, a), Without(UNASSIGNABLE, b))
  {
    ArrangedIsWritable(less, UNASSIGNABLE, a);
    ArrangedIsWritable(less, UNASSIGNABLE, b);
    JsonRoundTrip.TextIsUnique(Arrange(less, UNASSIGNABLE, a), Arrange(less, UNASSIGNABLE, b));
    ArrangedAlikeExactlyWhenSameWithout(less, UNASSIGNABLE, a, b);
  }

  /** Every query shares its key with what is left of it, which is an equal query exactly when nothing in it
      is under the unassignable name. */
  lemma KeyForgetsExactlyTheUnassignable(less: Order, query: Json)
    requires StrictTotal(less) && WellFormed(query)
    ensures WellFormed(Without(UNASSIGNABLE, query))
    ensures KeyOf(less, query) == KeyOf(less, Without(UNASSIGNABLE, query))
    ensures Same(query, Without(UNASSIGNABLE, query)) <==> Free(UNASSIGNABLE, query)
  {
    WithoutIsFree(UNASSIGNABLE, query);
    WithoutIsArrangedAlike(less, UNASSIGNABLE, query);
    WithoutIsSameExactlyWhenFree(UNASSIGNABLE, query);
  }

  lemma SameMembersLookUpTheSame(a: seq<Field>, b: seq<Field>, name: string)
    requires WellFormed(Obj(a)) && WellFormed(Obj(b)) && Same(Obj(a), Obj(b))
    ensures match Lookup(a, name)
            case None => Lookup(b, name).None?
            case Some(v) =>
              Lookup(b, name).Some? && WellFormed(v) && WellFormed(Lookup(b, name).value) && Same(v, Lookup(b, name).value)
  {
    MembersAreMutual(a, b);
    if Lookup(a, name).Some? {
      var i :| 0 <= i < |a| && a[i] == Field(name, Lookup(a, name).value);
      var j :| 0 <= j < |b| && b[j] == Field(name, Lookup(b, name).value);
    }
  }

  /** What a query says about documents is under this member alone. */
  function WhereOf(query: Json): Option<Json> {
    if query.Obj? then Lookup(query.fields, "where") else None
  }

  lemma WhereIsWellFormed(query: Json)
    requires WellFormed(query) && WhereOf(query).Some?
    ensures WellFormed(WhereOf(query).value)
  {
    var i :| 0 <= i < |query.fields| && query.fields[i] == Field("where", WhereOf(query).value);
  }

  /** Both ask for equal things, or neither asks. */
  predicate AskTheSame(a: Json, b: Json) {
    match WhereOf(a)
    case None => WhereOf(b).None?
    case Some(v) => WhereOf(b).Some? && Same(v, WhereOf(b).value)
  }

  lemma AskingTheSameFiltersAlike(a: Json, b: Json, doc: Json)
    requires WellFormed(a) && WellFormed(b) && WellFormed(doc) && (a.Obj? <==> b.Obj?) && AskTheSame(a, b)
    ensures Alike(Filter(a), Filter(b), doc)
  {
    if WhereOf(a).Some? {
      WhereIsWellFormed(a);
      WhereIsWellFormed(b);
      match WhereOf(a)
      case Some(Obj(fields)) => WhereAlike(fields, WhereOf(b).value.fields, doc);
      case _ =>
    }
  }

  /** The member is looked up as it was, less what cannot be assigned. */
  lemma WhereIsKept(a: Json, b: Json)
    requires WellFormed(a) && WellFormed(b) && Same(Without(UNASSIGNABLE, a), Without(UNASSIGNABLE, b))
    ensures a.Obj? <==> b.Obj?
    ensures match WhereOf(a)
            case None => WhereOf(b).None?
            case Some(v) => WhereOf(b).Some? && Same(Without(UNASSIGNABLE, v), Without(UNASSIGNABLE, WhereOf(b).value))
  {
    if a.Obj? {
      WithoutIsFree(UNASSIGNABLE, a);
      WithoutIsFree(UNASSIGNABLE, b);
      FieldsWithoutLookUp(UNASSIGNABLE, a.fields, "where");
      FieldsWithoutLookUp(UNASSIGNABLE, b.fields, "where");
      SameMembersLookUpTheSame(Without(UNASSIGNABLE, a).fields, Without(UNASSIGNABLE, b).fields, "where");
    }
  }

  /** A cached answer is the answer: queries that share a key and ask the same are both malformed, or accept
      the same documents. They ask the same if neither asks under the unassignable name; if one of the two
      does, they do not. */
  lemma CacheKeyIsSound(less: Order, a: Json, b: Json, doc: Json)
    requires StrictTotal(less) && WellFormed(a) && WellFormed(b) && WellFormed(doc)
    requires KeyOf(less, a) == KeyOf(less, b)
    ensures AskTheSame(a, b) ==> Alike(Filter(a), Filter(b), doc)
    ensures AsksFreely(a) && AsksFreely(b) ==> AskTheSame(a, b)
    ensures AsksFreely(a) != AsksFreely(b) ==> !AskTheSame(a, b)
  {
    KeysAreEqualExactlyWhenSame(less, a, b);
    WhereIsKept(a, b);
    if AskTheSame(a, b) {
      AskingTheSameFiltersAlike(a, b, doc);
    }
    if WhereOf(a).Some? {
      var v, w := WhereOf(a).value, WhereOf(b).value;
      WhereIsWellFormed(a);
      WhereIsWellFormed(b);
      FreedomIsShared(v, w);
    }
  }

  /** No part of what the query asks is under the unassignable name. */
  predicate AsksFreely(query: Json) {
    WhereOf(query).Some? ==> Free(UNASSIGNABLE, WhereOf(query).value)
  }

  lemma FreedomIsShared(v: Json, w: Json)
    requires WellFormed(v) && WellFormed(w) && Same(Without(UNASSIGNABLE, v), Without(UNASSIGNABLE, w))
    ensures Free(UNASSIGNABLE, v) && Free(UNASSIGNABLE, w) ==> Same(v, w)
    ensures Free(UNASSIGNABLE, v) != Free(UNASSIGNABLE, w) ==> !Same(v, w)
  {
    if Free(UNASSIGNABLE, v) && Free(UNASSIGNABLE, w) {
      FreeIsUntouched(UNASSIGNABLE, v);
      FreeIsUntouched(UNASSIGNABLE, w);
    } else if Same(v, w) {
      Serializer.CodeUnitOrderIsStrictTotal();
      SameIsAnEquivalence(Serializer.CodeUnitLess, v, w, v);
      if Free(UNASSIGNABLE, v) {
        SameIsAsFree(UNASSIGNABLE, w, v);
      }
      if Free(UNASSIGNABLE, w) {
        SameIsAsFree(UNASSIGNABLE, v, w);
      }
    }
  }

  /* ---------- the unassignable name at the top of a query's conditions ---------- */

  /** The query with one more condition, under the unassignable name, in front of the others. */
  function Refused(query: Json, hidden: Json): Json
    requires query.Obj?
  {
    Obj(RefusedFields(query.fields, hidden))
  }

  function RefusedFields(fields: seq<Field>, hidden: Json): seq<Field> {
    if fields == [] then []
    else if fields[0].name == "where" && fields[0].value.Obj? then
      [Field("where", Obj([Field("__proto__", hidden)] + fields[0].value.fields))] + fields[1..]
    else [fields[0]] + RefusedFields(fields[1..], hidden)
  }

  lemma {:induction false} RefusedLooksUp(fields: seq<Field>, hidden: Json, name: string)
    requires Distinct(fields)
    ensures Lookup(RefusedFields(fields, hidden), name)
         == var found := Lookup(fields, name);
            if name == "where" && found.Some? && found.value.Obj?
            then Some(Obj([Field("__proto__", hidden)] + found.value.fields)) else found
  {
    if fields != [] {
      HeadIsFresh(fields);
      RefusedLooksUp(fields[1..], hidden, name);
      assert RefusedFields(fields, hidden)[1..]
          == if fields[0].name == "where" && fields[0].value.Obj? then fields[1..] else RefusedFields(fields[1..], hidden);
    }
  }

  lemma HiddenIsLeftOut(hidden: Json, fields: seq<Field>)
    ensures Without(UNASSIGNABLE, Obj([Field("__proto__", hidden)] + fields)) == Without(UNASSIGNABLE, Obj(fields))
  {
    assert ([Field("__proto__", hidden)] + fields)[1..] == fields;
  }

  lemma {:induction false} RefusedKeepsTheRest(fields: seq<Field>, hidden: Json)
    ensures FieldsWithout(UNASSIGNABLE, RefusedFields(fields, hidden)) == FieldsWithout(UNASSIGNABLE, fields)
  {
    if fields != [] {
      var r := RefusedFields(fields, hidden);
      if fields[0].name == "where" && fields[0].value.Obj? {
        assert r[1..] == fields[1..];
        HiddenIsLeftOut(hidden, fields[0].value.fields);
      } else {
        assert r[1..] == RefusedFields(fields[1..], hidden);
        RefusedKeepsTheRest(fields[1..], hidden);
      }
    }
  }

  lemma PutInFrontIsWellFormed(head: Field, rest: seq<Field>)
    requires WellFormed(Obj(rest)) && WellFormed(head.value) && Lookup(rest, head.name).None?
    ensures WellFormed(Obj([head] + rest))
  {
    var all := [head] + rest;
    assert forall i :: 1 <= i < |all| ==> all[i] == rest[i - 1];
  }

  lemma TailIsWellFormed(fields: seq<Field>)
    requires WellFormed(Obj(fields)) && fields != []
    ensures WellFormed(Obj(fields[1..])) && WellFormed(fields[0].value) && Lookup(fields[1..], fields[0].name).None?
  {
    HeadIsFresh(fields);
    assert forall i :: 0 <= i < |fields[1..]| ==> fields[1..][i] == fields[i + 1];
  }

  lemma {:induction false} RefusedIsWellFormed(fields: seq<Field>, hidden: Json)
    requires WellFormed(Obj(fields)) && WellFormed(hidden)
    requires match Lookup(fields, "where")
             case Some(Obj(w)) => Lookup(w, "__proto__").None?
             case _ => true
    ensures WellFormed(Obj(RefusedFields(fields, hidden)))
  {
    if fields != [] {
      TailIsWellFormed(fields);
      if fields[0].name == "where" && fields[0].value.Obj? {
        var w := fields[0].value.fields;
        PutInFrontIsWellFormed(Field("__proto__", hidden), w);
        PutInFrontIsWellFormed(Field("where", Obj([Field("__proto__", hidden)] + w)), fields[1..]);
      } else {
        RefusedIsWellFormed(fields[1..], hidden);
        RefusedLooksUp(fields[1..], hidden, fields[0].name);
        PutInFrontIsWellFormed(fields[0], RefusedFields(fields[1..], hidden));
      }
    }
  }

  /** Every query that the parser takes and that has conditions shares its key with one that it refuses. */
  lemma AcceptedSharesItsKeyWithRefused(less: Order, query: Json, hidden: Json)
    requires StrictTotal(less) && WellFormed(query) && WellFormed(hidden)
    requires Filter(query).Ok? && WhereOf(query).Some?
    ensures WellFormed(Refused(query, hidden))
    ensures KeyOf(less, query) == KeyOf(less, Refused(query, hidden))
    ensures Filter(Refused(query, hidden)) == Err(PollutingKey("__proto__"))
  {
    var where := WhereOf(query).value.fields;
    assert Lookup(where, "__proto__").None? by {
      PollutionIsByName(where);
      FoundIsNamed(where, "__proto__");
    }
    RefusedIsWellFormed(query.fields, hidden);
    RefusedKeepsTheRest(query.fields, hidden);
    assert Without(UNASSIGNABLE, query) == Without(UNASSIGNABLE, Refused(query, hidden));
    WithoutIsArrangedAlike(less, UNASSIGNABLE, query);
    WithoutIsArrangedAlike(less, UNASSIGNABLE, Refused(query, hidden));
    RefusedLooksUp(query.fields, hidden, "where");
    var more := [Field("__proto__", hidden)] + where;
    assert FirstPolluting(more) == Some("__proto__");
  }

  /** Every query that shares the key, refused ones included, filters alike. */
  ghost predicate KeyStandsForFilter(less: Order, query: Json)
    requires WellFormed(query)
  {
    forall other, doc :: WellFormed(other) && WellFormed(doc) && KeyOf(less, other) == KeyOf(less, query) ==>
      Alike(Filter(query), Filter(other), doc)
  }

  /** Of the queries that the parser takes, exactly those without conditions are safe from all that share
      their key. */
  lemma KeyStandsForFilterExactlyWhenNothingIsAsked(less: Order, query: Json)
    requires StrictTotal(less) && WellFormed(query) && Filter(query).Ok?
    ensures KeyStandsForFilter(less, query) <==> WhereOf(query).None?
  {
    if WhereOf(query).Some? {
      AcceptedSharesItsKeyWithRefused(less, query, Null);
      var other := Refused(query, Null);
      assert !Alike(Filter(query), Filter(other), Null);
    } else {
      forall other, doc | WellFormed(other) && WellFormed(doc) && KeyOf(less, other) == KeyOf(less, query)
        ensures Alike(Filter(query), Filter(other), doc)
      {
        KeysAreEqualExactlyWhenSame(less, other, query);
        WhereIsKept(other, query);
      }
    }
  }

  /** An operand with a member of the unassignable name shares the key of the operand without it, and does
      not accept the same documents. */
  lemma UnassignableNameIsLost(less: Order, hidden: Json)
    requires WellFormed(hidden)
    ensures var a := Obj([Field("where", Obj([Field("a", Obj([Field("__proto__", hidden)]))]))]);
            var b := Obj([Field("where", Obj([Field("a", Obj([]))]))]);
            WellFormed(a) && WellFormed(b) && KeyOf(less, a) == KeyOf(less, b)
  {
    var inner := [Field("__proto__", hidden)];
    assert ArrangeFields(less, UNASSIGNABLE, inner) == ArrangeFields(less, UNASSIGNABLE, inner[1..]) == [];
    assert Arrange(less, UNASSIGNABLE, Obj(inner)) == Arrange(less, UNASSIGNABLE, Obj([]));
    OneMemberArranged(less, "a", Obj(inner), Obj([]));
    OneMemberArranged(less, "where", Obj([Field("a", Obj(inner))]), Obj([Field("a", Obj([]))]));
  }

  lemma PathOfA()
    ensures ParsePath("a") == Ok([Key("a")])
  {
    assert "a"[1..] == "";
    assert Split("") == [""] && [""][1..] == [] && ['a'] + "" == "a";
    assert Split("a") == [['a'] + Split("")[0]] + Split("")[1..];
    assert Split("a") == ["a"];
    assert ["a"][1..] == [];
    assert !AllDigits("a") by { assert "a"[0] == 'a'; }
    assert ValidSegment("a");
    assert ParseSegment("a", "a") == Ok(Key("a"));
    assert ParseSegments("a", ["a"][1..]) == Ok([]);
    assert [Key("a")] + [] == [Key("a")];
  }

  /** A where-document that asks for `a` to be a plain value. */
  lemma OneMemberFilter(operand: Json)
    requires !IsOperatorObject(operand)
    ensures ParseWhere([Field("a", operand)]) == Ok(Cmp(Eq, [Key("a")], operand))
  {
    PathOfA();
    var fields := [Field("a", operand)];
    assert !StartsWithDollar("a") && StartsWithDollar("$and") && StartsWithDollar("$or") && StartsWithDollar("$nor");
    assert "a" !in ["$and", "$or", "$nor"] && "a" != "$not";
    assert ParseEntry(fields[0]) == Ok(Cmp(Eq, [Key("a")], operand));
    assert Entries(fields) == [Ok(Cmp(Eq, [Key("a")], operand))];
    CollectsAll(Entries(fields));
  }

  /** The two queries do differ: the stored empty object satisfies one of them. */
  lemma UnassignableNameMatters(hidden: Json)
    ensures var a := ParseWhere([Field("a", Obj([Field("__proto__", hidden)]))]);
            var b := ParseWhere([Field("a", Obj([]))]);
            var doc := Obj([Field("a", Obj([]))]);
            a.Ok? && b.Ok? && !Evaluate(a.value, doc) && Evaluate(b.value, doc)
  {
    var hiding := Obj([Field("__proto__", hidden)]);
    assert !StartsWithDollar(hiding.fields[0].name);
    OneMemberFilter(hiding);
    OneMemberFilter(Obj([]));
    var doc := Obj([Field("a", Obj([]))]);
    assert Below(doc, Key("a")) == Some(Obj([]));
    assert Extract(doc, [Key("a")]) == Extract(Obj([]), [Key("a")][1..]) == Some(Obj([]));
  }

  lemma OneMemberArranged(less: Order, name: string, a: Json, b: Json)
    requires Arrange(less, UNASSIGNABLE, a) == Arrange(less, UNASSIGNABLE, b)
    ensures Arrange(less, UNASSIGNABLE, Obj([Field(name, a)])) == Arrange(less, UNASSIGNABLE, Obj([Field(name, b)]))
  {
    var x, y := [Field(name, a)], [Field(name, b)];
    assert x[1..] == [] && y[1..] == [];
    assert ArrangeFields(less, UNASSIGNABLE, x) == ArrangeFields(less, UNASSIGNABLE, y);
  }
}
