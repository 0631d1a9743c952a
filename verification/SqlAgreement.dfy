/** One query, two meanings: when SQL's answer is the interpreter's, and where the two part. */
module SqlAgreement {
  import opened Basics
  import opened Documents
  import opened Query
  import opened SqlCompiler
  import opened SqlMeaning
  import Text

  /* ---------- operands and documents that can be compared ---------- */

  predicate Plain(j: Json) {
    !j.Arr? && !j.Obj?
  }

  /** Nothing, or null, stands at the path. */
  predicate Missing(actual: Option<Json>) {
    actual.None? || actual.value.Null?
  }

  /** Neither side has to be read as the other's type. SQLite stores booleans as 1 and 0 and shows arrays
      and objects as text; Postgres shows everything as text when the operand is text. */
  predicate Comparable(d: Dialect, actual: Option<Json>, operand: Json) {
    Missing(actual) || operand.Null? ||
    match d
    case Sqlite =>
      && !(actual.value.Bool? && operand.Num?)
      && !(actual.value.Num? && operand.Bool?)
      && (operand.Str? ==> Plain(actual.value))
    case Postgres => operand.Str? ==> actual.value.Str?
  }

  predicate OneCast(d: Dialect, items: seq<Json>) {
    forall i :: 0 <= i < |items| ==>
      items[i].Null? || ScalarAt(d, [], items[i]) == ScalarAt(d, [], items[0])
  }

  predicate AtomSuits(d: Dialect, op: CompareOp, actual: Option<Json>, operand: Json) {
    match op
    case Eq => Plain(operand) && Comparable(d, actual, operand)
    case Ne => Plain(operand) && !operand.Null? && Comparable(d, actual, operand)
    case In => operand.Arr? ==> ListSuits(d, actual, operand.items)
    case Nin => operand.Arr? ==> ListSuits(d, actual, operand.items)
    case _ => operand.Num? && (Missing(actual) || actual.value.Num?)
  }

  predicate ListSuits(d: Dialect, actual: Option<Json>, items: seq<Json>) {
    && OneCast(d, items)
    && forall i :: 0 <= i < |items| ==> Plain(items[i]) && Comparable(d, actual, items[i])
  }

  predicate PathSuits(d: Dialect, doc: Json, path: Path) {
    && Parsed(path)
    && Aligned(d, doc, path)
  }

  predicate ReadableFor(d: Dialect, doc: Json, path: Path) {
    && PathSuits(d, doc, path)
    && (d.Postgres? && SpellsNull(path) ==> Missing(Extract(doc, path)))
  }

  /** Every comparison in the query suits the document: paths read the same, operands are scalars that
      compare with what is stored, ranges are numeric, and `$ne` is not asked of null. */
  predicate Suits(d: Dialect, node: Node, doc: Json)
    decreases node
  {
    match node
    case True => true
    case And(children) => forall i :: 0 <= i < |children| ==> Suits(d, children[i], doc)
    case Or(children) => forall i :: 0 <= i < |children| ==> Suits(d, children[i], doc)
    case Nor(children) => forall i :: 0 <= i < |children| ==> Suits(d, children[i], doc)
    case Not(child) => Suits(d, child, doc)
    case Exists(path, _) => PathSuits(d, doc, path)
    case Cmp(op, path, operand) =>
      && ReadableFor(d, doc, path)
      && AtomSuits(d, op, Extract(doc, path), operand)
    case ElemMatch(_, _) => false
  }

  /* ---------- one comparison ---------- */

  /** What a comparison on the value `actual` says, its path already read. */
  function AtomTruth(d: Dialect, op: CompareOp, actual: Option<Json>, operand: Json, render: Render): Truth {
    var cast := ScalarAt(d, [], if op.In? || op.Nin? then First(operand) else operand).cast;
    var left := CastValue(cast, actual, render);
    match op
    case Eq =>
      if operand.Null? then Decided(left.SqlNull?)
      else Related(Eq, left, OperandValue(cast, Coerce(d, operand), render))
    case Ne =>
      AnyOf([Decided(left.SqlNull?), Related(Ne, left, OperandValue(cast, Coerce(d, operand), render))])
    case In => if Items(operand) == [] then No else ListTruth(d, left, cast, Items(operand), render)
    case Nin => if Items(operand) == [] then Yes else Inverse(ListTruth(d, left, cast, Items(operand), render))
    case _ => Related(op, left, OperandValue(cast, Coerce(d, operand), render))
  }

  function Items(operand: Json): seq<Json> {
    if operand.Arr? then operand.items else []
  }

  function First(operand: Json): Json {
    if Items(operand) == [] then Null else Items(operand)[0]
  }

  function ListTruth(d: Dialect, left: SqlValue, cast: Cast, items: seq<Json>, render: Render): Truth {
    AnyOf(seq(|items|, i requires 0 <= i < |items| => Related(Eq, left, OperandValue(cast, Coerce(d, items[i]), render))))
  }

  lemma ListIsMember(d: Dialect, left: SqlValue, cast: Cast, items: seq<Json>, render: Render)
    ensures Member(left, cast, seq(|items|, i requires 0 <= i < |items| => Inline(d, items[i])), render)
         == ListTruth(d, left, cast, items, render)
  {
    var marks := seq(|items|, i requires 0 <= i < |items| => Inline(d, items[i]));
    assert seq(|marks|, i requires 0 <= i < |marks| => Related(Eq, left, MarkValue(cast, marks[i], render)))
        == seq(|items|, i requires 0 <= i < |items| => Related(Eq, left, OperandValue(cast, Coerce(d, items[i]), render)));
  }

  lemma NotEqualIsItsTruth(d: Dialect, path: Path, operand: Json, doc: Json, render: Render)
    ensures Eval(d, IntendedAtom(d, Ne, path, operand).value, doc, render)
         == AtomTruth(d, Ne, Fetch(d, doc, path), operand, render)
  {
    var conds := IntendedAtom(d, Ne, path, operand).value.conds;
    var truths := seq(2, i requires 0 <= i < 2 => Eval(d, conds[i], doc, render));
    assert truths == [Eval(d, conds[0], doc, render), Eval(d, conds[1], doc, render)];
  }

  lemma ListIsItsTruth(d: Dialect, op: CompareOp, path: Path, operand: Json, doc: Json, render: Render)
    requires op == In || op == Nin
    requires operand.Arr?
    ensures Eval(d, IntendedAtom(d, op, path, operand).value, doc, render)
         == AtomTruth(d, op, Fetch(d, doc, path), operand, render)
  {
    if operand.items != [] {
      var cast := ScalarAt(d, [], operand.items[0]).cast;
      ListIsMember(d, CastValue(cast, Fetch(d, doc, path), render), cast, operand.items, render);
    }
  }

  /** Lowering, closing and evaluating a comparison comes to reading its path and comparing. */
  lemma AtomIsItsTruth(d: Dialect, op: CompareOp, path: Path, operand: Json, doc: Json, render: Render)
    requires IntendedAtom(d, op, path, operand).Ok?
    ensures Eval(d, IntendedAtom(d, op, path, operand).value, doc, render)
         == AtomTruth(d, op, Fetch(d, doc, path), operand, render)
  {
    match op
    case In => ListIsItsTruth(d, op, path, operand, doc, render);
    case Nin => ListIsItsTruth(d, op, path, operand, doc, render);
    case Ne => NotEqualIsItsTruth(d, path, operand, doc, render);
    case _ =>
  }

  /** A value and an operand that can be compared are equal in SQL exactly when they are equal. */
  lemma EqualityIsKept(d: Dialect, cast: Cast, actual: Option<Json>, operand: Json, render: Render)
    requires Plain(operand) && !operand.Null? && Comparable(d, actual, operand)
    requires cast == ScalarAt(d, [], operand).cast
    ensures var left := CastValue(cast, actual, render);
            Related(Eq, left, OperandValue(cast, Coerce(d, operand), render))
            == if left.SqlNull? then Unknown else Decided(Same(actual.value, operand))
    ensures CastValue(cast, actual, render).SqlNull? ==> Missing(actual) || !Same(actual.value, operand)
  {
  }

  lemma NotEqualIsKept(d: Dialect, cast: Cast, actual: Option<Json>, operand: Json, render: Render)
    requires Plain(operand) && !operand.Null? && Comparable(d, actual, operand)
    requires cast == ScalarAt(d, [], operand).cast
    ensures var left := CastValue(cast, actual, render);
            var right := OperandValue(cast, Coerce(d, operand), render);
            Related(Ne, left, right) == Inverse(Related(Eq, left, right))
  {
  }

  lemma ItemIsKept(d: Dialect, cast: Cast, actual: Option<Json>, item: Json, render: Render)
    requires Plain(item) && Comparable(d, actual, item)
    requires item.Null? || cast == ScalarAt(d, [], item).cast
    ensures var left := CastValue(cast, actual, render);
            Related(Eq, left, OperandValue(cast, Coerce(d, item), render))
            == if left.SqlNull? || item.Null? then Unknown else Decided(Same(actual.value, item))
    ensures !Missing(actual) && Same(actual.value, item) ==> !CastValue(cast, actual, render).SqlNull? && !item.Null?
  {
  }

  /** Membership: found, or undecided because the left side or some item is NULL, or not found. */
  lemma MembershipIsKept(d: Dialect, actual: Option<Json>, items: seq<Json>, render: Render)
    requires items != [] && ListSuits(d, actual, items)
    ensures var cast := ScalarAt(d, [], items[0]).cast;
            var left := CastValue(cast, actual, render);
            ListTruth(d, left, cast, items, render)
            == if !Missing(actual) && Contains(items, actual.value) then Yes
               else if left.SqlNull? || Null in items then Unknown
               else No
  {
    var cast := ScalarAt(d, [], items[0]).cast;
    var left := CastValue(cast, actual, render);
    var truths := seq(|items|, i requires 0 <= i < |items| =>
      Related(Eq, left, OperandValue(cast, Coerce(d, items[i]), render)));
    forall i | 0 <= i < |items|
      ensures truths[i] == if left.SqlNull? || items[i].Null? then Unknown else Decided(Same(actual.value, items[i]))
      ensures !Missing(actual) && Same(actual.value, items[i]) ==> truths[i] == Yes
    {
      ItemIsKept(d, cast, actual, items[i], render);
    }
    if !Missing(actual) && Contains(items, actual.value) {
      var i :| 0 <= i < |items| && Same(actual.value, items[i]);
      assert truths[i] == Yes;
    } else {
      assert Yes !in truths;
      if Null in items {
        var i :| 0 <= i < |items| && items[i] == Null;
        assert truths[i] == Unknown;
      } else if left.SqlNull? {
        assert truths[0] == Unknown;
      }
    }
  }

  /** SQL decides the comparison just as the interpreter does, or leaves it undecided. */
  predicate Agrees(t: Truth, accepted: bool) {
    t == Unknown || t == Decided(accepted)
  }

  lemma ListAgrees(d: Dialect, op: CompareOp, actual: Option<Json>, operand: Json, render: Render)
    requires op == In || op == Nin
    requires operand.Arr? && AtomSuits(d, op, actual, operand)
    ensures Agrees(AtomTruth(d, op, actual, operand, render), Compare(op, actual, operand))
  {
    if operand.items != [] {
      MembershipIsKept(d, actual, operand.items, render);
    }
  }

  lemma AtomAgrees(d: Dialect, op: CompareOp, actual: Option<Json>, operand: Json, render: Render)
    requires AtomSuits(d, op, actual, operand)
    requires op == In || op == Nin ==> operand.Arr?
    ensures Agrees(AtomTruth(d, op, actual, operand, render), Compare(op, actual, operand))
  {
    match op
    case In => ListAgrees(d, op, actual, operand, render);
    case Nin => ListAgrees(d, op, actual, operand, render);
    case Eq =>
      if !operand.Null? {
        EqualityIsKept(d, ScalarAt(d, [], operand).cast, actual, operand, render);
      }
    case Ne =>
      EqualityIsKept(d, ScalarAt(d, [], operand).cast, actual, operand, render);
      NotEqualIsKept(d, ScalarAt(d, [], operand).cast, actual, operand, render);
    case _ =>
  }

  /* ---------- whole queries ---------- */

  /** The truth values of a list of subqueries. */
  function Truths(d: Dialect, nodes: seq<Node>, doc: Json, render: Render): (r: seq<Truth>)
    requires IntendedAll(d, nodes).Ok?
    ensures |r| == |nodes|
  {
    var conds := IntendedAll(d, nodes).value;
    seq(|conds|, i requires 0 <= i < |conds| => Eval(d, conds[i], doc, render))
  }

  lemma TruthAt(d: Dialect, nodes: seq<Node>, doc: Json, render: Render, i: nat)
    requires IntendedAll(d, nodes).Ok? && i < |nodes|
    ensures Intended(d, nodes[i]).Ok?
    ensures Truths(d, nodes, doc, render)[i] == Selects(d, nodes[i], doc, render)
  {
  }

  /** One step of the meaning of a query, connective by connective. */
  lemma ListTruths(d: Dialect, children: seq<Node>, doc: Json, render: Render)
    requires IntendedAll(d, children).Ok?
    ensures Selects(d, And(children), doc, render) == AllOf(Truths(d, children, doc, render))
    ensures Selects(d, Or(children), doc, render) == AnyOf(Truths(d, children, doc, render))
    ensures Selects(d, Nor(children), doc, render) == Inverse(AnyOf(Truths(d, children, doc, render)))
  {
  }

  lemma NotTruth(d: Dialect, child: Node, doc: Json, render: Render)
    requires Intended(d, child).Ok?
    ensures Selects(d, Not(child), doc, render) == Inverse(Selects(d, child, doc, render))
  {
  }

  lemma ExistsTruth(d: Dialect, path: Path, present: bool, doc: Json, render: Render)
    requires PathSuits(d, doc, path)
    ensures Selects(d, Exists(path, present), doc, render) == Decided(Evaluate(Exists(path, present), doc))
  {
    AlignedReadsTheSame(d, doc, path);
    assert Eval(d, Present(path), doc, render) == Decided(Find(d, doc, path).Some?);
    assert Eval(d, Negate(Present(path)), doc, render) == Inverse(Eval(d, Present(path), doc, render));
  }

  lemma MissingIsMissing(d: Dialect, op: CompareOp, a: Option<Json>, b: Option<Json>, operand: Json, render: Render)
    requires a == b || (Missing(a) && Missing(b))
    ensures AtomTruth(d, op, a, operand, render) == AtomTruth(d, op, b, operand, render)
  {
  }

  lemma CmpTruth(d: Dialect, op: CompareOp, path: Path, operand: Json, doc: Json, render: Render)
    requires IntendedAtom(d, op, path, operand).Ok?
    requires ReadableFor(d, doc, path)
    ensures Selects(d, Cmp(op, path, operand), doc, render) == AtomTruth(d, op, Extract(doc, path), operand, render)
  {
    AlignedReadsTheSame(d, doc, path);
    AtomIsItsTruth(d, op, path, operand, doc, render);
    MissingIsMissing(d, op, Fetch(d, doc, path), Extract(doc, path), operand, render);
  }

  lemma ListsAgree(nodes: seq<Node>, doc: Json, ts: seq<Truth>)
    requires |ts| == |nodes| && forall i :: 0 <= i < |ts| ==> Agrees(ts[i], Evaluate(nodes[i], doc))
    ensures Agrees(AllOf(ts), Evaluate(And(nodes), doc))
    ensures Agrees(AnyOf(ts), Evaluate(Or(nodes), doc))
    ensures Agrees(Inverse(AnyOf(ts)), Evaluate(Nor(nodes), doc))
  {
  }

  /** The subqueries agree with the interpreter one by one, hence their junctions do. */
  lemma {:induction false} ChildrenAgree(d: Dialect, nodes: seq<Node>, doc: Json, render: Render)
    requires IntendedAll(d, nodes).Ok?
    requires forall i :: 0 <= i < |nodes| ==> Suits(d, nodes[i], doc)
    ensures Agrees(AllOf(Truths(d, nodes, doc, render)), Evaluate(And(nodes), doc))
    ensures Agrees(AnyOf(Truths(d, nodes, doc, render)), Evaluate(Or(nodes), doc))
    ensures Agrees(Inverse(AnyOf(Truths(d, nodes, doc, render))), Evaluate(Nor(nodes), doc))
    decreases nodes, 0
  {
    forall i | 0 <= i < |nodes|
      ensures Agrees(Truths(d, nodes, doc, render)[i], Evaluate(nodes[i], doc))
    {
      TruthAt(d, nodes, doc, render, i);
      SqlUnderApproximates(d, nodes[i], doc, render);
    }
    ListsAgree(nodes, doc, Truths(d, nodes, doc, render));
  }

  /** Whatever the nesting of and, or, nor and not: a row that SQL finds true is accepted by the
      interpreter, one that it finds false is rejected. */
  lemma {:induction false} SqlUnderApproximates(d: Dialect, node: Node, doc: Json, render: Render)
    requires Intended(d, node).Ok? && Suits(d, node, doc)
    ensures Agrees(Selects(d, node, doc, render), Evaluate(node, doc))
    decreases node, 1
  {
    match node
    case And(children) =>
      ChildrenAgree(d, children, doc, render);
      ListTruths(d, children, doc, render);
    case Or(children) =>
      ChildrenAgree(d, children, doc, render);
      ListTruths(d, children, doc, render);
    case Nor(children) =>
      ChildrenAgree(d, children, doc, render);
      ListTruths(d, children, doc, render);
    case Not(child) =>
      SqlUnderApproximates(d, child, doc, render);
      NotTruth(d, child, doc, render);
    case Exists(path, present) => ExistsTruth(d, path, present, doc, render);
    case Cmp(op, path, operand) =>
      CmpTruth(d, op, path, operand, doc, render);
      AtomAgrees(d, op, Extract(doc, path), operand, render);
    case _ =>
  }

  /* ---------- when SQL decides, and when it selects exactly the accepted rows ---------- */

  /** The left side has a value in the type that the operand calls for. */
  predicate Known(d: Dialect, actual: Option<Json>, hint: Json) {
    && !Missing(actual)
    && (d.Postgres? && hint.Num? ==> actual.value.Num?)
    && (d.Postgres? && hint.Bool? ==> actual.value.Bool?)
  }

  predicate AtomDecided(d: Dialect, op: CompareOp, actual: Option<Json>, operand: Json) {
    match op
    case Eq => operand.Null? || Known(d, actual, operand)
    case Ne => true
    case In => ListDecided(d, actual, Items(operand))
    case Nin => ListDecided(d, actual, Items(operand))
    case _ => Known(d, actual, operand)
  }

  predicate ListDecided(d: Dialect, actual: Option<Json>, items: seq<Json>) {
    || items == []
    || (!Missing(actual) && Contains(items, actual.value))
    || (Known(d, actual, items[0]) && Null !in items)
  }

  lemma KnownHasValue(d: Dialect, actual: Option<Json>, hint: Json, render: Render)
    ensures CastValue(ScalarAt(d, [], hint).cast, actual, render).SqlNull? <==> !Known(d, actual, hint)
  {
  }

  /** SQL leaves a suitable comparison undecided exactly when the value is missing, is not of the type
      that was asked for, or could still equal a null in the list. */
  lemma UndecidedExactlyWhen(d: Dialect, op: CompareOp, actual: Option<Json>, operand: Json, render: Render)
    requires AtomSuits(d, op, actual, operand)
    requires op == In || op == Nin ==> operand.Arr?
    ensures AtomTruth(d, op, actual, operand, render) != Unknown <==> AtomDecided(d, op, actual, operand)
  {
    match op
    case In => ListDecides(d, op, actual, operand, render);
    case Nin => ListDecides(d, op, actual, operand, render);
    case Ne => EqualityIsKept(d, ScalarAt(d, [], operand).cast, actual, operand, render);
    case _ =>
  }

  lemma ListDecides(d: Dialect, op: CompareOp, actual: Option<Json>, operand: Json, render: Render)
    requires op == In || op == Nin
    requires operand.Arr? && AtomSuits(d, op, actual, operand)
    ensures AtomTruth(d, op, actual, operand, render) != Unknown <==> AtomDecided(d, op, actual, operand)
  {
    if operand.items != [] {
      MembershipIsKept(d, actual, operand.items, render);
      KnownHasValue(d, actual, operand.items[0], render);
    }
  }

  /** A comparison is answered as the interpreter does, the undecided ones counting as not selected. */
  predicate AtomAnswered(d: Dialect, op: CompareOp, actual: Option<Json>, operand: Json) {
    match op
    case In => !(Null in Items(operand) && Missing(actual))
    case Nin =>
      Items(operand) == [] ||
      if Null in Items(operand) then Missing(actual) || Contains(Items(operand), actual.value)
      else Known(d, actual, First(operand))
    case _ => true
  }

  /** For one suitable comparison the selected rows are the accepted ones exactly when it is answered:
      `$in` loses the missing values that a null in its list stands for, `$nin` loses the rows that have no
      value to compare and those that a null in its list leaves open. */
  lemma AnsweredExactlyWhen(d: Dialect, op: CompareOp, actual: Option<Json>, operand: Json, render: Render)
    requires AtomSuits(d, op, actual, operand)
    requires op == In || op == Nin ==> operand.Arr?
    ensures (AtomTruth(d, op, actual, operand, render) == Yes <==> Compare(op, actual, operand))
       <==> AtomAnswered(d, op, actual, operand)
  {
    AtomAgrees(d, op, actual, operand, render);
    match op
    case In => ListAnswered(d, op, actual, operand, render);
    case Nin => ListAnswered(d, op, actual, operand, render);
    case Ne => UndecidedExactlyWhen(d, op, actual, operand, render);
    case Eq =>
      if !operand.Null? {
        EqualityIsKept(d, ScalarAt(d, [], operand).cast, actual, operand, render);
      }
    case _ =>
  }

  lemma NullIsContained(items: seq<Json>)
    ensures Contains(items, Null) <==> Null in items
  {
  }

  lemma ListAnswered(d: Dialect, op: CompareOp, actual: Option<Json>, operand: Json, render: Render)
    requires op == In || op == Nin
    requires operand.Arr? && AtomSuits(d, op, actual, operand)
    ensures (AtomTruth(d, op, actual, operand, render) == Yes <==> Compare(op, actual, operand))
       <==> AtomAnswered(d, op, actual, operand)
  {
    NullIsContained(operand.items);
    if operand.items != [] {
      MembershipIsKept(d, actual, operand.items, render);
      KnownHasValue(d, actual, operand.items[0], render);
    }
  }

  /** Whether SQL decides a query, found out without the database: by the interpreter, and by what each
      comparison needs. One decided child can settle a junction whatever the others do. */
  predicate Settles(d: Dialect, node: Node, doc: Json)
    decreases node
  {
    match node
    case And(children) =>
      || (exists i :: 0 <= i < |children| && Settles(d, children[i], doc) && !Evaluate(children[i], doc))
      || (forall i :: 0 <= i < |children| ==> Settles(d, children[i], doc))
    case Or(children) =>
      || (exists i :: 0 <= i < |children| && Settles(d, children[i], doc) && Evaluate(children[i], doc))
      || (forall i :: 0 <= i < |children| ==> Settles(d, children[i], doc))
    case Nor(children) =>
      || (exists i :: 0 <= i < |children| && Settles(d, children[i], doc) && Evaluate(children[i], doc))
      || (forall i :: 0 <= i < |children| ==> Settles(d, children[i], doc))
    case Not(child) => Settles(d, child, doc)
    case Cmp(op, path, operand) => AtomDecided(d, op, Extract(doc, path), operand)
    case _ => true
  }

  /** The truth of each child, told by the interpreter where the child settles. */
  predicate Told(nodes: seq<Node>, doc: Json, d: Dialect, ts: seq<Truth>) {
    |ts| == |nodes| &&
    forall i :: 0 <= i < |ts| ==>
      ts[i] == if Settles(d, nodes[i], doc) then Decided(Evaluate(nodes[i], doc)) else Unknown
  }

  lemma AllOfSettles(nodes: seq<Node>, doc: Json, d: Dialect, ts: seq<Truth>)
    requires Told(nodes, doc, d, ts)
    ensures AllOf(ts) != Unknown <==> Settles(d, And(nodes), doc)
  {
    if i :| 0 <= i < |nodes| && Settles(d, nodes[i], doc) && !Evaluate(nodes[i], doc) {
      assert ts[i] == No;
    } else {
      assert No !in ts;
      if i :| 0 <= i < |nodes| && !Settles(d, nodes[i], doc) {
        assert ts[i] == Unknown;
      }
    }
  }

  lemma AnyOfSettles(nodes: seq<Node>, doc: Json, d: Dialect, ts: seq<Truth>)
    requires Told(nodes, doc, d, ts)
    ensures AnyOf(ts) != Unknown <==> Settles(d, Or(nodes), doc)
    ensures AnyOf(ts) != Unknown <==> Settles(d, Nor(nodes), doc)
  {
    if i :| 0 <= i < |nodes| && Settles(d, nodes[i], doc) && Evaluate(nodes[i], doc) {
      assert ts[i] == Yes;
    } else {
      assert Yes !in ts;
      if i :| 0 <= i < |nodes| && !Settles(d, nodes[i], doc) {
        assert ts[i] == Unknown;
      }
    }
  }

  lemma {:induction false} ChildrenAreTold(d: Dialect, nodes: seq<Node>, doc: Json, render: Render)
    requires IntendedAll(d, nodes).Ok?
    requires forall i :: 0 <= i < |nodes| ==> Suits(d, nodes[i], doc)
    ensures Told(nodes, doc, d, Truths(d, nodes, doc, render))
    decreases nodes, 0
  {
    forall i | 0 <= i < |nodes|
      ensures Truths(d, nodes, doc, render)[i]
           == if Settles(d, nodes[i], doc) then Decided(Evaluate(nodes[i], doc)) else Unknown
    {
      TruthAt(d, nodes, doc, render, i);
      SqlUnderApproximates(d, nodes[i], doc, render);
      DecidedExactlyWhenSettled(d, nodes[i], doc, render);
    }
  }

  /** SQL decides a suitable query exactly when it settles. */
  lemma {:induction false} DecidedExactlyWhenSettled(d: Dialect, node: Node, doc: Json, render: Render)
    requires Intended(d, node).Ok? && Suits(d, node, doc)
    ensures Selects(d, node, doc, render) != Unknown <==> Settles(d, node, doc)
    decreases node, 1
  {
    match node
    case And(children) =>
      ChildrenAreTold(d, children, doc, render);
      ListTruths(d, children, doc, render);
      AllOfSettles(children, doc, d, Truths(d, children, doc, render));
    case Or(children) =>
      ChildrenAreTold(d, children, doc, render);
      ListTruths(d, children, doc, render);
      AnyOfSettles(children, doc, d, Truths(d, children, doc, render));
    case Nor(children) =>
      ChildrenAreTold(d, children, doc, render);
      ListTruths(d, children, doc, render);
      AnyOfSettles(children, doc, d, Truths(d, children, doc, render));
    case Not(child) =>
      DecidedExactlyWhenSettled(d, child, doc, render);
      NotTruth(d, child, doc, render);
    case Exists(path, present) => ExistsTruth(d, path, present, doc, render);
    case Cmp(op, path, operand) =>
      CmpTruth(d, op, path, operand, doc, render);
      UndecidedExactlyWhen(d, op, Extract(doc, path), operand, render);
    case _ =>
  }

  /** A suitable row is selected exactly when it is accepted, unless it is accepted and does not settle:
      those rows, and no others, are lost. */
  lemma SelectsExactlyWhen(d: Dialect, node: Node, doc: Json, render: Render)
    requires Intended(d, node).Ok? && Suits(d, node, doc)
    ensures (Selects(d, node, doc, render) == Yes <==> Evaluate(node, doc))
       <==> (!Evaluate(node, doc) || Settles(d, node, doc))
  {
    SqlUnderApproximates(d, node, doc, render);
    DecidedExactlyWhenSettled(d, node, doc, render);
  }

  /** The fragment without negations and without nulls in lists. */
  predicate Positive(node: Node)
    decreases node
  {
    match node
    case And(children) => forall i :: 0 <= i < |children| ==> Positive(children[i])
    case Or(children) => forall i :: 0 <= i < |children| ==> Positive(children[i])
    case Nor(_) => false
    case Not(_) => false
    case Cmp(op, _, operand) => op != Nin && (op == In ==> Null !in Items(operand))
    case _ => true
  }

  lemma PositiveAtomSettles(d: Dialect, op: CompareOp, actual: Option<Json>, operand: Json)
    requires AtomSuits(d, op, actual, operand) && op != Nin
    requires op == In ==> operand.Arr? && Null !in operand.items
    requires Compare(op, actual, operand)
    ensures AtomDecided(d, op, actual, operand)
  {
    AnsweredExactlyWhen(d, op, actual, operand, _ => "");
    UndecidedExactlyWhen(d, op, actual, operand, _ => "");
  }

  /** What a positive query accepts it settles. */
  lemma {:induction false} PositiveSettles(d: Dialect, node: Node, doc: Json)
    requires Positive(node) && Suits(d, node, doc) && Evaluate(node, doc)
    ensures Settles(d, node, doc)
    decreases node
  {
    match node
    case And(children) =>
      forall i | 0 <= i < |children| ensures Settles(d, children[i], doc) {
        PositiveSettles(d, children[i], doc);
      }
    case Or(children) =>
      var i :| 0 <= i < |children| && Evaluate(children[i], doc);
      PositiveSettles(d, children[i], doc);
    case Cmp(op, path, operand) => PositiveAtomSettles(d, op, Extract(doc, path), operand);
    case _ =>
  }

  /** On suitable documents a positive query selects the same rows everywhere. */
  lemma PositiveQueriesSelectExactly(d: Dialect, node: Node, doc: Json, render: Render)
    requires Intended(d, node).Ok? && Suits(d, node, doc) && Positive(node)
    ensures Selects(d, node, doc, render) == Yes <==> Evaluate(node, doc)
  {
    SelectsExactlyWhen(d, node, doc, render);
    if Evaluate(node, doc) {
      PositiveSettles(d, node, doc);
    }
  }

  /* ---------- where the two meanings part ---------- */

  /** Negating any suitable query selects the accepted rows exactly when the query accepts the row, and so
      its negation does not, or settles on it. */
  lemma NegationAgreesExactlyWhen(d: Dialect, child: Node, doc: Json, render: Render)
    requires Intended(d, child).Ok? && Suits(d, child, doc)
    ensures (Selects(d, Not(child), doc, render) == Yes <==> Evaluate(Not(child), doc))
       <==> Evaluate(child, doc) || Settles(d, child, doc)
  {
    SelectsExactlyWhen(d, Not(child), doc, render);
  }

  /** The rows that `$not` and `$nor` lose: a comparison over a missing value. */
  lemma NegatedMissingIsLost(d: Dialect, path: Path, operand: Json, doc: Json, render: Render)
    requires PathSuits(d, doc, path) && Extract(doc, path).None?
    requires Plain(operand) && !operand.Null?
    ensures var query := Not(Cmp(Eq, path, operand));
            Selects(d, query, doc, render) == Unknown && Evaluate(query, doc)
  {
    DecidedExactlyWhenSettled(d, Not(Cmp(Eq, path, operand)), doc, render);
  }

  /** `$ne: null` is right only where nothing is stored: SQL also selects the nulls and no value at all. */
  lemma NotEqualNullAgreesExactlyWhen(d: Dialect, path: Path, doc: Json, render: Render)
    requires PathSuits(d, doc, path) && !SpellsNull(path)
    ensures var query := Cmp(Ne, path, Null);
            (Selects(d, query, doc, render) == Yes <==> Evaluate(query, doc)) <==> Extract(doc, path).None?
  {
    CmpTruth(d, Ne, path, Null, doc, render);
  }

  /** The number that SQLite stores for a number or a boolean. */
  function StoredNumber(j: Json): Number
    requires j.Num? || j.Bool?
  {
    if j.Num? then j.n else Typed01(j.b)
  }

  function ShownText(j: Json, render: Render): string {
    if j.Str? then j.s else render(j)
  }

  /** A range that holds in SQLite between values that are not both numbers: booleans count as 1 and 0,
      everything else as text, and numbers come before text. */
  predicate SqliteOverreaches(op: CompareOp, actual: Json, operand: Json, render: Render)
    requires !actual.Null?
  {
    var numeric := actual.Num? || actual.Bool?;
    match operand
    case Num(_) =>
      if numeric then !actual.Num? && InOrder(op, StoredNumber(actual), operand.n) else op == Gt || op == Gte
    case Bool(_) =>
      if numeric then InOrder(op, StoredNumber(actual), StoredNumber(operand)) else op == Gt || op == Gte
    case Str(s) =>
      if numeric then op == Lt || op == Lte else TextHolds(op, Text.Compare(ShownText(actual, render), s))
    case _ => false
  }

  /** In Postgres the operand's type decides: a stored value of another type is NULL for numbers and
      booleans, and is shown as text for text. */
  predicate PostgresOverreaches(op: CompareOp, actual: Json, operand: Json, render: Render) {
    match operand
    case Bool(b) => actual.Bool? && TextHolds(op, (if actual.b then 1 else 0) - (if b then 1 else 0))
    case Str(s) => TextHolds(op, Text.Compare(ShownText(actual, render), s))
    case _ => false
  }

  predicate Overreaches(d: Dialect, op: CompareOp, actual: Json, operand: Json, render: Render)
    requires !actual.Null?
  {
    match d
    case Sqlite => SqliteOverreaches(op, actual, operand, render)
    case Postgres => PostgresOverreaches(op, actual, operand, render)
  }

  predicate Ranging(op: CompareOp) {
    op == Gt || op == Gte || op == Lt || op == Lte
  }

  lemma SqliteRange(op: CompareOp, actual: Option<Json>, operand: Json, render: Render)
    requires Ranging(op) && Plain(operand)
    ensures (AtomTruth(Sqlite, op, actual, operand, render) == Yes <==> Compare(op, actual, operand))
       <==> (Missing(actual) || !SqliteOverreaches(op, actual.value, operand, render))
  {
  }

  lemma PostgresRange(op: CompareOp, actual: Option<Json>, operand: Json, render: Render)
    requires Ranging(op) && Plain(operand)
    ensures (AtomTruth(Postgres, op, actual, operand, render) == Yes <==> Compare(op, actual, operand))
       <==> (Missing(actual) || !PostgresOverreaches(op, actual.value, operand, render))
  {
  }

  /** A range with any scalar operand over any stored value: the interpreter compares numbers only, and the
      rows are the same exactly when the database does not find an order where the interpreter sees none. */
  lemma RangeAgreesExactlyWhen(d: Dialect, op: CompareOp, path: Path, operand: Json, doc: Json, render: Render)
    requires Ranging(op) && Plain(operand)
    requires PathSuits(d, doc, path) && !SpellsNull(path)
    ensures (Selects(d, Cmp(op, path, operand), doc, render) == Yes <==> Evaluate(Cmp(op, path, operand), doc))
       <==> (Missing(Extract(doc, path)) || !Overreaches(d, op, Extract(doc, path).value, operand, render))
  {
    CmpTruth(d, op, path, operand, doc, render);
    if d.Sqlite? {
      SqliteRange(op, Extract(doc, path), operand, render);
    } else {
      PostgresRange(op, Extract(doc, path), operand, render);
    }
  }

  /** A numeric range over a stored text holds in SQLite and nowhere else. */
  lemma TextIsAboveNumbers(text: string, n: Number, render: Render)
    ensures AtomTruth(Sqlite, Gt, Some(Str(text)), Num(n), render) == Yes
    ensures AtomTruth(Postgres, Gt, Some(Str(text)), Num(n), render) == Unknown
    ensures !Compare(Gt, Some(Str(text)), Num(n))
  {
  }

  /** Equality across types: what SQL takes for equal and the interpreter does not. */
  predicate Confused(d: Dialect, actual: Json, operand: Json, render: Render) {
    match d
    case Sqlite =>
      || (actual.Bool? && operand == Num(Typed01(actual.b)))
      || (operand.Bool? && actual == Num(Typed01(operand.b)))
      || (!Plain(actual) && operand == Str(render(actual)))
    case Postgres => !actual.Str? && operand == Str(render(actual))
  }

  lemma ConfusedExactlyWhen(d: Dialect, actual: Option<Json>, operand: Json, render: Render)
    requires Plain(operand) && !operand.Null?
    ensures (AtomTruth(d, Eq, actual, operand, render) == Yes <==> Compare(Eq, actual, operand))
       <==> (Missing(actual) || !Confused(d, actual.value, operand, render))
  {
  }

  /** Equality with any scalar, on any document: the rows are the same exactly when the stored value is not
      taken for the operand across types. */
  lemma EqualityAgreesExactlyWhen(d: Dialect, path: Path, operand: Json, doc: Json, render: Render)
    requires Plain(operand) && !operand.Null?
    requires PathSuits(d, doc, path) && !SpellsNull(path)
    ensures (Selects(d, Cmp(Eq, path, operand), doc, render) == Yes <==> Evaluate(Cmp(Eq, path, operand), doc))
       <==> (Missing(Extract(doc, path)) || !Confused(d, Extract(doc, path).value, operand, render))
  {
    CmpTruth(d, Eq, path, operand, doc, render);
    ConfusedExactlyWhen(d, Extract(doc, path), operand, render);
  }

  /** An array's length is a property to the interpreter and nothing to the databases. */
  lemma LengthIsRead(d: Dialect)
    ensures var doc, path := Obj([Field("tags", Arr([]))]), [Key("tags"), Key(LENGTH)];
            Extract(doc, path) == Some(Num(Zero)) && Find(d, doc, path) == None
  {
    var path := [Key("tags"), Key(LENGTH)];
    assert path[1..] == [Key(LENGTH)];
    assert path[1..][1..] == [];
    assert Below(Arr([]), Key(LENGTH)) == Some(Num(Zero));
    assert Extract(Arr([]), path[1..]) == Some(Num(Zero));
    assert !AllDigits(LENGTH) by { assert LENGTH[0] == 'l'; }
    assert Position(LENGTH) == None;
    assert StoredBelow(d, Arr([]), Key(LENGTH)) == None;
  }

  /** Postgres counts a negative segment from the array's end, and reads a digit as an object's key. */
  lemma PostgresReadsMore()
    ensures var doc, path := Obj([Field("t", Arr([Bool(true)]))]), [Key("t"), Key("-1")];
            Extract(doc, path) == None && Find(Postgres, doc, path) == Some(Bool(true))
    ensures var doc, path := Obj([Field("0", Bool(true))]), [Index(0)];
            Extract(doc, path) == None && Find(Postgres, doc, path) == Some(Bool(true))
  {
  }

  /** A field called null cannot be read by Postgres's comparisons, whatever it holds. */
  lemma NullFieldIsUnread(render: Render, value: Json)
    requires !value.Null?
    ensures var query, doc := Cmp(Eq, [Key("null")], Null), Obj([Field("null", value)]);
            Selects(Postgres, query, doc, render) == Yes && !Evaluate(query, doc)
  {
  }
}
