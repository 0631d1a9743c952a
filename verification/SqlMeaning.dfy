/** What a compiled query selects, in SQL's three-valued logic, against what the interpreter accepts. */
module SqlMeaning {
  import opened Basics
  import opened Documents
  import opened Query
  import opened SqlCompiler
  import Text

  /* ---------- three truth values ---------- */

  datatype Truth = Yes | No | Unknown

  function Decided(a: bool): Truth {
    if a then Yes else No
  }

  function Inverse(t: Truth): Truth {
    match t
    case Yes => No
    case No => Yes
    case Unknown => Unknown
  }

  /** AND and OR of any number of conditions, after Kleene. */
  function AllOf(ts: seq<Truth>): Truth {
    if No in ts then No else if Unknown in ts then Unknown else Yes
  }

  function AnyOf(ts: seq<Truth>): Truth {
    if Yes in ts then Yes else if Unknown in ts then Unknown else No
  }

  /* ---------- paths, as the databases walk them ---------- */

  /** A segment of Postgres's text path meets an array: integer text counts from either end. */
  function ArrayElement(items: seq<Json>, position: int): Option<Json> {
    var i := if position < 0 then |items| + position else position;
    if 0 <= i < |items| then Some(items[i]) else None
  }

  function StoredBelow(d: Dialect, value: Json, segment: Segment): Option<Json> {
    match value
    case Obj(fields) =>
      (match segment
       case Key(name) => Lookup(fields, name)
       case Index(at) => if d.Sqlite? then None else Lookup(fields, Text.NatText(at)))
    case Arr(items) =>
      (match segment
       case Key(name) =>
         if d.Sqlite? || Position(name).None? then None else ArrayElement(items, Position(name).value)
       case Index(at) => ArrayElement(items, at))
    case _ => None
  }

  function Find(d: Dialect, doc: Json, path: Path): Option<Json>
    decreases |path|
  {
    if path == [] then Some(doc)
    else
      match StoredBelow(d, doc, path[0])
      case None => None
      case Some(next) => Find(d, next, path[1..])
  }

  function LowerCase(s: string): string {
    seq(|s|, i requires 0 <= i < |s| => if 'A' <= s[i] <= 'Z' then (s[i] as int + 32) as char else s[i])
  }

  /** In the unquoted array literal of `#>>`, an element spelt null is SQL NULL, and the result with it. */
  predicate SpellsNull(path: Path) {
    exists i :: 0 <= i < |path| && path[i].Key? && LowerCase(path[i].name) == "null"
  }

  function Fetch(d: Dialect, doc: Json, path: Path): Option<Json> {
    if d.Postgres? && SpellsNull(path) then None else Find(d, doc, path)
  }

  /* ---------- SQL values ---------- */

  datatype SqlValue = SqlNull | SqlNumber(n: Number) | SqlText(s: string) | SqlBoolean(b: bool)

  /** The text a database gives a JSON value that is not a string; the theorems hold for every choice. */
  type Render = Json -> string

  function Typed01(b: bool): Number {
    if b then ONE else Zero
  }

  function CastValue(cast: Cast, found: Option<Json>, render: Render): SqlValue {
    if found.None? || found.value.Null? then SqlNull
    else
      match cast
      case Typed =>
        (match found.value
         case Num(n) => SqlNumber(n)
         case Bool(b) => SqlNumber(Typed01(b))
         case Str(s) => SqlText(s)
         case _ => SqlText(render(found.value)))
      case AsText => SqlText(if found.value.Str? then found.value.s else render(found.value))
      case AsNumber => if found.value.Num? then SqlNumber(found.value.n) else SqlNull
      case AsBoolean => if found.value.Bool? then SqlBoolean(found.value.b) else SqlNull
  }

  /** A bound operand, taken in the type of the expression it meets. One that has no such form makes the
      database refuse the statement; it is given no value here. */
  function OperandValue(cast: Cast, value: Json, render: Render): SqlValue {
    CastValue(cast, Some(value), render)
  }

  function TextHolds(op: CompareOp, c: int): bool {
    match op
    case Eq => c == 0
    case Ne => c != 0
    case Gt => c > 0
    case Gte => c >= 0
    case Lt => c < 0
    case Lte => c <= 0
    case _ => false
  }

  function NumberHolds(op: CompareOp, l: Number, r: Number): bool {
    match op
    case Eq => l == r
    case Ne => l != r
    case _ => InOrder(op, l, r)
  }

  /** SQLite orders values of different storage classes: numbers before text. */
  function Rank(v: SqlValue): int {
    match v
    case SqlNull => 0
    case SqlNumber(_) => 1
    case SqlBoolean(_) => 2
    case SqlText(_) => 3
  }

  function Related(op: CompareOp, l: SqlValue, r: SqlValue): Truth {
    if l.SqlNull? || r.SqlNull? then Unknown
    else if l.SqlNumber? && r.SqlNumber? then Decided(NumberHolds(op, l.n, r.n))
    else if l.SqlText? && r.SqlText? then Decided(TextHolds(op, Text.Compare(l.s, r.s)))
    else if l.SqlBoolean? && r.SqlBoolean? then Decided(TextHolds(op, (if l.b then 1 else 0) - (if r.b then 1 else 0)))
    else Decided(TextHolds(op, Rank(l) - Rank(r)))
  }

  function MarkValue(cast: Cast, mark: Mark, render: Render): SqlValue {
    if mark.Closed? && mark.param.Operand? then OperandValue(cast, mark.param.value, render) else SqlNull
  }

  function Member(left: SqlValue, cast: Cast, marks: seq<Mark>, render: Render): Truth {
    AnyOf(seq(|marks|, i requires 0 <= i < |marks| => Related(Eq, left, MarkValue(cast, marks[i], render))))
  }

  /** The truth value of a closed condition on one stored document. */
  function Eval(d: Dialect, c: Cond, doc: Json, render: Render): Truth
    decreases c
  {
    match c
    case Const(value) => Decided(value)
    case Conj(conds) => AllOf(seq(|conds|, i requires 0 <= i < |conds| => Eval(d, conds[i], doc, render)))
    case Disj(conds) => AnyOf(seq(|conds|, i requires 0 <= i < |conds| => Eval(d, conds[i], doc, render)))
    case Negate(cond) => Inverse(Eval(d, cond, doc, render))
    case IsNull(left) => Decided(LeftValue(d, left, doc, render).SqlNull?)
    case Relation(left, op, mark) =>
      Related(op, LeftValue(d, left, doc, render), MarkValue(left.cast, mark, render))
    case Within(left, marks) => Member(LeftValue(d, left, doc, render), left.cast, marks, render)
    case NotWithin(left, marks) => Inverse(Member(LeftValue(d, left, doc, render), left.cast, marks, render))
    case Present(path) => Decided(Find(d, doc, path).Some?)
  }

  function LeftValue(d: Dialect, left: Scalar, doc: Json, render: Render): SqlValue {
    CastValue(left.cast, Fetch(d, doc, left.path), render)
  }

  /** The truth value of a query in a database. */
  function Selects(d: Dialect, node: Node, doc: Json, render: Render): Truth
    requires Intended(d, node).Ok?
  {
    Eval(d, Intended(d, node).value, doc, render)
  }

  /* ---------- where database and interpreter read the same value ---------- */

  /** Postgres goes on from a value that the interpreter does not see, and finds nothing. */
  predicate LeadsNowhere(found: Option<Json>, rest: Path) {
    found.Some? ==> Find(Postgres, found.value, rest).None?
  }

  /** Segment by segment: the path does not end in the length of an array, and in Postgres neither an index
      that meets an object nor a negative number that meets an array leads to anything. */
  predicate Aligned(d: Dialect, doc: Json, path: Path)
    decreases |path|
  {
    if path == [] then true
    else
      match doc
      case Obj(fields) =>
        (match path[0]
         case Key(name) =>
           var next := Lookup(fields, name);
           next.Some? ==> Aligned(d, next.value, path[1..])
         case Index(at) => d.Postgres? ==> LeadsNowhere(Lookup(fields, Text.NatText(at)), path[1..]))
      case Arr(items) =>
        (match path[0]
         case Key(name) =>
           if name == LENGTH then |path| > 1
           else
             d.Postgres? && Position(name).Some? ==>
               LeadsNowhere(ArrayElement(items, Position(name).value), path[1..])
         case Index(at) => at < |items| ==> Aligned(d, items[at], path[1..]))
      case _ => true
  }

  lemma LengthIsNoPosition()
    ensures Position(LENGTH).None?
  {
    assert LENGTH[0] == 'l';
  }

  /** A key that is no index is nothing to an array but its length; Postgres may count it from the end. */
  lemma KeyOnArray(d: Dialect, items: seq<Json>, name: string)
    requires !AllDigits(name)
    ensures Below(Arr(items), Key(name)) == if name == LENGTH then Some(Num(NumberOf(|items|))) else None
    ensures name == LENGTH || d.Sqlite? || Position(name).None? ==> StoredBelow(d, Arr(items), Key(name)) == None
  {
    LengthIsNoPosition();
  }

  /** Database and interpreter read the same value at a path exactly when it is aligned with the document. */
  lemma {:induction false} AlignedReadsTheSame(d: Dialect, doc: Json, path: Path)
    requires Parsed(path)
    ensures Aligned(d, doc, path) <==> Find(d, doc, path) == Extract(doc, path)
    decreases |path|
  {
    if path != [] {
      var here, there := Below(doc, path[0]), StoredBelow(d, doc, path[0]);
      if doc.Arr? && path[0].Key? {
        KeyOnArray(d, doc.items, path[0].name);
        assert path[0].name == LENGTH ==> (Extract(here.value, path[1..]).Some? <==> |path| == 1);
      }
      if here == there && here.Some? {
        assert forall i :: 0 <= i < |path[1..]| ==> path[1..][i] == path[i + 1];
        AlignedReadsTheSame(d, here.value, path[1..]);
      }
    }
  }

  /** Keys meet objects and indices meet arrays, as far as the document goes. */
  predicate Regular(doc: Json, path: Path)
    decreases |path|
  {
    path != [] && (doc.Obj? || doc.Arr?) ==>
      && (doc.Obj? <==> path[0].Key?)
      && var next := Below(doc, path[0]);
         next.Some? ==> Regular(next.value, path[1..])
  }

  lemma {:induction false} RegularIsAligned(d: Dialect, doc: Json, path: Path)
    requires Regular(doc, path)
    ensures Aligned(d, doc, path)
    decreases |path|
  {
    if path != [] && Below(doc, path[0]).Some? {
      RegularIsAligned(d, Below(doc, path[0]).value, path[1..]);
    }
  }
}
