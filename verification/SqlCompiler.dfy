/** Lowering a query to SQL: operands leave the text and travel in one shared, growing parameter list,
    by position in SQLite and by number in Postgres. */
module SqlCompiler {
  import opened Basics
  import opened Documents
  import opened Query

  /* ---------- SQL conditions ---------- */

  datatype Dialect = Sqlite | Postgres

  /** A bound parameter: an operand of the query, or one of those `find` adds. */
  datatype Param =
    | Operand(value: Json)
    | Instant(now: int)
    | Pattern(text: string)
    | Count(n: nat)

  /** What stands in the text for a parameter: `?`, `$n`, or, once closed, the parameter itself. */
  datatype Mark = Hole | Numbered(n: nat) | Closed(param: Param)

  /** The cast that Postgres puts around a JSON path; SQLite values come typed. */
  datatype Cast = Typed | AsText | AsNumber | AsBoolean

  datatype Scalar = At(path: Path, cast: Cast)

  datatype Cond =
    | Const(value: bool)
    | Conj(conds: seq<Cond>)
    | Disj(conds: seq<Cond>)
    | Negate(cond: Cond)
    | IsNull(left: Scalar)
    | Relation(left: Scalar, op: CompareOp, mark: Mark)
    | Within(left: Scalar, marks: seq<Mark>)
    | NotWithin(left: Scalar, marks: seq<Mark>)
    | Present(path: Path)

  datatype QueryError = ExpectsArray(op: CompareOp, path: Path) | NoElemMatch

  /* ---------- the dialects' knobs ---------- */

  function ScalarAt(d: Dialect, path: Path, hint: Json): Scalar {
    match d
    case Sqlite => At(path, Typed)
    case Postgres => At(path, if hint.Num? then AsNumber else if hint.Bool? then AsBoolean else AsText)
  }

  function Placeholder(d: Dialect, position: nat): Mark {
    match d
    case Sqlite => Hole
    case Postgres => Numbered(position + 1)
  }

  function Coerce(d: Dialect, value: Json): Json {
    if d.Sqlite? && value.Bool? then Num(if value.b then ONE else Zero) else value
  }

  /* ---------- the formula a query means, with its operands in place ---------- */

  function Inline(d: Dialect, value: Json): Mark {
    Closed(Operand(Coerce(d, value)))
  }

  function Junction(conj: bool, conds: seq<Cond>): Cond {
    if conds == [] then Const(conj) else if conj then Conj(conds) else Disj(conds)
  }

  function IntendedAtom(d: Dialect, op: CompareOp, path: Path, operand: Json): Result<Cond, QueryError> {
    match op
    case In =>
      if !operand.Arr? then Err(ExpectsArray(op, path))
      else if operand.items == [] then Ok(Const(false))
      else Ok(Within(ScalarAt(d, path, operand.items[0]),
                     seq(|operand.items|, i requires 0 <= i < |operand.items| => Inline(d, operand.items[i]))))
    case Nin =>
      if !operand.Arr? then Err(ExpectsArray(op, path))
      else if operand.items == [] then Ok(Const(true))
      else Ok(NotWithin(ScalarAt(d, path, operand.items[0]),
                        seq(|operand.items|, i requires 0 <= i < |operand.items| => Inline(d, operand.items[i]))))
    case Ne =>
      var left := ScalarAt(d, path, operand);
      Ok(Disj([IsNull(left), Relation(left, Ne, Inline(d, operand))]))
    case _ =>
      var left := ScalarAt(d, path, operand);
      if op == Eq && operand.Null? then Ok(IsNull(left)) else Ok(Relation(left, op, Inline(d, operand)))
  }

  function IntendedAll(d: Dialect, nodes: seq<Node>): (r: Result<seq<Cond>, QueryError>)
    ensures r.Ok? ==> |r.value| == |nodes|
    decreases nodes
  {
    if nodes == [] then Ok([])
    else
      match IntendedAll(d, nodes[..|nodes| - 1])
      case Err(e) => Err(e)
      case Ok(conds) =>
        match Intended(d, nodes[|nodes| - 1])
        case Err(e) => Err(e)
        case Ok(cond) => Ok(conds + [cond])
  }

  function Intended(d: Dialect, node: Node): Result<Cond, QueryError>
    decreases node
  {
    match node
    case True => Ok(Const(true))
    case And(children) =>
      (match IntendedAll(d, children)
       case Err(e) => Err(e)
       case Ok(conds) => Ok(Junction(true, conds)))
    case Or(children) =>
      (match IntendedAll(d, children)
       case Err(e) => Err(e)
       case Ok(conds) => Ok(Junction(false, conds)))
    case Nor(children) =>
      (match IntendedAll(d, children)
       case Err(e) => Err(e)
       case Ok(conds) => Ok(Negate(Junction(false, conds))))
    case Not(child) =>
      (match Intended(d, child)
       case Err(e) => Err(e)
       case Ok(cond) => Ok(Negate(cond)))
    case Exists(path, present) => Ok(if present then Present(path) else Negate(Present(path)))
    case Cmp(op, path, operand) => IntendedAtom(d, op, path, operand)
    case ElemMatch(_, _) => Err(NoElemMatch)
  }

  /* ---------- what a database does with marks ---------- */

  function MarksOfAll(conds: seq<Cond>): seq<Mark>
    decreases conds
  {
    if conds == [] then [] else MarksOfAll(conds[..|conds| - 1]) + Marks(conds[|conds| - 1])
  }

  /** The marks in the text of `c`, left to right. */
  function Marks(c: Cond): seq<Mark>
    decreases c
  {
    match c
    case Conj(conds) => MarksOfAll(conds)
    case Disj(conds) => MarksOfAll(conds)
    case Negate(cond) => Marks(cond)
    case Relation(_, _, mark) => [mark]
    case Within(_, marks) => marks
    case NotWithin(_, marks) => marks
    case _ => []
  }

  function Holes(marks: seq<Mark>): nat {
    if marks == [] then 0 else Holes(marks[..|marks| - 1]) + (if marks[|marks| - 1].Hole? then 1 else 0)
  }

  /** The n-th `?` of a text takes the n-th parameter; `$n` takes parameter n wherever it stands. A mark
      without a parameter stays open. */
  function CloseMark(mark: Mark, params: seq<Param>, seen: nat): Mark {
    match mark
    case Hole => if seen < |params| then Closed(params[seen]) else mark
    case Numbered(n) => if 1 <= n <= |params| then Closed(params[n - 1]) else mark
    case Closed(_) => mark
  }

  function CloseMarks(marks: seq<Mark>, params: seq<Param>, seen: nat): (r: seq<Mark>)
    ensures |r| == |marks|
  {
    seq(|marks|, i requires 0 <= i < |marks| => CloseMark(marks[i], params, seen + Holes(marks[..i])))
  }

  function CloseAll(conds: seq<Cond>, params: seq<Param>, seen: nat): (r: seq<Cond>)
    ensures |r| == |conds|
    decreases conds
  {
    if conds == [] then []
    else
      CloseAll(conds[..|conds| - 1], params, seen)
      + [Close(conds[|conds| - 1], params, seen + Holes(MarksOfAll(conds[..|conds| - 1])))]
  }

  /** `c` with its marks replaced, `seen` many `?` having gone before it in the statement. */
  function Close(c: Cond, params: seq<Param>, seen: nat): Cond
    decreases c
  {
    match c
    case Conj(conds) => Conj(CloseAll(conds, params, seen))
    case Disj(conds) => Disj(CloseAll(conds, params, seen))
    case Negate(cond) => Negate(Close(cond, params, seen))
    case Relation(left, op, mark) => Relation(left, op, CloseMark(mark, params, seen))
    case Within(left, marks) => Within(left, CloseMarks(marks, params, seen))
    case NotWithin(left, marks) => NotWithin(left, CloseMarks(marks, params, seen))
    case _ => c
  }

  /* ---------- compiling: the text, and what it appends to the shared list ---------- */

  datatype Lowered<T> = Lowered(text: T, pushed: seq<Param>)

  function Bound(d: Dialect, values: seq<Json>): (r: seq<Param>)
    ensures |r| == |values|
  {
    seq(|values|, i requires 0 <= i < |values| => Operand(Coerce(d, values[i])))
  }

  /** The placeholders of `n` consecutive parameters, the first at position `at`. */
  function Placeholders(d: Dialect, at: nat, n: nat): (r: seq<Mark>)
    ensures |r| == n
  {
    seq(n, i requires 0 <= i < n => Placeholder(d, at + i))
  }

  function LowerAtom(d: Dialect, op: CompareOp, path: Path, operand: Json, at: nat): Result<Lowered<Cond>, QueryError> {
    match op
    case In =>
      if !operand.Arr? then Err(ExpectsArray(op, path))
      else if operand.items == [] then Ok(Lowered(Const(false), []))
      else Ok(Lowered(Within(ScalarAt(d, path, operand.items[0]), Placeholders(d, at, |operand.items|)),
                      Bound(d, operand.items)))
    case Nin =>
      if !operand.Arr? then Err(ExpectsArray(op, path))
      else if operand.items == [] then Ok(Lowered(Const(true), []))
      else Ok(Lowered(NotWithin(ScalarAt(d, path, operand.items[0]), Placeholders(d, at, |operand.items|)),
                      Bound(d, operand.items)))
    case Ne =>
      var left := ScalarAt(d, path, operand);
      Ok(Lowered(Disj([IsNull(left), Relation(left, Ne, Placeholder(d, at))]), Bound(d, [operand])))
    case _ =>
      var left := ScalarAt(d, path, operand);
      if op == Eq && operand.Null? then Ok(Lowered(IsNull(left), []))
      else Ok(Lowered(Relation(left, op, Placeholder(d, at)), Bound(d, [operand])))
  }

  function LowerAll(d: Dialect, nodes: seq<Node>, at: nat): (r: Result<Lowered<seq<Cond>>, QueryError>)
    ensures r.Ok? ==> |r.value.text| == |nodes|
    decreases nodes
  {
    if nodes == [] then Ok(Lowered([], []))
    else
      match LowerAll(d, nodes[..|nodes| - 1], at)
      case Err(e) => Err(e)
      case Ok(before) =>
        match Lower(d, nodes[|nodes| - 1], at + |before.pushed|)
        case Err(e) => Err(e)
        case Ok(last) => Ok(Lowered(before.text + [last.text], before.pushed + last.pushed))
  }

  /** The text of `node` when `at` parameters are already in the list, and the parameters it adds. */
  function Lower(d: Dialect, node: Node, at: nat): Result<Lowered<Cond>, QueryError>
    decreases node
  {
    match node
    case True => Ok(Lowered(Const(true), []))
    case And(children) =>
      (match LowerAll(d, children, at)
       case Err(e) => Err(e)
       case Ok(all) => Ok(Lowered(Junction(true, all.text), all.pushed)))
    case Or(children) =>
      (match LowerAll(d, children, at)
       case Err(e) => Err(e)
       case Ok(all) => Ok(Lowered(Junction(false, all.text), all.pushed)))
    case Nor(children) =>
      (match LowerAll(d, children, at)
       case Err(e) => Err(e)
       case Ok(all) => Ok(Lowered(Negate(Junction(false, all.text)), all.pushed)))
    case Not(child) =>
      (match Lower(d, child, at)
       case Err(e) => Err(e)
       case Ok(one) => Ok(Lowered(Negate(one.text), one.pushed)))
    case Exists(path, present) => Ok(Lowered(if present then Present(path) else Negate(Present(path)), []))
    case Cmp(op, path, operand) => LowerAtom(d, op, path, operand, at)
    case ElemMatch(_, _) => Err(NoElemMatch)
  }

  /* ---------- the list that every call shares ---------- */

  class Params {
    var items: seq<Param>

    constructor ()
      ensures items == []
    {
      items := [];
    }
  }

  /** `r` is what the specification says of a call that found `before` in the list and left `after`. */
  predicate Appended<T(==)>(r: Result<T, QueryError>, spec: Result<Lowered<T>, QueryError>,
                            before: seq<Param>, after: seq<Param>) {
    match spec
    case Ok(l) => r == Ok(l.text) && after == before + l.pushed
    case Err(e) => r == Err(e)
  }

  method Bind(d: Dialect, params: Params, value: Json) returns (mark: Mark)
    modifies params
    ensures mark == Placeholder(d, old(|params.items|))
    ensures params.items == old(params.items) + [Operand(Coerce(d, value))]
  {
    mark := Placeholder(d, |params.items|);
    params.items := params.items + [Operand(Coerce(d, value))];
  }

  method BindAll(d: Dialect, params: Params, values: seq<Json>) returns (marks: seq<Mark>)
    modifies params
    ensures marks == Placeholders(d, old(|params.items|), |values|)
    ensures params.items == old(params.items) + Bound(d, values)
  {
    marks := [];
    for i := 0 to |values|
      invariant marks == Placeholders(d, old(|params.items|), i)
      invariant params.items == old(params.items) + Bound(d, values[..i])
    {
      var mark := Bind(d, params, values[i]);
      marks := marks + [mark];
      assert Bound(d, values[..i + 1]) == Bound(d, values[..i]) + [Operand(Coerce(d, values[i]))];
    }
    assert values[..|values|] == values;
  }

  method CompileCompare(op: CompareOp, path: Path, value: Json, d: Dialect, params: Params)
    returns (r: Result<Cond, QueryError>)
    modifies params
    ensures Appended(r, LowerAtom(d, op, path, value, old(|params.items|)), old(params.items), params.items)
  {
    if op == In || op == Nin {
      if !value.Arr? {
        return Err(ExpectsArray(op, path));
      }
      if value.items == [] {
        return Ok(Const(op == Nin));
      }
      var left := ScalarAt(d, path, value.items[0]);
      var marks := BindAll(d, params, value.items);
      return Ok(if op == In then Within(left, marks) else NotWithin(left, marks));
    }
    var left := ScalarAt(d, path, value);
    if op == Eq && value == Null {
      return Ok(IsNull(left));
    }
    var mark := Bind(d, params, value);
    assert Bound(d, [value]) == [Operand(Coerce(d, value))];
    return Ok(if op == Ne then Disj([IsNull(left), Relation(left, Ne, mark)]) else Relation(left, op, mark));
  }

  method Combine(children: seq<Node>, conj: bool, d: Dialect, params: Params) returns (r: Result<Cond, QueryError>)
    modifies params
    ensures match LowerAll(d, children, old(|params.items|))
            case Ok(l) => r == Ok(Junction(conj, l.text)) && params.items == old(params.items) + l.pushed
            case Err(e) => r == Err(e)
    decreases children
  {
    var conds := [];
    for i := 0 to |children|
      invariant Appended(Ok(conds), LowerAll(d, children[..i], old(|params.items|)), old(params.items), params.items)
    {
      assert children[..i + 1][..i] == children[..i];
      var one := Walk(children[i], d, params);
      if one.Err? {
        FirstErrorStands(d, children, i + 1, old(|params.items|));
        return Err(one.error);
      }
      conds := conds + [one.value];
    }
    assert children[..|children|] == children;
    return Ok(Junction(conj, conds));
  }

  method Walk(node: Node, d: Dialect, params: Params) returns (r: Result<Cond, QueryError>)
    modifies params
    ensures Appended(r, Lower(d, node, old(|params.items|)), old(params.items), params.items)
    decreases node
  {
    match node
    case True => return Ok(Const(true));
    case And(children) => r := Combine(children, true, d, params);
    case Or(children) => r := Combine(children, false, d, params);
    case Nor(children) =>
      r := Combine(children, false, d, params);
      return if r.Ok? then Ok(Negate(r.value)) else r;
    case Not(child) =>
      r := Walk(child, d, params);
      return if r.Ok? then Ok(Negate(r.value)) else r;
    case Exists(path, present) => return Ok(if present then Present(path) else Negate(Present(path)));
    case Cmp(op, path, operand) => r := CompileCompare(op, path, operand, d, params);
    case ElemMatch(_, _) => return Err(NoElemMatch);
  }

  /** A child that cannot be compiled fails the whole list with its error. */
  lemma {:induction false} FirstErrorStands(d: Dialect, nodes: seq<Node>, n: nat, at: nat)
    requires n <= |nodes|
    requires LowerAll(d, nodes[..n], at).Err?
    ensures LowerAll(d, nodes, at) == LowerAll(d, nodes[..n], at)
    decreases |nodes| - n
  {
    if n == |nodes| {
      assert nodes[..n] == nodes;
    } else {
      assert nodes[..n + 1][..n] == nodes[..n];
      FirstErrorStands(d, nodes, n + 1, at);
    }
  }
}
