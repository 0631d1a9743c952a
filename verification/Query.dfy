/** The query language: its syntax tree, and the interpreter that filters documents in memory. */
module Query {
  import opened Basics
  import opened Documents

  /* ---------- syntax ---------- */

  datatype Segment = Key(name: string) | Index(at: nat)

  type Path = seq<Segment>

  datatype CompareOp = Eq | Ne | Gt | Gte | Lt | Lte | In | Nin

  datatype Node =
    | True
    | And(children: seq<Node>)
    | Or(children: seq<Node>)
    | Nor(children: seq<Node>)
    | Not(child: Node)
    | Cmp(op: CompareOp, path: Path, operand: Json)
    | Exists(path: Path, present: bool)
    | ElemMatch(path: Path, child: Node)

  /* ---------- numbers written as text ---------- */

  function NumberOf(n: nat): Number {
    if n == 0 then Zero else Finite(false, DropTrailingZeros(DigitsOf(n)), |DigitsOf(n)|)
  }

  predicate AllDigits(s: string) {
    forall i :: 0 <= i < |s| ==> '0' <= s[i] <= '9'
  }

  function Decimal(s: string): nat
    requires AllDigits(s)
  {
    if s == [] then 0 else 10 * Decimal(s[..|s| - 1]) + (s[|s| - 1] as int - '0' as int)
  }

  /** A digit-only segment is an index, as the path parser makes it. */
  predicate Parsed(path: Path) {
    forall i :: 0 <= i < |path| && path[i].Key? ==> !AllDigits(path[i].name)
  }

  /** The integer that a segment's text spells, if it spells one. */
  function Position(name: string): Option<int> {
    if name != [] && AllDigits(name) then Some(Decimal(name))
    else if |name| > 1 && name[0] == '-' && AllDigits(name[1..]) then
      var below: int := Decimal(name[1..]);
      Some(-below)
    else None
  }

  /* ---------- reading a path ---------- */

  const LENGTH := "length"

  /** An array's own properties: its length, and its elements under their indices without leading zeros. */
  function OwnOfArray(items: seq<Json>, name: string): Option<Json> {
    if name == LENGTH then Some(Num(NumberOf(|items|)))
    else
      match Position(name)
      case None => None
      case Some(i) =>
        if 0 <= i < |items| && (name[0] == '0' ==> |name| == 1) && name[0] != '-' then Some(items[i]) else None
  }

  /** One turn of the loop: the value one segment below `value`. */
  function Below(value: Json, segment: Segment): Option<Json> {
    match value
    case Obj(fields) =>
      (match segment
       case Key(name) => Lookup(fields, name)
       case Index(_) => None)
    case Arr(items) =>
      (match segment
       case Key(name) => OwnOfArray(items, name)
       case Index(at) => if at < |items| then Some(items[at]) else None)
    case _ => None
  }

  /** What is stored at `path`; None when nothing is there. */
  function Extract(doc: Json, path: Path): Option<Json>
    decreases |path|
  {
    if path == [] then Some(doc)
    else
      match Below(doc, path[0])
      case None => None
      case Some(next) => Extract(next, path[1..])
  }

  method ExtractValue(doc: Json, path: Path) returns (value: Option<Json>)
    ensures value == Extract(doc, path)
  {
    var curr := doc;
    for i := 0 to |path|
      invariant Extract(doc, path) == Extract(curr, path[i..])
    {
      assert path[i..][0] == path[i] && path[i..][1..] == path[i + 1..];
      match Below(curr, path[i])
      case None => return None;
      case Some(next) => curr := next;
    }
    return Some(curr);
  }

  /* ---------- deep equality, as the interpreter loops over it ---------- */

  method IsEqual(a: Json, b: Json) returns (equal: bool)
    ensures equal == Same(a, b)
    decreases a
  {
    match a
    case Arr(items) =>
      if !b.Arr? || |items| != |b.items| {
        return false;
      }
      for i := 0 to |items|
        invariant forall k :: 0 <= k < i ==> Same(items[k], b.items[k])
      {
        var here := IsEqual(items[i], b.items[i]);
        if !here {
          return false;
        }
      }
      return true;
    case Obj(fields) =>
      if !b.Obj? || |fields| != |b.fields| {
        return false;
      }
      for i := 0 to |fields|
        invariant forall k :: 0 <= k < i ==>
                    var other := Lookup(b.fields, fields[k].name);
                    other.Some? && Same(fields[k].value, other.value)
      {
        var other := Lookup(b.fields, fields[i].name);
        if other.None? {
          return false;
        }
        var here := IsEqual(fields[i].value, other.value);
        if !here {
          return false;
        }
      }
      return true;
    case _ =>
      return a == b;
  }

  /* ---------- the two-valued meaning ---------- */

  predicate InOrder(op: CompareOp, left: Number, right: Number) {
    match op
    case Gt => Value(left) > Value(right)
    case Gte => Value(left) >= Value(right)
    case Lt => Value(left) < Value(right)
    case Lte => Value(left) <= Value(right)
    case _ => false
  }

  predicate Contains(items: seq<Json>, actual: Json) {
    exists i :: 0 <= i < |items| && Same(actual, items[i])
  }

  predicate Compare(op: CompareOp, actual: Option<Json>, target: Json) {
    match op
    case Eq => if actual.None? then target == Null else Same(actual.value, target)
    case Ne => if actual.None? then true else !Same(actual.value, target)
    case In =>
      if !target.Arr? then false
      else if actual.None? then Null in target.items
      else Contains(target.items, actual.value)
    case Nin =>
      if !target.Arr? then true
      else if actual.None? then Null !in target.items
      else !Contains(target.items, actual.value)
    case _ => actual.Some? && actual.value.Num? && target.Num? && InOrder(op, actual.value.n, target.n)
  }

  predicate Evaluate(node: Node, doc: Json)
    decreases node
  {
    match node
    case True => true
    case And(children) => forall i :: 0 <= i < |children| ==> Evaluate(children[i], doc)
    case Or(children) => exists i :: 0 <= i < |children| && Evaluate(children[i], doc)
    case Nor(children) => !exists i :: 0 <= i < |children| && Evaluate(children[i], doc)
    case Not(child) => !Evaluate(child, doc)
    case Exists(path, present) => Extract(doc, path).Some? == present
    case Cmp(op, path, operand) => Compare(op, Extract(doc, path), operand)
    case ElemMatch(path, child) =>
      var actual := Extract(doc, path);
      && actual.Some?
      && actual.value.Arr?
      && exists i :: 0 <= i < |actual.value.items| && Evaluate(child, actual.value.items[i])
  }
}
