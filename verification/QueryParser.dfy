/** From a query document to its syntax tree. */
module QueryParser {
  import opened Basics
  import opened Documents
  import opened Query

  datatype ParseError =
    | EmptyPath
    | EmptySegment(source: string)
    | InvalidSegment(part: string)
    | PollutingKey(key: string)
    | UnknownTopLevel(key: string)
    | UnknownOperator(name: string)
    | ExpectsArray(name: string)
    | ExpectsObject(name: string)
    | ExpectsBoolean(source: string)

  /* ---------- paths ---------- */

  /** `source.split(".")`. */
  function Split(source: string): (parts: seq<string>)
    ensures |parts| > 0
  {
    if source == [] then [""]
    else
      var rest := Split(source[1..]);
      if source[0] == '.' then [""] + rest else [[source[0]] + rest[0]] + rest[1..]
  }

  predicate ValidSegment(part: string) {
    part != [] &&
    forall i :: 0 <= i < |part| ==>
      'A' <= part[i] <= 'Z' || 'a' <= part[i] <= 'z' || '0' <= part[i] <= '9' || part[i] in "_$-"
  }

  function ParseSegment(source: string, part: string): Result<Segment, ParseError> {
    if part == [] then Err(EmptySegment(source))
    else if AllDigits(part) then Ok(Index(Decimal(part)))
    else if !ValidSegment(part) then Err(InvalidSegment(part))
    else Ok(Key(part))
  }

  function ParseSegments(source: string, parts: seq<string>): Result<Path, ParseError> {
    if parts == [] then Ok([])
    else
      match ParseSegment(source, parts[0])
      case Err(e) => Err(e)
      case Ok(first) =>
        match ParseSegments(source, parts[1..])
        case Err(e) => Err(e)
        case Ok(rest) => Ok([first] + rest)
  }

  function ParsePath(source: string): Result<Path, ParseError> {
    if source == [] then Err(EmptyPath) else ParseSegments(source, Split(source))
  }

  lemma {:induction false} SegmentsAreParsed(source: string, parts: seq<string>)
    requires ParseSegments(source, parts).Ok?
    ensures Parsed(ParseSegments(source, parts).value) && |ParseSegments(source, parts).value| == |parts|
  {
    if parts != [] {
      SegmentsAreParsed(source, parts[1..]);
    }
  }

  /** A path from the parser is not empty, and its digit-only segments are indices. */
  lemma PathsAreParsed(source: string)
    requires ParsePath(source).Ok?
    ensures Parsed(ParsePath(source).value) && ParsePath(source).value != []
  {
    SegmentsAreParsed(source, Split(source));
  }

  /* ---------- documents ---------- */

  const POLLUTING: set<string> := {"__proto__", "constructor", "prototype"}

  predicate StartsWithDollar(name: string) {
    name != [] && name[0] == '$'
  }

  /** Every key an operator; an object without keys is a plain value. */
  predicate IsOperatorObject(value: Json) {
    value.Obj? && value.fields != [] && forall i :: 0 <= i < |value.fields| ==> StartsWithDollar(value.fields[i].name)
  }

  function CompareOpOf(name: string): Option<CompareOp> {
    if name == "$eq" then Some(Eq)
    else if name == "$ne" then Some(Ne)
    else if name == "$gt" then Some(Gt)
    else if name == "$gte" then Some(Gte)
    else if name == "$lt" then Some(Lt)
    else if name == "$lte" then Some(Lte)
    else if name == "$in" then Some(In)
    else if name == "$nin" then Some(Nin)
    else None
  }

  function Joined(nodes: seq<Node>): Node {
    if |nodes| == 1 then nodes[0] else And(nodes)
  }

  /** A `map` whose callback may throw: the nodes, or the first error. */
  function Collect(rs: seq<Result<Node, ParseError>>): Result<seq<Node>, ParseError> {
    if rs == [] then Ok([])
    else
      match Collect(rs[..|rs| - 1])
      case Err(e) => Err(e)
      case Ok(before) =>
        match rs[|rs| - 1]
        case Err(e) => Err(e)
        case Ok(last) => Ok(before + [last])
  }

  /** One operator of a field's operator object. */
  function Condition(source: string, path: Path, f: Field): Result<Node, ParseError>
    decreases f, 0
  {
    var op := CompareOpOf(f.name);
    if op.Some? then Ok(Cmp(op.value, path, f.value))
    else if f.name == "$exists" then
      if f.value.Bool? then Ok(Exists(path, f.value.b)) else Err(ExpectsBoolean(source))
    else if f.name == "$elemMatch" then
      if !f.value.Obj? then Err(ExpectsObject(f.name))
      else
        match ParseWhere(f.value.fields)
        case Err(e) => Err(e)
        case Ok(child) => Ok(ElemMatch(path, child))
    else Err(UnknownOperator(f.name))
  }

  function Conditions(source: string, path: Path, fields: seq<Field>): (r: seq<Result<Node, ParseError>>)
    ensures |r| == |fields|
    decreases fields, 0
  {
    seq(|fields|, i requires 0 <= i < |fields| => Condition(source, path, fields[i]))
  }

  function FieldNode(source: string, path: Path, value: Json): Result<Node, ParseError>
    decreases value, 1
  {
    if !IsOperatorObject(value) then Ok(Cmp(Eq, path, value))
    else
      match Collect(Conditions(source, path, value.fields))
      case Err(e) => Err(e)
      case Ok(conditions) => Ok(Joined(conditions))
  }

  function Branches(op: string, items: seq<Json>): (r: seq<Result<Node, ParseError>>)
    ensures |r| == |items|
    decreases items, 0
  {
    seq(|items|, i requires 0 <= i < |items| => Branch(op, items[i]))
  }

  function Branch(op: string, item: Json): Result<Node, ParseError>
    decreases item, 1
  {
    if !item.Obj? then Err(ExpectsObject(op)) else ParseWhere(item.fields)
  }

  function Listed(op: string, nodes: seq<Node>): Node {
    if op == "$and" then And(nodes) else if op == "$or" then Or(nodes) else Nor(nodes)
  }

  function ParseEntry(f: Field): Result<Node, ParseError>
    decreases f, 0
  {
    if f.name in ["$and", "$or", "$nor"] then
      if !f.value.Arr? then Err(ExpectsArray(f.name))
      else
        match Collect(Branches(f.name, f.value.items))
        case Err(e) => Err(e)
        case Ok(nodes) => Ok(Listed(f.name, nodes))
    else if f.name == "$not" then
      match Branch(f.name, f.value)
      case Err(e) => Err(e)
      case Ok(child) => Ok(Not(child))
    else if StartsWithDollar(f.name) then Err(UnknownTopLevel(f.name))
    else
      match ParsePath(f.name)
      case Err(e) => Err(e)
      case Ok(path) => FieldNode(f.name, path, f.value)
  }

  function Entries(fields: seq<Field>): (r: seq<Result<Node, ParseError>>)
    ensures |r| == |fields|
    decreases fields, 0
  {
    seq(|fields|, i requires 0 <= i < |fields| => ParseEntry(fields[i]))
  }

  function FirstPolluting(fields: seq<Field>): (r: Option<string>)
    ensures r.None? <==> forall i :: 0 <= i < |fields| ==> fields[i].name !in POLLUTING
  {
    if fields == [] then None
    else if fields[0].name in POLLUTING then Some(fields[0].name)
    else
      assert forall i :: 1 <= i < |fields| ==> fields[i] == fields[1..][i - 1];
      FirstPolluting(fields[1..])
  }

  function ParseWhere(fields: seq<Field>): Result<Node, ParseError>
    decreases fields, 1
  {
    if fields == [] then Ok(True)
    else if FirstPolluting(fields).Some? then Err(PollutingKey(FirstPolluting(fields).value))
    else
      match Collect(Entries(fields))
      case Err(e) => Err(e)
      case Ok(nodes) => Ok(Joined(nodes))
  }

  /** A field's conditions, collected in a loop that stops at the first bad one. */
  method ParseField(source: string, path: Path, value: Json) returns (r: Result<Node, ParseError>)
    ensures r == FieldNode(source, path, value)
  {
    if !IsOperatorObject(value) {
      return Ok(Cmp(Eq, path, value));
    }
    var conditions := [];
    ghost var all := Conditions(source, path, value.fields);
    for i := 0 to |value.fields|
      invariant Collect(all[..i]) == Ok(conditions)
    {
      assert all[..i + 1][..i] == all[..i];
      var condition := Condition(source, path, value.fields[i]);
      if condition.Err? {
        FirstErrorStands(all, i + 1);
        return condition;
      }
      conditions := conditions + [condition.value];
    }
    assert all[..|all|] == all;
    return Ok(Joined(conditions));
  }

  lemma {:induction false} FirstErrorStands(rs: seq<Result<Node, ParseError>>, n: nat)
    requires n <= |rs| && Collect(rs[..n]).Err?
    ensures Collect(rs) == Collect(rs[..n])
    decreases |rs| - n
  {
    if n < |rs| {
      assert rs[..n + 1][..n] == rs[..n];
      FirstErrorStands(rs, n + 1);
    } else {
      assert rs[..n] == rs;
    }
  }

  /** The nodes are those of the results, one by one, if all of them are there. */
  lemma {:induction false} CollectsAll(rs: seq<Result<Node, ParseError>>)
    ensures Collect(rs).Ok? <==> forall i :: 0 <= i < |rs| ==> rs[i].Ok?
    ensures Collect(rs).Ok? ==>
              |Collect(rs).value| == |rs| && forall i :: 0 <= i < |rs| ==> rs[i] == Ok(Collect(rs).value[i])
  {
    if rs != [] {
      var init := rs[..|rs| - 1];
      CollectsAll(init);
      assert forall i :: 0 <= i < |init| ==> init[i] == rs[i];
      assert Collect(rs).Ok? <==> Collect(init).Ok? && rs[|rs| - 1].Ok?;
    }
  }
}
