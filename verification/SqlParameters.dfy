/** Parameter threading: the parameters a compiled query carries reach the places their operands came
    from, positionally and by number, also after `find` has added its own. */
module SqlParameters {
  import opened Basics
  import opened Documents
  import opened Query
  import opened SqlCompiler
  import Namespaces

  /* ---------- placeholders stand in order ---------- */

  lemma PlaceholdersSplit(d: Dialect, at: nat, m: nat, n: nat)
    ensures Placeholders(d, at, m) + Placeholders(d, at + m, n) == Placeholders(d, at, m + n)
  {
  }

  lemma JunctionMarks(conj: bool, conds: seq<Cond>)
    ensures Marks(Junction(conj, conds)) == MarksOfAll(conds)
  {
  }

  lemma JunctionCloses(conj: bool, conds: seq<Cond>, params: seq<Param>, seen: nat)
    ensures Close(Junction(conj, conds), params, seen) == Junction(conj, CloseAll(conds, params, seen))
  {
  }

  /** Left to right, the text shows the placeholders of positions `at`, `at + 1`, ...: one for every
      parameter it appended, in the order in which they were appended. */
  lemma {:induction false} MarksInOrder(d: Dialect, node: Node, at: nat)
    requires Lower(d, node, at).Ok?
    ensures var l := Lower(d, node, at).value; Marks(l.text) == Placeholders(d, at, |l.pushed|)
    decreases node
  {
    match node
    case And(children) =>
      MarksInOrderAll(d, children, at);
      JunctionMarks(true, LowerAll(d, children, at).value.text);
    case Or(children) =>
      MarksInOrderAll(d, children, at);
      JunctionMarks(false, LowerAll(d, children, at).value.text);
    case Nor(children) =>
      MarksInOrderAll(d, children, at);
      JunctionMarks(false, LowerAll(d, children, at).value.text);
    case Not(child) => MarksInOrder(d, child, at);
    case Cmp(op, path, operand) => AtomMarksInOrder(d, op, path, operand, at);
    case _ =>
  }

  lemma AtomMarksInOrder(d: Dialect, op: CompareOp, path: Path, operand: Json, at: nat)
    requires LowerAtom(d, op, path, operand, at).Ok?
    ensures var l := LowerAtom(d, op, path, operand, at).value; Marks(l.text) == Placeholders(d, at, |l.pushed|)
  {
    if op == Ne {
      var left := ScalarAt(d, path, operand);
      var conds := [IsNull(left), Relation(left, Ne, Placeholder(d, at))];
      assert MarksOfAll(conds[..1]) == MarksOfAll(conds[..1][..0]) + Marks(conds[0]);
      assert MarksOfAll(conds) == MarksOfAll(conds[..1]) + Marks(conds[1]);
    }
  }

  lemma {:induction false} MarksInOrderAll(d: Dialect, nodes: seq<Node>, at: nat)
    requires LowerAll(d, nodes, at).Ok?
    ensures var l := LowerAll(d, nodes, at).value; MarksOfAll(l.text) == Placeholders(d, at, |l.pushed|)
    decreases nodes
  {
    if nodes != [] {
      var init := nodes[..|nodes| - 1];
      var before := LowerAll(d, init, at).value;
      var last := Lower(d, nodes[|nodes| - 1], at + |before.pushed|).value;
      MarksInOrderAll(d, init, at);
      MarksInOrder(d, nodes[|nodes| - 1], at + |before.pushed|);
      assert (before.text + [last.text])[..|before.text|] == before.text;
      PlaceholdersSplit(d, at, |before.pushed|, |last.pushed|);
    }
  }

  lemma {:induction false} HolesOfPlaceholders(d: Dialect, at: nat, n: nat)
    ensures Holes(Placeholders(d, at, n)) == if d.Sqlite? then n else 0
  {
    if n > 0 {
      HolesOfPlaceholders(d, at, n - 1);
      var marks := Placeholders(d, at, n);
      assert marks[..n - 1] == Placeholders(d, at, n - 1);
      assert marks[n - 1] == Placeholder(d, at + (n - 1));
      assert Holes(marks) == Holes(marks[..n - 1]) + (if marks[n - 1].Hole? then 1 else 0);
    }
  }

  /* ---------- closing gives back the operands ---------- */

  /** `params` holds `pushed` where the dialect will look: from the next `?` on in SQLite, from the
      position at which the numbering began in Postgres. */
  predicate Supplies(d: Dialect, params: seq<Param>, pushed: seq<Param>, at: nat, seen: nat) {
    match d
    case Sqlite => HoldsAt(params, pushed, seen)
    case Postgres => HoldsAt(params, pushed, at)
  }

  predicate HoldsAt(params: seq<Param>, pushed: seq<Param>, from: nat) {
    from + |pushed| <= |params| && params[from..from + |pushed|] == pushed
  }

  lemma SupplyAt(d: Dialect, params: seq<Param>, pushed: seq<Param>, at: nat, seen: nat, i: nat)
    requires Supplies(d, params, pushed, at, seen) && i < |pushed|
    ensures CloseMark(Placeholder(d, at + i), params, if d.Sqlite? then seen + i else seen) == Closed(pushed[i])
  {
  }

  lemma SupplySplits(d: Dialect, params: seq<Param>, first: seq<Param>, second: seq<Param>, at: nat, seen: nat)
    requires Supplies(d, params, first + second, at, seen)
    ensures Supplies(d, params, first, at, seen)
    ensures Supplies(d, params, second, at + |first|, seen + if d.Sqlite? then |first| else 0)
  {
    var from := if d.Sqlite? then seen else at;
    var both := first + second;
    assert params[from..from + |first|] == params[from..from + |both|][..|first|] == first;
    assert params[from + |first|..from + |both|] == params[from..from + |both|][|first|..] == second;
  }

  lemma ListCloses(d: Dialect, values: seq<Json>, params: seq<Param>, at: nat, seen: nat)
    requires Supplies(d, params, Bound(d, values), at, seen)
    ensures CloseMarks(Placeholders(d, at, |values|), params, seen)
         == seq(|values|, i requires 0 <= i < |values| => Inline(d, values[i]))
  {
    var marks := Placeholders(d, at, |values|);
    forall i | 0 <= i < |values| ensures CloseMarks(marks, params, seen)[i] == Inline(d, values[i]) {
      assert marks[..i] == Placeholders(d, at, i);
      HolesOfPlaceholders(d, at, i);
      SupplyAt(d, params, Bound(d, values), at, seen, i);
      if d.Postgres? {
        assert CloseMark(marks[i], params, seen) == CloseMark(marks[i], params, seen + 0);
      }
    }
  }

  lemma OneCloses(d: Dialect, operand: Json, params: seq<Param>, at: nat, seen: nat)
    requires Supplies(d, params, Bound(d, [operand]), at, seen)
    ensures CloseMark(Placeholder(d, at), params, seen) == Inline(d, operand)
  {
    var from := if d.Sqlite? then seen else at;
    assert params[from] == params[from..from + 1][0] == Bound(d, [operand])[0];
  }

  lemma NotEqualCloses(d: Dialect, path: Path, operand: Json, params: seq<Param>, at: nat, seen: nat)
    requires Supplies(d, params, Bound(d, [operand]), at, seen)
    ensures Ok(Close(LowerAtom(d, Ne, path, operand, at).value.text, params, seen)) == IntendedAtom(d, Ne, path, operand)
  {
    OneCloses(d, operand, params, at, seen);
    var left := ScalarAt(d, path, operand);
    var conds := [IsNull(left), Relation(left, Ne, Placeholder(d, at))];
    assert conds[..1] == [IsNull(left)];
    assert CloseAll(conds[..1][..0], params, seen) == [];
    assert MarksOfAll(conds[..1]) == MarksOfAll(conds[..1][..0]) + Marks(conds[0]) == [];
    assert CloseAll(conds[..1], params, seen) == [IsNull(left)];
    assert CloseAll(conds, params, seen) == [IsNull(left), Relation(left, Ne, Inline(d, operand))];
  }

  lemma AtomCloses(d: Dialect, op: CompareOp, path: Path, operand: Json, params: seq<Param>, at: nat, seen: nat)
    requires LowerAtom(d, op, path, operand, at).Ok?
    requires Supplies(d, params, LowerAtom(d, op, path, operand, at).value.pushed, at, seen)
    ensures Ok(Close(LowerAtom(d, op, path, operand, at).value.text, params, seen)) == IntendedAtom(d, op, path, operand)
  {
    match op
    case In => if operand.items != [] { ListCloses(d, operand.items, params, at, seen); }
    case Nin => if operand.items != [] { ListCloses(d, operand.items, params, at, seen); }
    case Ne => NotEqualCloses(d, path, operand, params, at, seen);
    case _ =>
      if op != Eq || !operand.Null? {
        OneCloses(d, operand, params, at, seen);
      }
  }

  lemma CloseSnoc(conds: seq<Cond>, last: Cond, params: seq<Param>, seen: nat)
    ensures CloseAll(conds + [last], params, seen)
         == CloseAll(conds, params, seen) + [Close(last, params, seen + Holes(MarksOfAll(conds)))]
  {
    var all := conds + [last];
    assert all[..|all| - 1] == conds && all[|all| - 1] == last;
  }

  /** The last of a list, compiled after the others. */
  lemma LastLowered(d: Dialect, nodes: seq<Node>, at: nat)
    requires nodes != [] && LowerAll(d, nodes, at).Ok?
    ensures var before, node := LowerAll(d, nodes[..|nodes| - 1], at), nodes[|nodes| - 1];
            && before.Ok?
            && Lower(d, node, at + |before.value.pushed|).Ok?
            && var last := Lower(d, node, at + |before.value.pushed|).value;
               LowerAll(d, nodes, at) == Ok(Lowered(before.value.text + [last.text], before.value.pushed + last.pushed))
  {
  }

  lemma LastIntended(d: Dialect, nodes: seq<Node>, conds: seq<Cond>, cond: Cond)
    requires nodes != [] && IntendedAll(d, nodes[..|nodes| - 1]) == Ok(conds)
    requires Intended(d, nodes[|nodes| - 1]) == Ok(cond)
    ensures IntendedAll(d, nodes) == Ok(conds + [cond])
  {
  }

  /** After the others' holes the last one finds its parameters. */
  lemma LastSupplied(d: Dialect, nodes: seq<Node>, params: seq<Param>, pushed: seq<Param>, at: nat, seen: nat)
    requires LowerAll(d, nodes, at).Ok?
    requires var before := LowerAll(d, nodes, at).value;
             Supplies(d, params, pushed, at + |before.pushed|, seen + if d.Sqlite? then |before.pushed| else 0)
    ensures var before := LowerAll(d, nodes, at).value;
            Supplies(d, params, pushed, at + |before.pushed|, seen + Holes(MarksOfAll(before.text)))
  {
    MarksInOrderAll(d, nodes, at);
    HolesOfPlaceholders(d, at, |LowerAll(d, nodes, at).value.pushed|);
  }

  /** The others close, and so does the last. */
  lemma LastCloses(d: Dialect, nodes: seq<Node>, before: Lowered<seq<Cond>>, last: Lowered<Cond>,
                   params: seq<Param>, seen: nat)
    requires nodes != []
    requires Ok(CloseAll(before.text, params, seen)) == IntendedAll(d, nodes[..|nodes| - 1])
    requires Ok(Close(last.text, params, seen + Holes(MarksOfAll(before.text)))) == Intended(d, nodes[|nodes| - 1])
    ensures Ok(CloseAll(before.text + [last.text], params, seen)) == IntendedAll(d, nodes)
  {
    CloseSnoc(before.text, last.text, params, seen);
    LastIntended(d, nodes, CloseAll(before.text, params, seen), Close(last.text, params, seen + Holes(MarksOfAll(before.text))));
  }

  lemma {:induction false} AllClose(d: Dialect, nodes: seq<Node>, params: seq<Param>, at: nat, seen: nat)
    requires LowerAll(d, nodes, at).Ok?
    requires Supplies(d, params, LowerAll(d, nodes, at).value.pushed, at, seen)
    ensures Ok(CloseAll(LowerAll(d, nodes, at).value.text, params, seen)) == IntendedAll(d, nodes)
    decreases nodes
  {
    if nodes != [] {
      var init, node := nodes[..|nodes| - 1], nodes[|nodes| - 1];
      LastLowered(d, nodes, at);
      var before := LowerAll(d, init, at).value;
      var next := at + |before.pushed|;
      var last := Lower(d, node, next).value;
      SupplySplits(d, params, before.pushed, last.pushed, at, seen);
      AllClose(d, init, params, at, seen);
      LastSupplied(d, init, params, last.pushed, at, seen);
      CompiledQueryCloses(d, node, params, next, seen + Holes(MarksOfAll(before.text)));
      LastCloses(d, nodes, before, last, params, seen);
    }
  }

  /** Wherever in a statement the text stands, binding its parameters puts every operand back. */
  lemma {:induction false} CompiledQueryCloses(d: Dialect, node: Node, params: seq<Param>, at: nat, seen: nat)
    requires Lower(d, node, at).Ok?
    requires Supplies(d, params, Lower(d, node, at).value.pushed, at, seen)
    ensures Ok(Close(Lower(d, node, at).value.text, params, seen)) == Intended(d, node)
    decreases node
  {
    match node
    case And(children) =>
      AllClose(d, children, params, at, seen);
      JunctionCloses(true, LowerAll(d, children, at).value.text, params, seen);
    case Or(children) =>
      AllClose(d, children, params, at, seen);
      JunctionCloses(false, LowerAll(d, children, at).value.text, params, seen);
    case Nor(children) =>
      AllClose(d, children, params, at, seen);
      JunctionCloses(false, LowerAll(d, children, at).value.text, params, seen);
    case Not(child) => CompiledQueryCloses(d, child, params, at, seen);
    case Cmp(op, path, operand) => AtomCloses(d, op, path, operand, params, at, seen);
    case _ =>
  }

  lemma {:induction false} SameErrorAll(d: Dialect, nodes: seq<Node>, at: nat)
    ensures LowerAll(d, nodes, at).Ok? <==> IntendedAll(d, nodes).Ok?
    ensures LowerAll(d, nodes, at).Err? ==> LowerAll(d, nodes, at).error == IntendedAll(d, nodes).error
    decreases nodes
  {
    if nodes != [] {
      SameErrorAll(d, nodes[..|nodes| - 1], at);
      if LowerAll(d, nodes[..|nodes| - 1], at).Ok? {
        SameError(d, nodes[|nodes| - 1], at + |LowerAll(d, nodes[..|nodes| - 1], at).value.pushed|);
      }
    }
  }

  /** Compilation fails for the same queries, with the same error, whatever is already in the list. */
  lemma {:induction false} SameError(d: Dialect, node: Node, at: nat)
    ensures Lower(d, node, at).Ok? <==> Intended(d, node).Ok?
    ensures Lower(d, node, at).Err? ==> Lower(d, node, at).error == Intended(d, node).error
    decreases node
  {
    match node
    case And(children) => SameErrorAll(d, children, at);
    case Or(children) => SameErrorAll(d, children, at);
    case Nor(children) => SameErrorAll(d, children, at);
    case Not(child) => SameError(d, child, at);
    case _ =>
  }

  /* ---------- the statement that `find` builds ---------- */

  datatype Sort = Sort(path: Path, descending: bool)

  datatype FindOptions = FindOptions(sort: seq<Sort>, limit: Option<nat>, offset: Option<nat>)

  datatype OrderTerm = OrderTerm(left: Scalar, descending: bool)

  /** `Unlimited` is SQLite's `LIMIT -1`, which an OFFSET needs before it. */
  datatype Limit = NoLimit | Unlimited | AtMost(mark: Mark)

  /** The clauses in the order of the text. */
  datatype Select = Select(notExpiredAt: Mark, where: Cond, keyLike: Option<Mark>, orderBy: seq<OrderTerm>,
                           limit: Limit, offset: Option<Mark>)

  function OrderBy(d: Dialect, sort: seq<Sort>): seq<OrderTerm> {
    seq(|sort|, i requires 0 <= i < |sort| =>
      OrderTerm(At(sort[i].path, if d.Sqlite? then Typed else AsText), sort[i].descending))
  }

  /** An empty prefix adds no clause. */
  predicate Filters(keyPrefix: Option<string>) {
    keyPrefix.GetOr("") != ""
  }

  /** What the caller asked for, nothing threaded. */
  function IntendedSelect(d: Dialect, where: Cond, options: FindOptions, keyPrefix: Option<string>, now: int): Select {
    Select(
      Closed(Instant(now)),
      where,
      if Filters(keyPrefix) then Some(Closed(Pattern(Namespaces.PrefixPattern(keyPrefix.value)))) else None,
      OrderBy(d, options.sort),
      if options.limit.None? then NoLimit else AtMost(Closed(Count(options.limit.value))),
      if options.offset.None? then None else Some(Closed(Count(options.offset.value))))
  }

  function Ones(mark: Option<Mark>): seq<Mark> {
    if mark.None? then [] else [mark.value]
  }

  function OnesOfLimit(limit: Limit): seq<Mark> {
    if limit.AtMost? then [limit.mark] else []
  }

  function CloseOption(mark: Option<Mark>, params: seq<Param>, seen: nat): Option<Mark> {
    if mark.None? then None else Some(CloseMark(mark.value, params, seen))
  }

  function CloseLimit(limit: Limit, params: seq<Param>, seen: nat): Limit {
    if limit.AtMost? then AtMost(CloseMark(limit.mark, params, seen)) else NoLimit
  }

  function CloseSelect(s: Select, params: seq<Param>): Select {
    var afterNow := Holes([s.notExpiredAt]);
    var afterWhere := afterNow + Holes(Marks(s.where));
    var afterLike := afterWhere + Holes(Ones(s.keyLike));
    var afterLimit := afterLike + Holes(OnesOfLimit(s.limit));
    Select(
      CloseMark(s.notExpiredAt, params, 0),
      Close(s.where, params, afterNow),
      CloseOption(s.keyLike, params, afterWhere),
      s.orderBy,
      CloseLimit(s.limit, params, afterLike),
      CloseOption(s.offset, params, afterLimit))
  }

  function LikeParam(keyPrefix: Option<string>): seq<Param> {
    if Filters(keyPrefix) then [Pattern(Namespaces.PrefixPattern(keyPrefix.value))] else []
  }

  function CountParam(n: Option<nat>): seq<Param> {
    if n.Some? then [Count(n.value)] else []
  }

  /** The parameters that `find` adds behind the query's own: pattern, limit, offset. */
  function Tail(options: FindOptions, keyPrefix: Option<string>): seq<Param> {
    LikeParam(keyPrefix) + CountParam(options.limit) + CountParam(options.offset)
  }

  /** SQLite's text: the expiry clause comes first, so `now` stands before the compiled parameters. */
  function SqliteText(cond: Cond, options: FindOptions, keyPrefix: Option<string>): Select {
    Select(
      Hole,
      cond,
      if Filters(keyPrefix) then Some(Hole) else None,
      OrderBy(Sqlite, options.sort),
      if options.limit.Some? then AtMost(Hole) else if options.offset.Some? then Unlimited else NoLimit,
      if options.offset.Some? then Some(Hole) else None)
  }

  /** Postgres's text: the compiled parameters are numbers 1 to `own`, and `now` is the next. */
  function PostgresText(cond: Cond, own: nat, options: FindOptions, keyPrefix: Option<string>): Select {
    var like := if Filters(keyPrefix) then 1 else 0;
    var limit := if options.limit.Some? then 1 else 0;
    Select(
      Numbered(own + 1),
      cond,
      if Filters(keyPrefix) then Some(Numbered(own + 2)) else None,
      OrderBy(Postgres, options.sort),
      if options.limit.Some? then AtMost(Numbered(own + 2 + like)) else NoLimit,
      if options.offset.Some? then Some(Numbered(own + 2 + like + limit)) else None)
  }

  lemma TailPlaces(head: seq<Param>, options: FindOptions, keyPrefix: Option<string>)
    ensures var params := head + Tail(options, keyPrefix);
            var like := |head| + (if Filters(keyPrefix) then 1 else 0);
            var limit := like + (if options.limit.Some? then 1 else 0);
            && |params| == limit + (if options.offset.Some? then 1 else 0)
            && (Filters(keyPrefix) ==> params[|head|] == Pattern(Namespaces.PrefixPattern(keyPrefix.value)))
            && (options.limit.Some? ==> params[like] == Count(options.limit.value))
            && (options.offset.Some? ==> params[limit] == Count(options.offset.value))
  {
  }

  lemma OneHole(mark: Mark)
    ensures Holes([mark]) == (if mark.Hole? then 1 else 0) && Holes([]) == 0
  {
  }

  lemma SqliteTextCloses(cond: Cond, own: seq<Param>, meant: Cond, options: FindOptions, keyPrefix: Option<string>, now: int)
    requires Holes(Marks(cond)) == |own|
    requires Close(cond, [Instant(now)] + own + Tail(options, keyPrefix), 1) == meant
    ensures CloseSelect(SqliteText(cond, options, keyPrefix), [Instant(now)] + own + Tail(options, keyPrefix))
         == IntendedSelect(Sqlite, meant, options, keyPrefix, now)
  {
    TailPlaces([Instant(now)] + own, options, keyPrefix);
    OneHole(Hole);
    var params := [Instant(now)] + own + Tail(options, keyPrefix);
    var s := SqliteText(cond, options, keyPrefix);
    var like := Holes(Ones(s.keyLike));
    var limit := Holes(OnesOfLimit(s.limit));
    assert params[0] == Instant(now);
    assert like == if Filters(keyPrefix) then 1 else 0;
    assert limit == if options.limit.Some? then 1 else 0;
    assert CloseSelect(s, params).limit == CloseLimit(s.limit, params, 1 + |own| + like);
    assert CloseSelect(s, params).offset == CloseOption(s.offset, params, 1 + |own| + like + limit);
  }

  lemma PostgresTextCloses(cond: Cond, own: seq<Param>, meant: Cond, options: FindOptions, keyPrefix: Option<string>, now: int)
    requires Close(cond, own + [Instant(now)] + Tail(options, keyPrefix), 0) == meant
    ensures CloseSelect(PostgresText(cond, |own|, options, keyPrefix), own + [Instant(now)] + Tail(options, keyPrefix))
         == IntendedSelect(Postgres, meant, options, keyPrefix, now)
  {
    var params := own + [Instant(now)] + Tail(options, keyPrefix);
    var s := PostgresText(cond, |own|, options, keyPrefix);
    var meaning := IntendedSelect(Postgres, meant, options, keyPrefix, now);
    TailPlaces(own + [Instant(now)], options, keyPrefix);
    OneHole(Numbered(|own| + 1));
    assert params[|own|] == Instant(now);
    forall seen ensures CloseOption(s.keyLike, params, seen) == meaning.keyLike {
    }
    forall seen ensures CloseLimit(s.limit, params, seen) == meaning.limit {
    }
    forall seen ensures CloseOption(s.offset, params, seen) == meaning.offset {
    }
  }

  /** The whole request in the dialect's terms, or the error that its query deserves. */
  function Asked(d: Dialect, where: Node, options: FindOptions, keyPrefix: Option<string>, now: int): Result<Select, QueryError> {
    match Intended(d, where)
    case Ok(cond) => Ok(IntendedSelect(d, cond, options, keyPrefix, now))
    case Err(e) => Err(e)
  }

  /** `r` is a statement and a parameter list that together say `asked`, or `asked`'s error. */
  predicate Says(r: Result<(Select, seq<Param>), QueryError>, asked: Result<Select, QueryError>) {
    match r
    case Ok(statement) => Ok(CloseSelect(statement.0, statement.1)) == asked
    case Err(e) => asked == Err(e)
  }

  /** The statement, with its parameters bound, is the one that was asked for. */
  lemma SqliteFinds(where: Node, options: FindOptions, keyPrefix: Option<string>, now: int)
    requires Lower(Sqlite, where, 0).Ok?
    ensures var l := Lower(Sqlite, where, 0).value;
            var params := [Instant(now)] + l.pushed + Tail(options, keyPrefix);
            Says(Ok((SqliteText(l.text, options, keyPrefix), params)), Asked(Sqlite, where, options, keyPrefix, now))
  {
    var l := Lower(Sqlite, where, 0).value;
    var params := [Instant(now)] + l.pushed + Tail(options, keyPrefix);
    MarksInOrder(Sqlite, where, 0);
    HolesOfPlaceholders(Sqlite, 0, |l.pushed|);
    assert params[1..1 + |l.pushed|] == l.pushed;
    CompiledQueryCloses(Sqlite, where, params, 0, 1);
    SqliteTextCloses(l.text, l.pushed, Intended(Sqlite, where).value, options, keyPrefix, now);
  }

  lemma PostgresFinds(where: Node, options: FindOptions, keyPrefix: Option<string>, now: int)
    requires Lower(Postgres, where, 0).Ok?
    ensures var l := Lower(Postgres, where, 0).value;
            var params := l.pushed + [Instant(now)] + Tail(options, keyPrefix);
            var text := PostgresText(l.text, |l.pushed|, options, keyPrefix);
            Says(Ok((text, params)), Asked(Postgres, where, options, keyPrefix, now))
  {
    var l := Lower(Postgres, where, 0).value;
    var params := l.pushed + [Instant(now)] + Tail(options, keyPrefix);
    assert params[0..|l.pushed|] == l.pushed;
    CompiledQueryCloses(Postgres, where, params, 0, 0);
    PostgresTextCloses(l.text, l.pushed, Intended(Postgres, where).value, options, keyPrefix, now);
  }

  /** Clause by clause; `now` is put before the compiled parameters. */
  method AssembleSqlite(cond: Cond, own: seq<Param>, options: FindOptions, keyPrefix: Option<string>, now: int)
    returns (s: Select, params: seq<Param>)
    ensures s == SqliteText(cond, options, keyPrefix)
    ensures params == [Instant(now)] + own + Tail(options, keyPrefix)
  {
    params := [Instant(now)] + own;
    var keyLike := None;
    if Filters(keyPrefix) {
      keyLike := Some(Hole);
      params := params + [Pattern(Namespaces.PrefixPattern(keyPrefix.value))];
    }
    assert params == [Instant(now)] + own + LikeParam(keyPrefix);
    var limit := NoLimit;
    if options.limit.Some? {
      limit := AtMost(Hole);
      params := params + [Count(options.limit.value)];
    }
    assert params == [Instant(now)] + own + LikeParam(keyPrefix) + CountParam(options.limit);
    var offset := None;
    if options.offset.Some? {
      limit := if options.limit.None? then Unlimited else limit;
      offset := Some(Hole);
      params := params + [Count(options.offset.value)];
    }
    s := Select(Hole, cond, keyLike, OrderBy(Sqlite, options.sort), limit, offset);
  }

  method FindSqlite(where: Node, options: FindOptions, keyPrefix: Option<string>, now: int)
    returns (r: Result<(Select, seq<Param>), QueryError>)
    ensures Says(r, Asked(Sqlite, where, options, keyPrefix, now))
  {
    var list := new Params();
    var compiled := Walk(where, Sqlite, list);
    SameError(Sqlite, where, 0);
    if compiled.Err? {
      return Err(compiled.error);
    }
    assert list.items == Lower(Sqlite, where, 0).value.pushed;
    SqliteFinds(where, options, keyPrefix, now);
    var s, params := AssembleSqlite(compiled.value, list.items, options, keyPrefix, now);
    return Ok((s, params));
  }

  /** Clause by clause; `push` returns the new length, which is the number of the parameter it added. */
  method AssemblePostgres(cond: Cond, own: seq<Param>, options: FindOptions, keyPrefix: Option<string>, now: int)
    returns (s: Select, params: seq<Param>)
    ensures s == PostgresText(cond, |own|, options, keyPrefix)
    ensures params == own + [Instant(now)] + Tail(options, keyPrefix)
  {
    params := own + [Instant(now)];
    var nowIndex := |params|;
    var keyLike := None;
    if Filters(keyPrefix) {
      params := params + [Pattern(Namespaces.PrefixPattern(keyPrefix.value))];
      keyLike := Some(Numbered(|params|));
    }
    assert params == own + [Instant(now)] + LikeParam(keyPrefix);
    var limit := NoLimit;
    if options.limit.Some? {
      params := params + [Count(options.limit.value)];
      limit := AtMost(Numbered(|params|));
    }
    assert params == own + [Instant(now)] + LikeParam(keyPrefix) + CountParam(options.limit);
    var offset := None;
    if options.offset.Some? {
      params := params + [Count(options.offset.value)];
      offset := Some(Numbered(|params|));
    }
    s := Select(Numbered(nowIndex), cond, keyLike, OrderBy(Postgres, options.sort), limit, offset);
  }

  method FindPostgres(where: Node, options: FindOptions, keyPrefix: Option<string>, now: int)
    returns (r: Result<(Select, seq<Param>), QueryError>)
    ensures Says(r, Asked(Postgres, where, options, keyPrefix, now))
  {
    var list := new Params();
    var compiled := Walk(where, Postgres, list);
    SameError(Postgres, where, 0);
    if compiled.Err? {
      return Err(compiled.error);
    }
    assert list.items == Lower(Postgres, where, 0).value.pushed;
    PostgresFinds(where, options, keyPrefix, now);
    var s, params := AssemblePostgres(compiled.value, list.items, options, keyPrefix, now);
    return Ok((s, params));
  }
}
