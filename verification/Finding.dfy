/** A `find` from end to end: the statement a driver sends, on the rows of a shared table. */
module Finding {
  import opened Basics
  import opened Documents
  import opened Query
  import opened SqlCompiler
  import opened SqlParameters
  import opened SqlMeaning
  import opened SqlAgreement
  import opened Namespaces
  import RedisScan

  /** The closed WHERE clause holds for the row: not expired, the query true, the key like the pattern. */
  predicate Passes(d: Dialect, s: Select, key: string, row: Row, doc: Json, render: Render) {
    && (match s.notExpiredAt
        case Closed(Instant(now)) => LiveAt(row, now)
        case _ => false)
    && Eval(d, s.where, doc, render) == Yes
    && (match s.keyLike
        case None => true
        case Some(Closed(Pattern(pattern))) => Like(pattern, key)
        case Some(_) => false)
  }

  /** What the Redis driver does instead: filter the live entries that its scan finds in memory. */
  predicate PassesInMemory(where: Node, prefix: string, key: string, row: Row, doc: Json, now: int) {
    RedisScan.Scanned(prefix, key) && LiveAt(row, now) && Evaluate(where, doc)
  }

  /** The statement that a table's `find` asks of a driver. */
  function Statement(d: Dialect, where: Node, options: FindOptions, scope: Scope, now: int): Result<Select, QueryError>
    requires Legal(scope)
  {
    Asked(d, where, options, Some(NamespacePrefix(scope).value), now)
  }

  /** The rows that a `find` is for: of its own namespace, alive, and accepted by the interpreter. */
  predicate Wanted(where: Node, namespace: string, place: Place, row: Row, doc: Json, now: int) {
    place.namespace == namespace && LiveAt(row, now) && Evaluate(where, doc)
  }

  /** On a table shared by many namespaces the statement passes a row exactly when it is wanted, but for the
      wanted rows on which the query does not settle: those, and no others, are missing. */
  lemma FindIsExact(d: Dialect, where: Node, options: FindOptions, tablePrefix: string, namespace: string, place: Place,
                    row: Row, doc: Json, now: int, render: Render)
    requires Legal(Scope(tablePrefix, namespace)) && Legal(Scope(tablePrefix, place.namespace))
    requires Statement(d, where, options, Scope(tablePrefix, namespace), now).Ok?
    requires Suits(d, where, doc)
    ensures Passes(d, Statement(d, where, options, Scope(tablePrefix, namespace), now).value,
                   Physical(tablePrefix, place), row, doc, render)
       <==> Wanted(where, namespace, place, row, doc, now) && Settles(d, where, doc)
  {
    var scope := Scope(tablePrefix, namespace);
    SqlUnderApproximates(d, where, doc, render);
    DecidedExactlyWhenSettled(d, where, doc, render);
    Reaches(tablePrefix, namespace, "", place);
    assert ToPhysical(scope, "").value == NamespacePrefix(scope).value;
  }

  /** A positive query finds the same rows in SQLite, in Postgres and in memory. */
  lemma BackendsFindTheSame(where: Node, options: FindOptions, tablePrefix: string, namespace: string, place: Place,
                            row: Row, doc: Json, now: int, render: Render, other: Render)
    requires Legal(Scope(tablePrefix, namespace)) && Legal(Scope(tablePrefix, place.namespace))
    requires RedisScan.Plain(NamespacePrefix(Scope(tablePrefix, namespace)).value)
    requires Positive(where) && Suits(Sqlite, where, doc) && Suits(Postgres, where, doc)
    requires Statement(Sqlite, where, options, Scope(tablePrefix, namespace), now).Ok?
    requires Statement(Postgres, where, options, Scope(tablePrefix, namespace), now).Ok?
    ensures var scope, key := Scope(tablePrefix, namespace), Physical(tablePrefix, place);
            var inMemory := PassesInMemory(where, NamespacePrefix(scope).value, key, row, doc, now);
            && Passes(Sqlite, Statement(Sqlite, where, options, scope, now).value, key, row, doc, render) == inMemory
            && Passes(Postgres, Statement(Postgres, where, options, scope, now).value, key, row, doc, other) == inMemory
  {
    if Evaluate(where, doc) {
      PositiveSettles(Sqlite, where, doc);
      PositiveSettles(Postgres, where, doc);
    }
    FindIsExact(Sqlite, where, options, tablePrefix, namespace, place, row, doc, now, render);
    FindIsExact(Postgres, where, options, tablePrefix, namespace, place, row, doc, now, other);
    RedisScan.PlainPatternMatchesPrefix(NamespacePrefix(Scope(tablePrefix, namespace)).value, Physical(tablePrefix, place));
    PrefixStaysInNamespace(tablePrefix, namespace, "", place.namespace, place.key);
    assert ToPhysical(Scope(tablePrefix, namespace), "").value == NamespacePrefix(Scope(tablePrefix, namespace)).value;
  }

  /* ---------- the rows that come back ---------- */

  /** A row of the shared table under its physical key, and the document that its text stands for. */
  datatype Stored = Stored(key: string, place: Place, row: Row, doc: Json)

  function Kept(rows: seq<Stored>, keep: Stored -> bool): seq<Stored> {
    if rows == [] then []
    else
      var n := |rows| - 1;
      Kept(rows[..n], keep) + if keep(rows[n]) then [rows[n]] else []
  }

  /** `slice(offset)`, then `slice(0, limit)`. */
  function Page(rows: seq<Stored>, limit: Option<nat>, offset: Option<nat>): seq<Stored> {
    var rest := if offset.None? then rows else if offset.value <= |rows| then rows[offset.value..] else [];
    if limit.Some? && limit.value < |rest| then rest[..limit.value] else rest
  }

  /** Pages of one length, one after the other, list the rows, each once and in order. */
  lemma PagesCover(rows: seq<Stored>, limit: nat, offset: nat)
    ensures Page(rows, Some(limit), Some(offset)) + Page(rows, None, Some(offset + limit)) == Page(rows, None, Some(offset))
    ensures Page(rows, None, Some(0)) == rows
  {
  }

  function CountOf(mark: Mark): Option<nat> {
    match mark
    case Closed(Count(n)) => Some(n)
    case _ => None
  }

  function LimitOf(limit: Limit): Option<nat> {
    match limit
    case AtMost(mark) => CountOf(mark)
    case _ => None
  }

  function OffsetOf(offset: Option<Mark>): Option<nat> {
    if offset.Some? then CountOf(offset.value) else None
  }

  /** What the statement returns of a table whose rows the database lists in this order. */
  function Returned(d: Dialect, s: Select, listing: seq<Stored>, render: Render): seq<Stored> {
    var kept := Kept(listing, (r: Stored) => Passes(d, s, r.key, r.row, r.doc, render));
    Page(kept, LimitOf(s.limit), OffsetOf(s.offset))
  }

  /** What the Redis driver returns of the rows its scan and its sort put into this order. */
  function ReturnedInMemory(where: Node, options: FindOptions, prefix: string, listing: seq<Stored>, now: int): seq<Stored> {
    var kept := Kept(listing, (r: Stored) =>
      PassesInMemory(where, prefix, r.key, r.row, r.doc, now));
    Page(kept, options.limit, options.offset)
  }

  lemma {:induction false} KeptAlike(rows: seq<Stored>, keep: Stored -> bool, other: Stored -> bool)
    requires forall r :: r in rows ==> keep(r) == other(r)
    ensures Kept(rows, keep) == Kept(rows, other)
  {
    if rows != [] {
      var n := |rows| - 1;
      assert rows[n] in rows && forall r :: r in rows[..n] ==> r in rows;
      KeptAlike(rows[..n], keep, other);
    }
  }

  /** Every row is of a legal namespace, and the query's types suit its document. */
  predicate AllSuit(d: Dialect, where: Node, tablePrefix: string, listing: seq<Stored>) {
    forall r :: r in listing ==>
      && Legal(Scope(tablePrefix, r.place.namespace))
      && r.key == Physical(tablePrefix, r.place)
      && Suits(d, where, r.doc)
  }

  lemma StatementPages(d: Dialect, where: Node, options: FindOptions, scope: Scope, now: int)
    requires Legal(scope) && Statement(d, where, options, scope, now).Ok?
    ensures var s := Statement(d, where, options, scope, now).value;
            LimitOf(s.limit) == options.limit && OffsetOf(s.offset) == options.offset
  {
  }

  lemma SamePage(d: Dialect, s: Select, listing: seq<Stored>, render: Render, options: FindOptions, keep: Stored -> bool)
    requires LimitOf(s.limit) == options.limit && OffsetOf(s.offset) == options.offset
    requires forall r :: r in listing ==> Passes(d, s, r.key, r.row, r.doc, render) == keep(r)
    ensures Returned(d, s, listing, render) == Page(Kept(listing, keep), options.limit, options.offset)
  {
    KeptAlike(listing, (r: Stored) => Passes(d, s, r.key, r.row, r.doc, render), keep);
  }

  /** In whatever order the database lists the rows, it returns the asked page of the wanted ones on which the
      query settles. */
  lemma FindReturnsExactly(d: Dialect, where: Node, options: FindOptions, tablePrefix: string, namespace: string,
                           listing: seq<Stored>, now: int, render: Render)
    requires Legal(Scope(tablePrefix, namespace)) && AllSuit(d, where, tablePrefix, listing)
    requires Statement(d, where, options, Scope(tablePrefix, namespace), now).Ok?
    ensures Returned(d, Statement(d, where, options, Scope(tablePrefix, namespace), now).value, listing, render)
         == Page(Kept(listing, (r: Stored) => Wanted(where, namespace, r.place, r.row, r.doc, now) && Settles(d, where, r.doc)),
                 options.limit, options.offset)
  {
    var s := Statement(d, where, options, Scope(tablePrefix, namespace), now).value;
    var wanted := (r: Stored) => Wanted(where, namespace, r.place, r.row, r.doc, now) && Settles(d, where, r.doc);
    forall r | r in listing ensures Passes(d, s, r.key, r.row, r.doc, render) == wanted(r) {
      FindIsExact(d, where, options, tablePrefix, namespace, r.place, r.row, r.doc, now, render);
    }
    StatementPages(d, where, options, Scope(tablePrefix, namespace), now);
    SamePage(d, s, listing, render, options, wanted);
  }

  /** A positive query returns the same page from SQLite, from Postgres and from memory, rows listed alike. */
  lemma BackendsReturnTheSame(where: Node, options: FindOptions, tablePrefix: string, namespace: string,
                              listing: seq<Stored>, now: int, render: Render, other: Render)
    requires Legal(Scope(tablePrefix, namespace)) && RedisScan.Plain(NamespacePrefix(Scope(tablePrefix, namespace)).value)
    requires Positive(where) && AllSuit(Sqlite, where, tablePrefix, listing) && AllSuit(Postgres, where, tablePrefix, listing)
    requires Statement(Sqlite, where, options, Scope(tablePrefix, namespace), now).Ok?
    requires Statement(Postgres, where, options, Scope(tablePrefix, namespace), now).Ok?
    ensures var scope := Scope(tablePrefix, namespace);
            var inMemory := ReturnedInMemory(where, options, NamespacePrefix(scope).value, listing, now);
            && Returned(Sqlite, Statement(Sqlite, where, options, scope, now).value, listing, render) == inMemory
            && Returned(Postgres, Statement(Postgres, where, options, scope, now).value, listing, other) == inMemory
  {
    var scope := Scope(tablePrefix, namespace);
    var prefix := NamespacePrefix(scope).value;
    var a, b := Statement(Sqlite, where, options, scope, now).value, Statement(Postgres, where, options, scope, now).value;
    var inMemory := (r: Stored) => PassesInMemory(where, prefix, r.key, r.row, r.doc, now);
    forall r | r in listing
      ensures Passes(Sqlite, a, r.key, r.row, r.doc, render) == inMemory(r)
      ensures Passes(Postgres, b, r.key, r.row, r.doc, other) == inMemory(r)
    {
      BackendsFindTheSame(where, options, tablePrefix, namespace, r.place, r.row, r.doc, now, render, other);
    }
    StatementPages(Sqlite, where, options, scope, now);
    StatementPages(Postgres, where, options, scope, now);
    SamePage(Sqlite, a, listing, render, options, inMemory);
    SamePage(Postgres, b, listing, other, options, inMemory);
  }
}
