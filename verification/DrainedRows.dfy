/** What the driver holds once every run has succeeded: each row is what the window of its key's last
    operation means, and so its expiry and columns are those of first-in-first-out application, or not. */
module DrainedRows {
  import opened Basics
  import opened Window
  import opened FlushMachine
  import opened FlushRuns

  /* ---------- which window a row comes from ---------- */

  /** The operations that run `r` settled. */
  function OpsOfRun(log: seq<Op>, runOf: seq<nat>, r: nat): seq<Op>
    requires |runOf| == |log|
  {
    if log == [] then []
    else
      var n := |log| - 1;
      OpsOfRun(log[..n], runOf[..n], r) + if runOf[n] == r then [log[n]] else []
  }

  /** The run that settled the last operation on `k`. */
  function RunOfLast(log: seq<Op>, runOf: seq<nat>, k: string): Option<nat>
    requires |runOf| == |log|
  {
    if log == [] then None
    else
      var n := |log| - 1;
      if log[n].Target() == k then Some(runOf[n]) else RunOfLast(log[..n], runOf[..n], k)
  }

  /** Each row as the window of its last operation means it; a key that none names is as it was. */
  function RowOf(cfg: Config, init: Store, log: seq<Op>, runOf: seq<nat>, k: string): Option<Rec>
    requires |runOf| == |log|
  {
    match RunOfLast(log, runOf, k)
    case None => At(init, k)
    case Some(r) => Meaning(cfg, map[], OpsOfRun(log, runOf, r), k)
  }

  /** What the store holds at `k`; where TTLs are passed on unchanged, there are no windows to tell apart. */
  ghost predicate RowIs(cfg: Config, row: Option<Rec>, init: Store, log: seq<Op>, runOf: seq<nat>, k: string)
    requires |runOf| == |log|
  {
    if cfg.raw then Restarts(row, At(init, k), Last(log, k)) else row == RowOf(cfg, init, log, runOf, k)
  }

  ghost predicate Rows(cfg: Config, init: Store, store: Store, log: seq<Op>, runOf: seq<nat>)
    requires |runOf| == |log|
  {
    forall k :: RowIs(cfg, At(store, k), init, log, runOf, k)
  }

  lemma {:induction false} MoreOps(log: seq<Op>, runOf: seq<nat>, flight: seq<Op>, run: nat, r: nat)
    requires |runOf| == |log|
    ensures OpsOfRun(log + flight, runOf + Repeat(|flight|, run), r)
         == OpsOfRun(log, runOf, r) + if r == run then flight else []
    decreases |flight|
  {
    if flight == [] {
      assert log + flight == log && runOf + Repeat(0, run) == runOf;
    } else {
      var n := |flight| - 1;
      MoreOps(log, runOf, flight[..n], run, r);
      assert (log + flight)[..|log| + n] == log + flight[..n];
      assert (runOf + Repeat(n + 1, run))[..|log| + n] == runOf + Repeat(n, run);
      assert flight == flight[..n] + [flight[n]];
    }
  }

  lemma {:induction false} LaterLast(log: seq<Op>, runOf: seq<nat>, flight: seq<Op>, run: nat, k: string)
    requires |runOf| == |log|
    ensures RunOfLast(log + flight, runOf + Repeat(|flight|, run), k)
         == if k in Names(flight) then Some(run) else RunOfLast(log, runOf, k)
    decreases |flight|
  {
    if flight == [] {
      assert log + flight == log && runOf + Repeat(0, run) == runOf;
    } else {
      var n := |flight| - 1;
      LaterLast(log, runOf, flight[..n], run, k);
      assert (log + flight)[..|log| + n] == log + flight[..n];
      assert (runOf + Repeat(n + 1, run))[..|log| + n] == runOf + Repeat(n, run);
      assert flight == flight[..n] + [flight[n]];
    }
  }

  lemma {:induction false} NothingOfALaterRun(log: seq<Op>, runOf: seq<nat>, run: nat)
    requires |runOf| == |log| && forall i :: 0 <= i < |runOf| ==> runOf[i] < run
    ensures OpsOfRun(log, runOf, run) == []
  {
    if log != [] {
      NothingOfALaterRun(log[..|log| - 1], runOf[..|log| - 1], run);
    }
  }

  lemma {:induction false} RunIsKnown(log: seq<Op>, runOf: seq<nat>, k: string)
    requires |runOf| == |log| && RunOfLast(log, runOf, k).Some?
    ensures RunOfLast(log, runOf, k).value in runOf
  {
    var n := |log| - 1;
    if log[n].Target() != k {
      RunIsKnown(log[..n], runOf[..n], k);
    }
  }

  /** A successful run gives every key it names a new row, and leaves the others. */
  lemma SettledRow(cfg: Config, init: Store, base: Store, store: Store, log: seq<Op>, runOf: seq<nat>, flight: seq<Op>,
                   run: nat, k: string)
    requires |runOf| == |log| && forall i :: 0 <= i < |runOf| ==> runOf[i] < run
    requires At(base, k) == RowOf(cfg, init, log, runOf, k) && At(store, k) == Meaning(cfg, base, flight, k)
    ensures At(store, k) == RowOf(cfg, init, log + flight, runOf + Repeat(|flight|, run), k)
  {
    LaterLast(log, runOf, flight, run, k);
    if k in Names(flight) {
      MoreOps(log, runOf, flight, run, run);
      NothingOfALaterRun(log, runOf, run);
      assert [] + flight == flight;
      MeaningIgnoresBase(cfg, base, map[], flight, k);
    } else {
      UntouchedByWindow(base, flight, k);
      if RunOfLast(log, runOf, k).Some? {
        var r := RunOfLast(log, runOf, k).value;
        RunIsKnown(log, runOf, k);
        MoreOps(log, runOf, flight, run, r);
        assert OpsOfRun(log, runOf, r) + [] == OpsOfRun(log, runOf, r);
      }
    }
  }

  lemma {:induction false} LastOfConcat(a: seq<Op>, b: seq<Op>, k: string)
    ensures Last(a + b, k) == if Last(b, k).Some? then Last(b, k) else Last(a, k)
    decreases |b|
  {
    if b == [] {
      assert a + b == a;
    } else {
      var n := |b| - 1;
      assert (a + b)[..|a| + n] == a + b[..n];
      LastOfConcat(a, b[..n], k);
    }
  }

  lemma SettledRowIs(cfg: Config, init: Store, base: Store, store: Store, log: seq<Op>, runOf: seq<nat>, flight: seq<Op>,
                     run: nat, k: string)
    requires |runOf| == |log| && forall i :: 0 <= i < |runOf| ==> runOf[i] < run
    requires RowIs(cfg, At(base, k), init, log, runOf, k) && Written(cfg, base, store, flight)
    ensures RowIs(cfg, At(store, k), init, log + flight, runOf + Repeat(|flight|, run), k)
  {
    assert ValueAt(store, k) == ValueOf(Meaning(cfg, base, flight, k));
    if cfg.raw {
      LastOfConcat(log, flight, k);
    } else {
      SettledRow(cfg, init, base, store, log, runOf, flight, run, k);
    }
  }

  /* ---------- along every run ---------- */

  ghost predicate AllSucceeded(s: State) {
    forall v :: v in s.verdicts ==> v
  }

  ghost predicate KeepsRows(cfg: Config, s: State)
    requires Inv(s)
  {
    AllSucceeded(s) ==> Rows(cfg, s.init, s.base, s.log[..s.done], s.runOf)
  }

  lemma StartingKeepsRows(cfg: Config, s: State, t: State)
    requires Inv(s) && Inv(t) && OnlyStarts(s, t) && KeepsRows(cfg, s)
    ensures KeepsRows(cfg, t)
  {
  }

  lemma LoggingKeepsRows(cfg: Config, s: State, op: Op, t: State)
    requires Inv(s) && KeepsRows(cfg, s) && Inv(t) && OnlyStarts(s.(log := s.log + [op]), t)
    ensures KeepsRows(cfg, t)
  {
    assert t.log[..t.done] == s.log[..s.done];
  }

  lemma EndKeepsRows(cfg: Config, s: State, ok: bool, t: State)
    requires Inv(s) && KeepsRows(cfg, s) && Enabled(cfg, s, HandlerEnds(ok))
    requires Inv(t) && OnlyStarts(Settle(s, ok), t)
    ensures KeepsRows(cfg, t)
  {
    var log, flight, run := s.log[..s.done], Flight(s), |s.verdicts|;
    assert t.log[..t.done] == log + flight;
    if AllSucceeded(t) {
      assert t.verdicts == s.verdicts + [ok] && ok in t.verdicts;
      assert forall v :: v in s.verdicts ==> v in t.verdicts;
      assert Enabled(cfg, s, HandlerEnds(true));
      forall k ensures RowIs(cfg, At(s.store, k), s.init, log + flight, s.runOf + Repeat(|flight|, run), k) {
        SettledRowIs(cfg, s.init, s.base, s.store, log, s.runOf, flight, run, k);
      }
    }
  }

  lemma StepKeepsRows(cfg: Config, s: State, e: Event)
    requires Inv(s) && KeepsRows(cfg, s) && Enabled(cfg, s, e)
    ensures Inv(Next(cfg, s, e)) && KeepsRows(cfg, Next(cfg, s, e))
  {
    StepKeepsInv(cfg, s, e);
    var t := Next(cfg, s, e);
    match e
    case Call(op) =>
      BeginStartsOnly(cfg, s.(log := s.log + [op]));
      LoggingKeepsRows(cfg, s, op, t);
    case HandlerEnds(ok) =>
      BeginStartsOnly(cfg, Settle(s, ok));
      EndKeepsRows(cfg, s, ok, t);
    case Wake(id) =>
      TurnStartsOnly(cfg, s, id);
      if s.verdicts[s.waiters[id].run] {
        StartingKeepsRows(cfg, s, t);
      }
    case HandlerWrites(to) =>
    case TimerFires =>
      BeginStartsOnly(cfg, s);
      StartingKeepsRows(cfg, s, t);
    case FlushCall =>
      BeginStartsOnly(cfg, s);
      StartingKeepsRows(cfg, s, t);
  }

  lemma {:induction false} RowsAlways(cfg: Config, init: Store, run: Run, s: State)
    requires Reaches(cfg, init, run, s)
    ensures Inv(s) && KeepsRows(cfg, s) && s.init == init
    decreases run
  {
    InvariantAlways(cfg, init, run, s);
    match run
    case Fresh =>
      assert s.log[..0] == [];
    case Then(before, e) =>
      var p :| Reaches(cfg, init, before, p) && Steps(cfg, p, e, s);
      RowsAlways(cfg, init, before, p);
      StepKeepsRows(cfg, p, e);
      assert s.init == p.init by {
        SettlementKeepsInit(cfg, p, e);
      }
  }

  lemma SettlementKeepsInit(cfg: Config, s: State, e: Event)
    requires Inv(s) && Enabled(cfg, s, e)
    ensures Next(cfg, s, e).init == s.init
  {
    match e
    case Call(op) => BeginStartsOnly(cfg, s.(log := s.log + [op]));
    case HandlerEnds(ok) => BeginStartsOnly(cfg, Settle(s, ok));
    case Wake(id) => TurnStartsOnly(cfg, s, id);
    case HandlerWrites(to) =>
    case _ => BeginStartsOnly(cfg, s);
  }

  /* ---------- the drained store ---------- */

  /** The window of the last operation on a key has that operation. */
  lemma {:induction false} WindowHasTheLast(log: seq<Op>, runOf: seq<nat>, k: string)
    requires |runOf| == |log|
    ensures RunOfLast(log, runOf, k).None? <==> Last(log, k).None?
    ensures RunOfLast(log, runOf, k).Some? ==> Last(OpsOfRun(log, runOf, RunOfLast(log, runOf, k).value), k) == Last(log, k)
  {
    if log != [] {
      var n := |log| - 1;
      if log[n].Target() == k {
        LastOfSnoc(OpsOfRun(log[..n], runOf[..n], runOf[n]), log[n], k);
      } else {
        WindowHasTheLast(log[..n], runOf[..n], k);
        if RunOfLast(log, runOf, k).Some? {
          LastOfSnoc(OpsOfRun(log[..n], runOf[..n], RunOfLast(log, runOf, k).value), log[n], k);
        }
      }
    }
  }

  lemma LastOfSnoc(ops: seq<Op>, op: Op, k: string)
    ensures Last(ops + [op], k) == if op.Target() == k then Some(op) else Last(ops, k)
    ensures ops + [] == ops
  {
    assert (ops + [op])[..|ops|] == ops;
  }

  /** The window that a row of the drained store comes from; empty if no operation names its key. */
  function SourceWindow(log: seq<Op>, runOf: seq<nat>, k: string): seq<Op>
    requires |runOf| == |log|
  {
    match RunOfLast(log, runOf, k)
    case None => []
    case Some(r) => OpsOfRun(log, runOf, r)
  }

  /** The row is there exactly when the plain one is, with its value; expiry and columns are the same exactly
      unless the window inherited a TTL, or columns. */
  ghost predicate DiffersByInheritanceAlone(cfg: Config, row: Option<Rec>, plain: Option<Rec>, window: seq<Op>, k: string) {
    && (row.Some? <==> plain.Some?)
    && (row.Some? ==>
          && row.value.value == plain.value.value
          && (row.value.deadline == plain.value.deadline <==> !(cfg.coalesce && InheritsTtl(window, k)))
          && (row.value.columns == plain.value.columns <==> !(cfg.coalesce && InheritsColumns(window, k))))
  }

  lemma WindowAgainstFifo(cfg: Config, window: seq<Op>, k: string)
    ensures DiffersByInheritanceAlone(cfg, Meaning(cfg, map[], window, k), At(ApplyAll(map[], window), k), window, k)
  {
    FifoAt(map[], window, k);
    LastIffNamed(window, k);
    if cfg.coalesce {
      CoalescingAgainstFifo(map[], window, k);
      if FoldedAt(map[], window, k).Some? {
        ColumnsAgainstFifo(map[], window, k);
      }
    }
  }

  lemma NothingInherited(k: string)
    ensures !InheritsTtl([], k) && !InheritsColumns([], k)
  {
  }

  lemma LogAgainstFifo(cfg: Config, init: Store, log: seq<Op>, runOf: seq<nat>, k: string)
    requires |runOf| == |log|
    ensures DiffersByInheritanceAlone(cfg, RowOf(cfg, init, log, runOf, k), At(ApplyAll(init, log), k),
                                      SourceWindow(log, runOf, k), k)
  {
    WindowHasTheLast(log, runOf, k);
    FifoAt(init, log, k);
    if RunOfLast(log, runOf, k).Some? {
      WindowAgainstFifo(cfg, SourceWindow(log, runOf, k), k);
      FifoAt(map[], SourceWindow(log, runOf, k), k);
    } else {
      NothingInherited(k);
    }
  }

  /** The row is that of the last operation, with its value and columns; its expiry is the same exactly if there
      is none, or the write came at the time of the call. */
  ghost predicate DiffersByDelayAlone(row: Option<Rec>, plain: Option<Rec>, last: Option<Op>) {
    match last
    case Some(SetOp(i)) =>
      && plain == Some(RecOf(i))
      && exists clock ::
           && row == Some(Restarted(i, clock))
           && (row.value.deadline == plain.value.deadline <==> i.ttl.None? || clock == i.at)
    case _ => row == plain
  }

  lemma RestartsAgainstFifo(row: Option<Rec>, init: Store, log: seq<Op>, k: string)
    requires Restarts(row, At(init, k), Last(log, k))
    ensures DiffersByDelayAlone(row, At(ApplyAll(init, log), k), Last(log, k))
  {
    FifoAt(init, log, k);
    match Last(log, k)
    case Some(SetOp(i)) =>
      var clock :| row == Some(Restarted(i, clock));
      assert row.value.deadline == Deadline(i.at, i.ttl) <==> i.ttl.None? || clock == i.at;
    case _ =>
  }

  /** Nothing is lost, and this is all that differs: once every handler run has succeeded and nothing is
      outstanding, each row is that of applying the whole log in order, but for what the window it comes from
      inherited, or, where TTLs are passed on unchanged, for the time between call and write. */
  lemma DrainedRowsAgainstFifo(cfg: Config, init: Store, run: Run, s: State, k: string)
    requires Reaches(cfg, init, run, s)
    requires s.done == |s.log| && AllSucceeded(s)
    ensures |s.runOf| == |s.log|
    ensures var row, plain := At(s.store, k), At(ApplyAll(init, s.log), k);
            if cfg.raw then DiffersByDelayAlone(row, plain, Last(s.log, k))
            else DiffersByInheritanceAlone(cfg, row, plain, SourceWindow(s.log, s.runOf, k), k)
  {
    RowsAlways(cfg, init, run, s);
    assert s.log[..s.done] == s.log;
    assert RowIs(cfg, At(s.store, k), init, s.log, s.runOf, k);
    if cfg.raw {
      RestartsAgainstFifo(At(s.store, k), init, s.log, k);
    } else {
      LogAgainstFifo(cfg, init, s.log, s.runOf, k);
    }
  }
}
