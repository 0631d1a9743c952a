/** What holds along every run of the write-behind protocol. */
module FlushRuns {
  import opened Basics
  import opened Window
  import opened FlushMachine

  /* ---------- every event keeps the invariant ---------- */

  /** A loop test, a call of `flush()` or a flush check changes nothing of the store side, except
      that it may start a flush of everything pending. */
  predicate OnlyStarts(s: State, t: State) {
    && t.init == s.init && t.log == s.log && t.done == s.done && t.store == s.store && t.verdicts == s.verdicts
    && t.runOf == s.runOf
    && (|| (t.phase == s.phase && t.base == s.base)
        || (t.phase.Spent? && t.base == s.base)
        || (s.phase.Idle? && t.phase == Flushing(|s.log|) && t.base == s.store))
  }

  lemma TurnStartsOnly(cfg: Config, s: State, id: nat)
    requires Shape(s) && id < |s.waiters|
    ensures OnlyStarts(s, Turn(cfg, s, id))
  {
  }

  lemma BeginStartsOnly(cfg: Config, s: State)
    requires Shape(s)
    ensures OnlyStarts(s, BeginFlush(cfg, s)) && OnlyStarts(s, Check(cfg, s))
  {
    var w := Waiter(|s.log|, |s.verdicts|, 0, |s.verdicts|, Waiting);
    TurnStartsOnly(cfg, s.(timer := false, waiters := s.waiters + [w]), |s.waiters|);
  }

  lemma StartingKeepsCoherent(s: State, t: State)
    requires Shape(s) && Shape(t) && Coherent(s) && OnlyStarts(s, t) && !t.phase.Spent?
    ensures Coherent(t)
  {
  }

  /** Applying operations respects agreement of values. */
  lemma ValuesCarryOver(a: Store, b: Store, ops: seq<Op>)
    requires SameValues(a, b)
    ensures SameValues(ApplyAll(a, ops), ApplyAll(b, ops))
  {
    forall k
      ensures ValueAt(ApplyAll(a, ops), k) == ValueAt(ApplyAll(b, ops), k)
    {
      FifoAt(a, ops, k);
      FifoAt(b, ops, k);
      assert ValueAt(a, k) == ValueAt(b, k);
    }
  }

  /** A completed flush has the values of first-in-first-out application, in both modes. */
  lemma WrittenHasFifoValues(cfg: Config, base: Store, store: Store, ops: seq<Op>)
    requires Written(cfg, base, store, ops)
    ensures SameValues(store, ApplyAll(base, ops))
  {
    forall k
      ensures ValueAt(store, k) == ValueAt(ApplyAll(base, ops), k)
    {
      CoalescingAgainstFifo(base, ops, k);
      assert ValueAt(store, k) == ValueOf(Meaning(cfg, base, ops, k));
    }
  }

  lemma LoggingKeepsCoherent(s: State, op: Op)
    requires Shape(s) && Coherent(s)
    ensures Coherent(s.(log := s.log + [op]))
  {
    var t := s.(log := s.log + [op]);
    assert Flight(t) == Flight(s);
    assert t.log[..t.done] == s.log[..s.done];
  }

  lemma EndKeepsCoherent(cfg: Config, s: State, ok: bool)
    requires Inv(s) && Enabled(cfg, s, HandlerEnds(ok))
    ensures Coherent(Settle(s, ok))
  {
    var t := Settle(s, ok);
    assert Flight(t) == [];
    if forall v :: v in t.verdicts ==> v {
      assert t.verdicts[|s.verdicts|] == ok && ok in t.verdicts;
      assert Enabled(cfg, s, HandlerEnds(true));
      assert forall v :: v in s.verdicts ==> v in t.verdicts;
      WrittenHasFifoValues(cfg, s.base, s.store, Flight(s));
      ValuesCarryOver(s.base, ApplyAll(s.init, s.log[..s.done]), Flight(s));
      ApplyAllSplit(s.init, s.log[..s.done], Flight(s));
      assert s.log[..s.done] + Flight(s) == t.log[..t.done];
    }
  }

  lemma StepKeepsCoherent(cfg: Config, s: State, e: Event)
    requires Inv(s) && Enabled(cfg, s, e)
    ensures Shape(Next(cfg, s, e)) && Coherent(Next(cfg, s, e))
  {
    StepKeepsProgress(cfg, s, e);
    var t := Next(cfg, s, e);
    match e
    case Call(op) =>
      LoggingKeepsCoherent(s, op);
      BeginStartsOnly(cfg, s.(log := s.log + [op]));
      StartingKeepsCoherent(s.(log := s.log + [op]), t);
    case HandlerEnds(ok) =>
      EndKeepsCoherent(cfg, s, ok);
      BeginStartsOnly(cfg, Settle(s, ok));
      StartingKeepsCoherent(Settle(s, ok), t);
    case Wake(id) =>
      if s.verdicts[s.waiters[id].run] {
        TurnStartsOnly(cfg, s, id);
        StartingKeepsCoherent(s, t);
      }
    case HandlerWrites(to) =>
    case TimerFires =>
      BeginStartsOnly(cfg, s);
      StartingKeepsCoherent(s, t);
    case FlushCall =>
      BeginStartsOnly(cfg, s);
      StartingKeepsCoherent(s, t);
  }

  lemma StepKeepsInv(cfg: Config, s: State, e: Event)
    requires Inv(s) && Enabled(cfg, s, e)
    ensures Inv(Next(cfg, s, e))
  {
    StepKeepsProgress(cfg, s, e);
    StepKeepsCoherent(cfg, s, e);
  }

  /* ---------- runs ---------- */

  /** The events of a run, latest last. */
  datatype Run = Fresh | Then(before: Run, event: Event)

  /** The run may end in state `s`: each event was enabled where it happened. */
  ghost predicate Reaches(cfg: Config, init: Store, run: Run, s: State) {
    match run
    case Fresh => s == Start(init)
    case Then(before, e) => exists p :: Reaches(cfg, init, before, p) && Steps(cfg, p, e, s)
  }

  ghost predicate Steps(cfg: Config, p: State, e: Event, s: State) {
    Shape(p) && Enabled(cfg, p, e) && s == Next(cfg, p, e)
  }

  lemma Extend(cfg: Config, init: Store, run: Run, p: State, e: Event)
    requires Reaches(cfg, init, run, p) && Shape(p) && Enabled(cfg, p, e)
    ensures Reaches(cfg, init, Then(run, e), Next(cfg, p, e))
  {
  }

  /** Whatever happens, in whatever order: at most one flush runs, sequence numbers are ordered,
      unflushed work always has a timer or a running flush, and the store keeps its shape. */
  lemma {:induction false} InvariantAlways(cfg: Config, init: Store, run: Run, s: State)
    requires Reaches(cfg, init, run, s)
    ensures Inv(s)
    decreases run
  {
    match run
    case Fresh =>
      assert s.log[..0] == [];
    case Then(before, e) =>
      var p :| Reaches(cfg, init, before, p) && Steps(cfg, p, e, s);
      InvariantAlways(cfg, init, before, p);
      StepKeepsInv(cfg, p, e);
  }

  /** The flush barrier. A call of `flush()` that returns normally leaves every operation enqueued
      before it settled, hence neither pending nor in flight; its loop takes at most two turns; and
      once two more runs have completed, its target is met. */
  lemma FlushBarrier(cfg: Config, init: Store, run: Run, s: State, id: nat)
    requires Reaches(cfg, init, run, s) && id < |s.waiters|
    ensures var w := s.waiters[id];
            && w.target <= |s.log|
            && w.turns <= 2
            && (w.status.Returned? ==> w.target <= s.done)
            && (w.since + 2 <= |s.verdicts| ==> w.target <= s.done)
  {
    InvariantAlways(cfg, init, run, s);
    assert WaiterOk(s, s.waiters[id]);
  }

  /** One loop test of a woken caller. */
  lemma WokenTurn(cfg: Config, s: State, id: nat)
    requires Progress(s) && id < |s.waiters| && s.waiters[id].status.Waiting? && s.waiters[id].run < |s.verdicts|
    ensures var t := Turn(cfg, s, id);
            || t.waiters[id].status.Returned?
            || (t.phase.Flushing? && t.waiters[id].run == |t.verdicts| && t.waiters[id].target <= t.phase.until)
  {
    assert WaiterOk(s, s.waiters[id]);
    CountZero(cfg, Pending(s));
  }

  /** A caller woken after a successful run either returns, or the run it awaits next reaches its
      target: the backlog it waits for strictly falls. */
  lemma NextTurnSuffices(cfg: Config, init: Store, run: Run, s: State, id: nat)
    requires Reaches(cfg, init, run, s) && Shape(s)
    requires Enabled(cfg, s, Wake(id)) && s.verdicts[s.waiters[id].run]
    ensures var t := Next(cfg, s, Wake(id));
            || t.waiters[id].status.Returned?
            || (t.phase.Flushing? && t.waiters[id].run == |t.verdicts| && t.waiters[id].target <= t.phase.until)
  {
    InvariantAlways(cfg, init, run, s);
    WokenTurn(cfg, s, id);
  }

  lemma TimerStartsFlush(cfg: Config, s: State)
    requires Progress(s) && s.phase.Idle? && s.done < |s.log|
    ensures BeginFlush(cfg, s).phase == Flushing(|s.log|)
  {
    CountZero(cfg, Pending(s));
  }

  /** While anything is unsettled the machine can move on its own: a running handler may end, or the
      timer will fire and start a flush of everything enqueued. */
  lemma UnsettledWorkCanMove(cfg: Config, init: Store, run: Run, s: State)
    requires Reaches(cfg, init, run, s) && s.done < |s.log|
    ensures Shape(s)
    ensures s.phase.Flushing? ==> Enabled(cfg, s, HandlerEnds(false))
    ensures !s.phase.Flushing? ==> Enabled(cfg, s, TimerFires) && Next(cfg, s, TimerFires).phase == Flushing(|s.log|)
  {
    InvariantAlways(cfg, init, run, s);
    if s.phase.Idle? {
      TimerStartsFlush(cfg, s);
    }
  }

  predicate Grows(s: State, t: State) {
    s.log <= t.log && s.done <= t.done && s.runOf <= t.runOf && s.verdicts <= t.verdicts
  }

  lemma TurnGrows(cfg: Config, s: State, id: nat)
    requires Shape(s) && id < |s.waiters|
    ensures Grows(s, Turn(cfg, s, id))
  {
  }

  lemma BeginGrows(cfg: Config, s: State)
    requires Shape(s)
    ensures Grows(s, BeginFlush(cfg, s)) && Grows(s, Check(cfg, s))
  {
    var w := Waiter(|s.log|, |s.verdicts|, 0, |s.verdicts|, Waiting);
    TurnGrows(cfg, s.(timer := false, waiters := s.waiters + [w]), |s.waiters|);
  }

  /** Settlement is final: no event forgets an operation, unsettles one, or changes the run that
      settled it or that run's verdict. */
  lemma SettlementIsFinal(cfg: Config, s: State, e: Event)
    requires Shape(s) && Enabled(cfg, s, e)
    ensures Grows(s, Next(cfg, s, e))
  {
    match e
    case Call(op) => BeginGrows(cfg, s.(log := s.log + [op]));
    case HandlerEnds(ok) => BeginGrows(cfg, Settle(s, ok));
    case TimerFires => BeginGrows(cfg, s);
    case FlushCall => BeginGrows(cfg, s);
    case Wake(id) => TurnGrows(cfg, s, id);
    case HandlerWrites(to) =>
  }

  /** Nothing is lost: if every handler run so far succeeded and no operation is outstanding, the
      driver holds, key by key, the values of applying the whole log in order. */
  lemma DrainedStoreIsFifo(cfg: Config, init: Store, run: Run, s: State)
    requires Reaches(cfg, init, run, s)
    requires s.done == |s.log| && forall v :: v in s.verdicts ==> v
    ensures SameValues(s.store, ApplyAll(s.init, s.log))
  {
    InvariantAlways(cfg, init, run, s);
    assert s.log[..s.done] == s.log;
  }

  /* ---------- reading your own writes ---------- */

  /** A point read: the pending window first, then the flight, then the driver. */
  function Visible(cfg: Config, s: State, k: string, now: int): Option<string>
    requires Shape(s)
  {
    if k in Names(Pending(s)) then Live(Meaning(cfg, map[], Pending(s), k), now)
    else if k in Names(Flight(s)) then Live(Meaning(cfg, map[], Flight(s), k), now)
    else Live(At(s.store, k), now)
  }

  /** The window whose buffered form answers a read of `k`. */
  function Answering(s: State, k: string): seq<Op>
    requires Shape(s)
  {
    if k in Names(Pending(s)) then Pending(s) else Flight(s)
  }

  /** The read was answered by a coalesced set that inherited a TTL which has meanwhile run out. */
  predicate StaleTtl(cfg: Config, s: State, k: string, now: int)
    requires Shape(s)
  {
    var ops := Answering(s, k);
    cfg.coalesce && InheritsTtl(ops, k) && Last(ops, k).value.item.at + KeptTtl(ops, k).value <= now
  }

  lemma MeaningIgnoresBase(cfg: Config, a: Store, b: Store, ops: seq<Op>, k: string)
    requires k in Names(ops)
    ensures Meaning(cfg, a, ops, k) == Meaning(cfg, b, ops, k)
  {
    LastIffNamed(ops, k);
    FifoAt(a, ops, k);
    FifoAt(b, ops, k);
  }

  lemma ReadOfWindow(cfg: Config, s: Store, ops: seq<Op>, k: string, now: int)
    requires k in Names(ops)
    ensures Live(Meaning(cfg, map[], ops, k), now) == Live(At(ApplyAll(s, ops), k), now)
       <==> !(cfg.coalesce && InheritsTtl(ops, k) && Last(ops, k).value.item.at + KeptTtl(ops, k).value <= now)
  {
    MeaningIgnoresBase(cfg, map[], s, ops, k);
    FoldedReadAgainstFifo(s, ops, k, now);
  }

  lemma UntouchedByWindow(s: Store, ops: seq<Op>, k: string)
    requires k !in Names(ops)
    ensures At(ApplyAll(s, ops), k) == At(s, k) && Last(ops, k).None?
  {
    LastIffNamed(ops, k);
    FifoAt(s, ops, k);
  }

  /** The overlay read against the plain store, from the store side of the invariant alone. */
  lemma OverlayRead(cfg: Config, s: State, k: string, now: int)
    requires Shape(s) && Coherent(s)
    ensures Visible(cfg, s, k, now) == Live(At(ApplyAll(s.base, Flight(s) + Pending(s)), k), now)
       <==> !StaleTtl(cfg, s, k, now)
  {
    var flight, pending := Flight(s), Pending(s);
    ApplyAllSplit(s.base, flight, pending);
    if k in Names(pending) {
      ReadOfWindow(cfg, ApplyAll(s.base, flight), pending, k, now);
    } else {
      UntouchedByWindow(ApplyAll(s.base, flight), pending, k);
      if k in Names(flight) {
        ReadOfWindow(cfg, s.base, flight, k, now);
      } else {
        UntouchedByWindow(s.base, flight, k);
      }
    }
  }

  /** Read-your-writes in every reachable state, however much of a batch has been written: a read
      equals the read of a store that started from the driver's contents at flush start and applied
      the in-flight and pending operations in order. The one exception is an inherited TTL that has
      run out, and it is always an exception. */
  lemma ReadYourWrites(cfg: Config, init: Store, run: Run, s: State, k: string, now: int)
    requires Reaches(cfg, init, run, s)
    ensures Shape(s)
    ensures Visible(cfg, s, k, now) == Live(At(ApplyAll(s.base, Flight(s) + Pending(s)), k), now)
       <==> !StaleTtl(cfg, s, k, now)
  {
    InvariantAlways(cfg, init, run, s);
    OverlayRead(cfg, s, k, now);
  }
}
