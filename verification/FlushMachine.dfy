/** The write-behind protocol over a first-in-first-out log.

    `log` is every operation enqueued so far; a prefix of it is settled, the next stretch may be in
    flight, and the rest is pending. Each event is one synchronous stretch of the event loop. */
module FlushMachine {
  import opened Basics
  import opened Window

  /** `raw` marks a batcher whose flush passes TTLs on unchanged (sequential, schema table). */
  datatype Config = Config(coalesce: bool, maxBatch: nat, raw: bool)

  /** `Spent`: `activeFlushPromise` holds a promise that has already settled and starts nothing. */
  datatype Phase = Idle | Flushing(until: nat) | Spent

  datatype Status = Waiting | Returned | Thrown

  /** One call of `flush()`: its target, the run it awaits, the turns its loop has taken, and the
      number of runs that had completed when it was called. */
  datatype Waiter = Waiter(target: nat, run: nat, turns: nat, since: nat, status: Status)

  datatype State = State(
    init: Store, log: seq<Op>,
    done: nat, phase: Phase, timer: bool,
    base: Store, store: Store,
    verdicts: seq<bool>, runOf: seq<nat>, waiters: seq<Waiter>)

  datatype Event =
    | Call(op: Op)
    | TimerFires
    | FlushCall
    | Wake(id: nat)
    | HandlerWrites(to: Store)
    | HandlerEnds(ok: bool)

  function Cut(s: State): nat {
    if s.phase.Flushing? then s.phase.until else s.done
  }

  predicate Shape(s: State) {
    s.done <= Cut(s) <= |s.log|
  }

  function Flight(s: State): seq<Op>
    requires Shape(s)
  {
    s.log[s.done..Cut(s)]
  }

  function Pending(s: State): seq<Op>
    requires Shape(s)
  {
    s.log[Cut(s)..]
  }

  /** `pendingCount` of a window: distinct keys when coalescing, operations otherwise. */
  function Count(cfg: Config, ops: seq<Op>): nat {
    if cfg.coalesce then |Names(ops)| else |ops|
  }

  lemma CountZero(cfg: Config, ops: seq<Op>)
    ensures Count(cfg, ops) == 0 <==> ops == []
  {
    if ops != [] {
      assert ops[0].Target() in Names(ops);
    }
  }

  /* ---------- the synchronous stretches ---------- */

  /** `this.activeFlushPromise = this.executeFlush()`. */
  function StartFlush(cfg: Config, s: State): State
    requires Shape(s)
  {
    if Count(cfg, Pending(s)) == 0 then s.(phase := Spent)
    else s.(phase := Flushing(|s.log|), base := s.store)
  }

  /** One test of the loop in `flush()` by caller `w`, stored at index `id`. */
  function Turn(cfg: Config, s: State, id: nat): State
    requires Shape(s) && id < |s.waiters|
  {
    var w := s.waiters[id];
    if s.done >= w.target then s.(waiters := s.waiters[id := w.(status := Returned)])
    else
      var s' := if s.phase.Idle? then StartFlush(cfg, s) else s;
      s'.(waiters := s'.waiters[id := w.(status := Waiting, run := |s.verdicts|, turns := w.turns + 1)])
  }

  /** `flush()` up to its first await. */
  function BeginFlush(cfg: Config, s: State): State
    requires Shape(s)
  {
    var target := |s.log|;
    var w := Waiter(target, |s.verdicts|, 0, |s.verdicts|, Waiting);
    var s' := s.(timer := false, waiters := s.waiters + [w]);
    if Count(cfg, Pending(s)) == 0 && s.done >= target then
      if s.phase.Idle? then s'.(waiters := s.waiters + [w.(status := Returned)])
      else s'.(waiters := s.waiters + [w.(turns := 1)])
    else Turn(cfg, s', |s.waiters|)
  }

  /** `checkFlushConditions`. */
  function Check(cfg: Config, s: State): State
    requires Shape(s)
  {
    if Count(cfg, Pending(s)) >= cfg.maxBatch then BeginFlush(cfg, s) else s.(timer := true)
  }

  /** What a completed flush of `ops` leaves for key `k`. */
  function Meaning(cfg: Config, s: Store, ops: seq<Op>, k: string): Option<Rec> {
    if cfg.coalesce then FoldedAt(s, ops, k) else At(ApplyAll(s, ops), k)
  }

  function ValueAt(s: Store, k: string): Option<string> {
    if k in s then Some(s[k].value) else None
  }

  function ValueOf(r: Option<Rec>): Option<string> {
    if r.Some? then Some(r.value.value) else None
  }

  ghost predicate SameValues(a: Store, b: Store) {
    forall k :: ValueAt(a, k) == ValueAt(b, k)
  }

  /** A row written with an unchanged TTL: it is that of the last operation, but its time runs from the write. */
  ghost predicate Restarts(row: Option<Rec>, base: Option<Rec>, last: Option<Op>) {
    match last
    case None => row == base
    case Some(SetOp(i)) => exists clock :: row == Some(Restarted(i, clock))
    case Some(DelOp(_)) => row == None
  }

  /** The store holds what the flush of `ops` from `base` means; if TTLs are raw, their time runs anew. */
  ghost predicate Written(cfg: Config, base: Store, store: Store, ops: seq<Op>) {
    forall k :: && ValueAt(store, k) == ValueOf(Meaning(cfg, base, ops, k))
                && (!cfg.raw ==> At(store, k) == Meaning(cfg, base, ops, k))
                && (cfg.raw ==> Restarts(At(store, k), At(base, k), Last(ops, k)))
  }

  ghost predicate Enabled(cfg: Config, s: State, e: Event)
    requires Shape(s)
  {
    match e
    case Call(_) => true
    case TimerFires => s.timer
    case FlushCall => true
    case Wake(id) => id < |s.waiters| && s.waiters[id].status.Waiting? && s.waiters[id].run < |s.verdicts|
    case HandlerWrites(to) => s.phase.Flushing? && forall k :: k !in Names(Flight(s)) ==> At(to, k) == At(s.store, k)
    case HandlerEnds(ok) => s.phase.Flushing? && (ok ==> Written(cfg, s.base, s.store, Flight(s)))
  }

  /** The state right after a handler run has settled its batch, before the follow-up check. */
  function Settle(s: State, ok: bool): State
    requires Shape(s)
  {
    s.(done := Cut(s), phase := Idle, base := s.store,
       verdicts := s.verdicts + [ok],
       runOf := s.runOf + Repeat(Cut(s) - s.done, |s.verdicts|))
  }

  function Next(cfg: Config, s: State, e: Event): State
    requires Shape(s)
  {
    match e
    case Call(op) =>
      var s' := s.(log := s.log + [op]);
      Check(cfg, s')
    case TimerFires => BeginFlush(cfg, s)
    case FlushCall => BeginFlush(cfg, s)
    case Wake(id) =>
      if id >= |s.waiters| then s
      else
        var w := s.waiters[id];
        if w.run < |s.verdicts| && !s.verdicts[w.run] then
          s.(waiters := s.waiters[id := w.(status := Thrown)])
        else Turn(cfg, s, id)
    case HandlerWrites(to) => s.(store := to)
    case HandlerEnds(ok) =>
      var s' := Settle(s, ok);
      if Count(cfg, Pending(s')) > 0 then Check(cfg, s') else s'
  }

  function Start(store: Store): State {
    State(store, [], 0, Idle, false, store, store, [], [], [])
  }

  /* ---------- how the stretches of the log move ---------- */

  lemma LogViews(s: State, op: Op)
    requires Shape(s)
    ensures var t := s.(log := s.log + [op]);
            Shape(t) && Cut(t) == Cut(s) && Flight(t) == Flight(s) && Pending(t) == Pending(s) + [op]
  {
  }

  lemma StoreViews(s: State, to: Store)
    requires Shape(s)
    ensures var t := s.(store := to);
            Shape(t) && Cut(t) == Cut(s) && Flight(t) == Flight(s) && Pending(t) == Pending(s)
  {
  }

  lemma SpentViews(s: State)
    requires Shape(s) && !s.phase.Flushing?
    ensures var t := s.(phase := Spent);
            Shape(t) && Cut(t) == Cut(s) && Flight(t) == Flight(s) && Pending(t) == Pending(s)
  {
  }

  lemma StartViews(s: State)
    requires Shape(s) && !s.phase.Flushing?
    ensures var t := s.(phase := Flushing(|s.log|), base := s.store);
            Shape(t) && Cut(t) == Cut(s) + |Pending(s)| && Flight(t) == Pending(s) && Pending(t) == []
  {
  }

  lemma SettleViews(s: State, ok: bool)
    requires Shape(s)
    ensures var t := Settle(s, ok);
            Shape(t) && Cut(t) == Cut(s) && Flight(t) == [] && Pending(t) == Pending(s)
            && t.done == s.done + |Flight(s)|
  {
  }

  /* ---------- the invariant ---------- */

  predicate WaiterOk(s: State, w: Waiter) {
    && w.target <= |s.log|
    && w.since <= |s.verdicts|
    && w.turns <= 2
    && (s.done < w.target ==>
          && |s.verdicts| <= w.since + 1
          && (|s.verdicts| == w.since + 1 && s.phase.Flushing? ==> w.target <= s.phase.until))
    && (w.status.Returned? ==> w.target <= s.done)
    && (w.status.Waiting? ==>
          && 1 <= w.turns
          && w.run + 1 == w.since + w.turns
          && w.run <= |s.verdicts|
          && (w.run == |s.verdicts| ==> s.phase.Flushing?))
  }

  /** The part of the invariant that speaks of sequence numbers, timer and waiting callers. */
  predicate Progress(s: State) {
    && !s.phase.Spent?
    && Shape(s)
    && (s.phase.Flushing? ==> s.done < s.phase.until)
    && (Pending(s) != [] ==> s.timer || s.phase.Flushing?)
    && |s.runOf| == s.done
    && (forall i :: 0 <= i < s.done ==> s.runOf[i] < |s.verdicts|)
    && (forall w :: w in s.waiters ==> WaiterOk(s, w))
  }

  /** The part that speaks of the store. */
  ghost predicate Coherent(s: State)
    requires Shape(s)
  {
    && (s.phase.Idle? ==> s.base == s.store)
    && (forall k :: k !in Names(Flight(s)) ==> At(s.store, k) == At(s.base, k))
    && ((forall v :: v in s.verdicts ==> v) ==> SameValues(s.base, ApplyAll(s.init, s.log[..s.done])))
  }

  ghost predicate Inv(s: State) {
    Progress(s) && Coherent(s)
  }

  /** A caller about to test the loop condition: it is finished, or it has taken at most one turn and
      any flush now running reaches its target. */
  predicate Resumable(s: State, w: Waiter) {
    && w.target <= |s.log| && w.since <= |s.verdicts| && w.turns <= 2
    && (s.done < w.target ==>
          && w.turns <= 1
          && w.since + w.turns == |s.verdicts|
          && (w.turns == 1 && s.phase.Flushing? ==> w.target <= s.phase.until))
  }

  lemma TurnKeepsProgress(cfg: Config, s: State, id: nat)
    requires id < |s.waiters| && Shape(s)
    requires !s.phase.Spent? && (s.phase.Flushing? ==> s.done < s.phase.until)
    requires Pending(s) != [] ==> s.timer || s.phase.Flushing? || s.done < s.waiters[id].target
    requires |s.runOf| == s.done && forall i :: 0 <= i < s.done ==> s.runOf[i] < |s.verdicts|
    requires forall i :: 0 <= i < |s.waiters| && i != id ==> WaiterOk(s, s.waiters[i])
    requires Resumable(s, s.waiters[id])
    ensures Progress(Turn(cfg, s, id))
    ensures Turn(cfg, s, id).waiters[id].status.Returned? || Turn(cfg, s, id).waiters[id].status.Waiting?
  {
    CountZero(cfg, Pending(s));
    var t := Turn(cfg, s, id);
    forall w | w in t.waiters
      ensures WaiterOk(t, w)
    {
      var i :| 0 <= i < |t.waiters| && t.waiters[i] == w;
      if i != id {
        assert WaiterOk(s, s.waiters[i]);
      }
    }
  }

  lemma BeginKeepsProgress(cfg: Config, s: State)
    requires Shape(s)
    requires !s.phase.Spent? && (s.phase.Flushing? ==> s.done < s.phase.until)
    requires |s.runOf| == s.done && forall i :: 0 <= i < s.done ==> s.runOf[i] < |s.verdicts|
    requires forall w :: w in s.waiters ==> WaiterOk(s, w)
    ensures Progress(BeginFlush(cfg, s))
  {
    CountZero(cfg, Pending(s));
    var w := Waiter(|s.log|, |s.verdicts|, 0, |s.verdicts|, Waiting);
    var s' := s.(timer := false, waiters := s.waiters + [w]);
    if Count(cfg, Pending(s)) == 0 && s.done >= |s.log| {
      var t := BeginFlush(cfg, s);
      forall x | x in t.waiters
        ensures WaiterOk(t, x)
      {
        if x in s.waiters {
          assert WaiterOk(s, x);
        }
      }
    } else {
      forall i | 0 <= i < |s.waiters|
        ensures WaiterOk(s', s'.waiters[i])
      {
        assert WaiterOk(s, s.waiters[i]);
      }
      TurnKeepsProgress(cfg, s', |s.waiters|);
    }
  }

  lemma CheckKeepsProgress(cfg: Config, s: State)
    requires Shape(s)
    requires !s.phase.Spent? && (s.phase.Flushing? ==> s.done < s.phase.until)
    requires |s.runOf| == s.done && forall i :: 0 <= i < s.done ==> s.runOf[i] < |s.verdicts|
    requires forall w :: w in s.waiters ==> WaiterOk(s, w)
    ensures Progress(Check(cfg, s))
  {
    if Count(cfg, Pending(s)) >= cfg.maxBatch {
      BeginKeepsProgress(cfg, s);
    } else {
      var t := Check(cfg, s);
      forall w | w in t.waiters
        ensures WaiterOk(t, w)
      {
        assert WaiterOk(s, w);
      }
    }
  }

  lemma CallKeepsProgress(cfg: Config, s: State, op: Op)
    requires Progress(s)
    ensures Progress(Next(cfg, s, Call(op)))
  {
    var s' := s.(log := s.log + [op]);
    forall w | w in s'.waiters
      ensures WaiterOk(s', w)
    {
      assert WaiterOk(s, w);
    }
    CheckKeepsProgress(cfg, s');
  }

  lemma WakeKeepsProgress(cfg: Config, s: State, id: nat)
    requires Progress(s) && id < |s.waiters| && s.waiters[id].status.Waiting? && s.waiters[id].run < |s.verdicts|
    ensures Progress(Next(cfg, s, Wake(id)))
  {
    assert WaiterOk(s, s.waiters[id]);
    if s.verdicts[s.waiters[id].run] {
      TurnKeepsProgress(cfg, s, id);
    } else {
      var t := Next(cfg, s, Wake(id));
      forall w | w in t.waiters
        ensures WaiterOk(t, w)
      {
        if w in s.waiters {
          assert WaiterOk(s, w);
        }
      }
    }
  }

  lemma EndKeepsProgress(cfg: Config, s: State, ok: bool)
    requires Progress(s) && s.phase.Flushing?
    ensures Progress(Next(cfg, s, HandlerEnds(ok)))
  {
    var s' := Settle(s, ok);
    forall w | w in s'.waiters
      ensures WaiterOk(s', w)
    {
      assert WaiterOk(s, w);
    }
    CountZero(cfg, Pending(s'));
    if Count(cfg, Pending(s')) > 0 {
      CheckKeepsProgress(cfg, s');
    }
  }

  /** Every event keeps the progress invariant. */
  lemma StepKeepsProgress(cfg: Config, s: State, e: Event)
    requires Progress(s) && Enabled(cfg, s, e)
    ensures Progress(Next(cfg, s, e))
  {
    match e
    case Call(op) => CallKeepsProgress(cfg, s, op);
    case TimerFires => BeginKeepsProgress(cfg, s);
    case FlushCall => BeginKeepsProgress(cfg, s);
    case Wake(id) => WakeKeepsProgress(cfg, s, id);
    case HandlerEnds(ok) => EndKeepsProgress(cfg, s, ok);
    case HandlerWrites(to) =>
      forall w | w in s.waiters
        ensures WaiterOk(s.(store := to), w)
      {
        assert WaiterOk(s, w);
      }
  }
}
