/** The batcher itself: its fields, updated in place, against the log machine of `FlushMachine`. */
module WriteBehind {
  import opened Basics
  import opened Keys
  import opened Window
  import opened Snapshot
  import opened Folding
  import opened Settling
  import opened FlushMachine
  import FlushRuns
  import opened Holding

  /** `activeFlushPromise`: undefined, pending, or a promise that settled before it was stored. */
  datatype Active = Unset | Running(frame: Frame) | AlreadySettled

  class WriteBatcher {
    const maxBatchSize: nat
    const coalesceEnabled: bool
    /** Whether the flush handler writes to a schema table. */
    const schemaTable: bool

    var pendingMap: map<string, Entry>
    var pendingKeys: seq<string>
    var pendingList: seq<Entry>
    var inFlightSnapshot: Option<map<string, Entry>>
    var currentSeq: nat
    var completedSeq: nat
    var timer: bool
    var active: Active
    /** Callers of `flush()` and the outcomes of the promises they await. */
    var waiters: seq<Waiter>
    var outcomes: seq<bool>
    /** Every call of a stored resolve or reject callback. */
    var settled: seq<Settlement>
    /** The rows behind the flush handler. */
    var driver: Store

    /** The log-machine state these fields stand for, and the events that led to it. */
    ghost var st: State
    ghost var run: FlushRuns.Run
    ghost const initial: Store

    ghost function Cfg(): Config {
      Config(coalesceEnabled, maxBatchSize, !coalesceEnabled && schemaTable)
    }

    ghost predicate CountersMatch()
      reads this
    {
      && currentSeq == |st.log| && completedSeq == st.done
      && timer == st.timer && driver == st.store
      && waiters == st.waiters && outcomes == st.verdicts
      && (active.Unset? <==> st.phase.Idle?)
      && (active.Running? <==> st.phase.Flushing?)
    }

    ghost predicate FlightMatches()
      reads this
      requires Shape(st)
    {
      match active
      case Running(frame) =>
        && FrameHolds(Cfg(), frame, Flight(st), st.done, st.base, st.store)
        && inFlightSnapshot == Some(ByName(frame.snapshot))
      case _ =>
        inFlightSnapshot == None
    }

    ghost predicate Matches()
      reads this
    {
      && Shape(st)
      && CountersMatch()
      && PendingHolds(coalesceEnabled, pendingMap, pendingKeys, pendingList, Pending(st), Cut(st))
      && FlightMatches()
      && SettledOnce(settled, st.done, st.runOf, st.verdicts)
    }

    /** The fields stand for a state that a run of the log machine reaches; `FlushRuns` says what
        holds of every such state. */
    ghost predicate Valid()
      reads this
    {
      Matches() && FlushRuns.Reaches(Cfg(), initial, run, st)
    }

    /** This call was event `e` of the machine. */
    twostate predicate Was(e: Event)
      reads this
    {
      Shape(old(st)) && Enabled(Cfg(), old(st), e) && st == Next(Cfg(), old(st), e) && run == FlushRuns.Then(old(run), e)
    }

    constructor (maxBatchSize: int, coalesce: bool, schemaTable: bool, store: Store)
      ensures Valid() && st == Start(store) && run == FlushRuns.Fresh
      ensures this.maxBatchSize >= 1 && coalesceEnabled == coalesce && this.schemaTable == schemaTable
    {
      this.maxBatchSize := if maxBatchSize >= 1 then maxBatchSize else 1;
      coalesceEnabled, this.schemaTable := coalesce, schemaTable;
      pendingMap, pendingKeys, pendingList, inFlightSnapshot := map[], [], [], None;
      currentSeq, completedSeq, timer, active := 0, 0, false, Unset;
      waiters, outcomes, settled, driver := [], [], [], store;
      st, run, initial := Start(store), FlushRuns.Fresh, store;
    }

    /** Add event `e`, which led from `before` here, to the history. */
    ghost method Record(before: State, e: Event)
      requires Matches() && Shape(before) && Enabled(Cfg(), before, e) && st == Next(Cfg(), before, e)
      requires FlushRuns.Reaches(Cfg(), initial, run, before)
      modifies this`run
      ensures run == FlushRuns.Then(old(run), e)
      ensures Valid()
    {
      FlushRuns.Extend(Cfg(), initial, run, before, e);
      run := FlushRuns.Then(run, e);
    }

    /** `pendingCount`: keys when coalescing, operations otherwise. */
    method PendingCount(ghost ops: seq<Op>, ghost first: nat) returns (n: nat)
      requires PendingHolds(coalesceEnabled, pendingMap, pendingKeys, pendingList, ops, first)
      ensures n == Count(Cfg(), ops)
    {
      PendingCounts(Cfg(), pendingMap, pendingKeys, pendingList, ops, first);
      n := if coalesceEnabled then |pendingKeys| else |pendingList|;
    }

    /* ---------- enqueueing ---------- */

    /** `enqueue` from the point where it has room: the caller gets promise number `id`. */
    method Enqueue(item: Item) returns (id: nat)
      requires Valid()
      modifies this
      ensures Valid() && Was(Call(SetOp(item)))
      ensures id == |old(st.log)|
    {
      id := currentSeq;
      BufferSet(item, id, Pending(st), Cut(st));
      Log(SetOp(item));
      CheckFlushConditions();
      Record(old(st), Call(SetOp(item)));
    }

    /** `enqueueDelete`, likewise. */
    method EnqueueDelete(key: Key) returns (id: nat)
      requires Valid()
      modifies this
      ensures Valid() && Was(Call(DelOp(key)))
      ensures id == |old(st.log)|
    {
      id := currentSeq;
      BufferDelete(key, id, Pending(st), Cut(st));
      Log(DelOp(key));
      CheckFlushConditions();
      Record(old(st), Call(DelOp(key)));
    }

    /** The part of `enqueue` that merges the item into the buffer. */
    method BufferSet(item: Item, id: nat, ghost ops: seq<Op>, ghost first: nat)
      requires PendingHolds(coalesceEnabled, pendingMap, pendingKeys, pendingList, ops, first)
      requires id == first + |ops|
      modifies this`pendingMap, this`pendingKeys, this`pendingList
      ensures PendingHolds(coalesceEnabled, pendingMap, pendingKeys, pendingList, ops + [SetOp(item)], first)
    {
      var clean := Clean(item);
      if coalesceEnabled {
        SetEntryFolds(pendingMap, pendingKeys, ops, first, item);
        var strKey := Name(clean.key);
        var entry := if strKey in pendingMap then MergeSet(pendingMap[strKey], clean, id) else NewSet(clean, id);
        PutHolds(pendingMap, pendingKeys, ops, first, SetOp(item), entry);
        pendingKeys := if strKey in pendingMap then pendingKeys else pendingKeys + [strKey];
        pendingMap := pendingMap[strKey := entry];
      } else {
        AppendListed(pendingList, ops, first, SetOp(item), NewSet(clean, id));
        pendingList := pendingList + [NewSet(clean, id)];
      }
    }

    /** The part of `enqueueDelete` that merges the delete into the buffer. */
    method BufferDelete(key: Key, id: nat, ghost ops: seq<Op>, ghost first: nat)
      requires PendingHolds(coalesceEnabled, pendingMap, pendingKeys, pendingList, ops, first)
      requires id == first + |ops|
      modifies this`pendingMap, this`pendingKeys, this`pendingList
      ensures PendingHolds(coalesceEnabled, pendingMap, pendingKeys, pendingList, ops + [DelOp(key)], first)
    {
      if coalesceEnabled {
        DeleteEntryFolds(pendingMap, pendingKeys, ops, first, key);
        var strKey := Name(key);
        var entry := if strKey in pendingMap then MergeDelete(pendingMap[strKey], id) else NewDelete(key, id);
        PutHolds(pendingMap, pendingKeys, ops, first, DelOp(key), entry);
        pendingKeys := if strKey in pendingMap then pendingKeys else pendingKeys + [strKey];
        pendingMap := pendingMap[strKey := entry];
      } else {
        AppendListed(pendingList, ops, first, DelOp(key), NewDelete(key, id));
        pendingList := pendingList + [NewDelete(key, id)];
      }
    }

    /** `this.currentSeq++`, once the buffer holds the operation. */
    method Log(op: Op)
      requires Shape(st) && CountersMatch() && FlightMatches()
      requires PendingHolds(coalesceEnabled, pendingMap, pendingKeys, pendingList, Pending(st) + [op], Cut(st))
      requires SettledOnce(settled, st.done, st.runOf, st.verdicts)
      modifies this`st, this`currentSeq
      ensures st == old(st).(log := old(st).log + [op])
      ensures Matches()
    {
      LogViews(st, op);
      currentSeq := currentSeq + 1;
      st := st.(log := st.log + [op]);
    }

    /** `checkFlushConditions`. */
    method CheckFlushConditions()
      requires Matches()
      modifies this`pendingMap, this`pendingKeys, this`pendingList, this`inFlightSnapshot, this`timer, this`active, this`waiters, this`st
      ensures Matches() && st == Check(Cfg(), old(st))
    {
      var count := PendingCount(Pending(st), Cut(st));
      if count >= maxBatchSize {
        BeginFlushCall();
      } else if !timer {
        timer := true;
        st := st.(timer := true);
      }
    }

    /* ---------- flushing ---------- */

    /** The timer callback. */
    method TimerFired()
      requires Valid() && timer
      modifies this
      ensures Valid() && Was(TimerFires)
    {
      BeginFlushCall();
      Record(old(st), TimerFires);
    }

    /** A caller's `flush()`, up to its first await. */
    method Flush()
      requires Valid()
      modifies this
      ensures Valid() && Was(FlushCall)
    {
      BeginFlushCall();
      Record(old(st), FlushCall);
    }

    method BeginFlushCall()
      requires Matches()
      modifies this`pendingMap, this`pendingKeys, this`pendingList, this`inFlightSnapshot, this`timer, this`active, this`waiters, this`st
      ensures Matches() && st == BeginFlush(Cfg(), old(st))
    {
      var targetSeq := currentSeq;
      var me := Waiter(targetSeq, |outcomes|, 0, |outcomes|, Waiting);
      var count := PendingCount(Pending(st), Cut(st));
      if count == 0 && completedSeq >= targetSeq {
        Join(if active.Unset? then me.(status := Returned) else me.(turns := 1));
      } else {
        Join(me);
        LoopTurn(|waiters| - 1);
      }
    }

    /** Clear the timer and enter a `flush()` call among the waiting callers. */
    method Join(me: Waiter)
      requires Matches()
      modifies this`timer, this`waiters, this`st
      ensures Matches()
      ensures st == old(st).(timer := false, waiters := old(st).waiters + [me]) && waiters == old(waiters) + [me]
    {
      timer := false;
      waiters := waiters + [me];
      st := st.(timer := false, waiters := waiters);
    }

    /** One test of the loop in `flush()` by waiter `id`. */
    method LoopTurn(id: nat)
      requires Matches() && id < |waiters|
      modifies this`pendingMap, this`pendingKeys, this`pendingList, this`inFlightSnapshot, this`timer, this`active, this`waiters, this`st
      ensures Matches() && st == Turn(Cfg(), old(st), id)
    {
      var me := waiters[id];
      if completedSeq < me.target {
        if active.Unset? {
          ExecuteFlush();
        }
        me := me.(status := Waiting, run := |outcomes|, turns := me.turns + 1);
      } else {
        me := me.(status := Returned);
      }
      Update(id, me);
    }

    method Update(id: nat, me: Waiter)
      requires Matches() && id < |waiters|
      modifies this`waiters, this`st
      ensures Matches() && st == old(st).(waiters := old(st).waiters[id := me])
    {
      waiters := waiters[id := me];
      st := st.(waiters := waiters);
    }

    /** A caller whose awaited flush has settled goes on. */
    method WakeWaiter(id: nat)
      requires Valid() && id < |waiters| && waiters[id].status.Waiting? && waiters[id].run < |outcomes|
      modifies this
      ensures Valid() && Was(Wake(id))
    {
      if outcomes[waiters[id].run] {
        LoopTurn(id);
      } else {
        Update(id, waiters[id].(status := Thrown));
      }
      Record(old(st), Wake(id));
    }

    /** `executeFlush` up to the call of the handler. */
    method ExecuteFlush()
      requires Matches() && active.Unset?
      modifies this`pendingMap, this`pendingKeys, this`pendingList, this`inFlightSnapshot, this`timer, this`active, this`waiters, this`st
      ensures Matches() && st == StartFlush(Cfg(), old(st))
      ensures waiters == old(waiters)
    {
      var count := PendingCount(Pending(st), Cut(st));
      if count == 0 {
        StoreSettledPromise();
      } else {
        StartHandler();
      }
    }

    /** With something pending, the handler is called and the promise stays open. */
    method StartHandler()
      requires Matches() && active.Unset?
      modifies this`pendingMap, this`pendingKeys, this`pendingList, this`inFlightSnapshot, this`active, this`st
      ensures Matches() && st == old(st).(phase := Flushing(|old(st).log|), base := old(st).store)
    {
      var frame := BuildFrame(Pending(st), Cut(st), st.store);
      StartViews(st);
      Install(frame);
    }

    /** With nothing pending, `executeFlush` has returned before its promise is stored. */
    method StoreSettledPromise()
      requires Matches() && active.Unset?
      modifies this`active, this`st
      ensures Matches() && st == old(st).(phase := Spent)
    {
      SpentViews(st);
      active := AlreadySettled;
      st := st.(phase := Spent);
    }

    /** Enter the new flush as the active one. */
    method Install(frame: Frame)
      requires Shape(st) && CountersMatch() && active.Unset?
      requires SettledOnce(settled, st.done, st.runOf, st.verdicts)
      requires var t := st.(phase := Flushing(|st.log|), base := st.store);
               && Shape(t)
               && PendingHolds(coalesceEnabled, pendingMap, pendingKeys, pendingList, Pending(t), Cut(t))
               && FrameHolds(Cfg(), frame, Flight(t), t.done, t.base, t.store)
      modifies this`inFlightSnapshot, this`active, this`st
      ensures Matches() && st == old(st).(phase := Flushing(|old(st).log|), base := old(st).store)
    {
      var inFlightMap := BuildInFlight(frame.snapshot);
      inFlightSnapshot := Some(inFlightMap);
      active := Running(frame);
      st := st.(phase := Flushing(|st.log|), base := st.store);
    }

    /** Snapshot the buffer and lay out the payload. */
    method BuildFrame(ghost ops: seq<Op>, ghost first: nat, ghost store: Store) returns (frame: Frame)
      requires PendingHolds(coalesceEnabled, pendingMap, pendingKeys, pendingList, ops, first)
      requires currentSeq == first + |ops|
      modifies this`pendingMap, this`pendingKeys, this`pendingList
      ensures PendingHolds(coalesceEnabled, pendingMap, pendingKeys, pendingList, [], first + |ops|)
      ensures FrameHolds(Cfg(), frame, ops, first, store, store)
    {
      var snapshot := TakeSnapshot(ops, first);
      var sets, deletes := SplitPayload(snapshot);
      StartFrame(Cfg(), snapshot, ops, first, store);
      frame := Frame(currentSeq, snapshot, sets, deletes, None, 0, {});
    }

    /** Empty the buffer into a snapshot, sorted by key when coalescing. */
    method TakeSnapshot(ghost ops: seq<Op>, ghost first: nat) returns (snapshot: seq<Entry>)
      requires PendingHolds(coalesceEnabled, pendingMap, pendingKeys, pendingList, ops, first)
      modifies this`pendingMap, this`pendingKeys, this`pendingList
      ensures PendingHolds(coalesceEnabled, pendingMap, pendingKeys, pendingList, [], first + |ops|)
      ensures Holds(coalesceEnabled, snapshot, ops, first)
      ensures coalesceEnabled ==> snapshot == Sorted(old(Values(pendingMap, pendingKeys)))
    {
      SnapshotHolds(coalesceEnabled, pendingMap, pendingKeys, pendingList, ops, first);
      EmptyHolds(coalesceEnabled, first + |ops|);
      if coalesceEnabled {
        snapshot := Sorted(Values(pendingMap, pendingKeys));
        pendingMap, pendingKeys := map[], [];
      } else {
        snapshot := pendingList;
        pendingList := [];
      }
    }

    /** The loop that fills the in-flight map. */
    static method BuildInFlight(snapshot: seq<Entry>) returns (m: map<string, Entry>)
      ensures m == ByName(snapshot)
    {
      m := map[];
      var i := 0;
      while i < |snapshot|
        invariant 0 <= i <= |snapshot|
        invariant m == ByName(snapshot[..i])
      {
        assert snapshot[..i + 1][..i] == snapshot[..i];
        m := m[Name(snapshot[i].key) := snapshot[i]];
        i := i + 1;
      }
      assert snapshot[..i] == snapshot;
    }

    /** The loop that splits the snapshot into sets and deletes. */
    static method SplitPayload(snapshot: seq<Entry>) returns (sets: seq<Entry>, deletes: seq<Entry>)
      ensures sets == OfKind(snapshot, Set) && deletes == OfKind(snapshot, Delete)
    {
      sets, deletes := [], [];
      var i := 0;
      while i < |snapshot|
        invariant 0 <= i <= |snapshot|
        invariant sets == OfKind(snapshot[..i], Set) && deletes == OfKind(snapshot[..i], Delete)
      {
        assert snapshot[..i + 1][..i] == snapshot[..i];
        if snapshot[i].kind.Set? {
          sets := sets + [snapshot[i]];
        } else {
          deletes := deletes + [snapshot[i]];
        }
        i := i + 1;
      }
      assert snapshot[..i] == snapshot;
    }

    /* ---------- the handler ---------- */

    /** The handler reads the clock and lays out its writes. */
    method HandlerStarts(now: int)
      requires Valid() && active.Running? && active.frame.layout.None?
      modifies this`active
      ensures Valid() && active.Running?
      ensures active.frame == old(active.frame).(layout :=
                Some(Layout(now, Plan(old(active.frame.snapshot), !coalesceEnabled, now, Cfg().raw))))
    {
      var f := active.frame;
      var writes :=
        if coalesceEnabled then WritesOf(f.sets, now, false) + WritesOf(f.deletes, now, false)
        else WritesOf(f.snapshot, now, schemaTable);
      active := Running(f.(layout := Some(Layout(now, writes))));
    }

    /** The driver carries out the next `n` writes as one statement or transaction. */
    method HandlerWritesSome(n: nat)
      requires Valid() && active.Running?
      requires active.frame.layout.Some? && active.frame.written + n <= |active.frame.layout.value.writes|
      modifies this`active, this`driver, this`st, this`run
      ensures Valid() && Was(HandlerWrites(driver))
      ensures active.Running? && active.frame.layout == old(active.frame.layout)
      ensures active.frame.written == old(active.frame.written) + n
    {
      var f := active.frame;
      FurtherFrame(Cfg(), f, Flight(st), st.done, st.base, st.store, n, {});
      var to, deletedKeys := RunWrites(driver, f, n, st.base);
      FurtherFrame(Cfg(), f, Flight(st), st.done, st.base, st.store, n, deletedKeys);
      MayWrite(Cfg(), f, st, n);
      Advance(f.(written := f.written + n, deletedKeys := deletedKeys), to);
      Record(old(st), HandlerWrites(to));
    }

    /** Note the handler's progress. */
    method Advance(frame: Frame, to: Store)
      requires Matches() && active.Running? && frame.snapshot == active.frame.snapshot
      requires FrameHolds(Cfg(), frame, Flight(st), st.done, st.base, to)
      modifies this`active, this`driver, this`st
      ensures Matches() && st == old(st).(store := to) && active == Running(frame) && driver == to
    {
      StoreViews(st, to);
      active := Running(frame);
      driver := to;
      st := st.(store := to);
      assert CountersMatch();
      assert FlightMatches();
    }

    /** The loops over the entries to set and the keys to delete. */
    static method RunWrites(store: Store, f: Frame, n: nat, ghost base: Store) returns (s: Store, deletedKeys: set<Key>)
      requires f.layout.Some? && f.written + n <= |f.layout.value.writes|
      requires store == ApplyWrites(base, f.layout.value.writes[..f.written])
      ensures s == ApplyWrites(base, f.layout.value.writes[..f.written + n])
    {
      s, deletedKeys := store, f.deletedKeys;
      var ws, i := f.layout.value.writes, f.written;
      while i < f.written + n
        invariant f.written <= i <= f.written + n
        invariant s == ApplyWrites(base, ws[..i])
      {
        assert ws[..i + 1][..i] == ws[..i];
        if ws[i].Remove? && ws[i].name in s {
          deletedKeys := deletedKeys + set e | e in f.deletes && Name(e.key) == ws[i].name :: e.key;
        }
        s := ApplyWrite(s, ws[i]);
        i := i + 1;
      }
    }

    /** The handler ends: normally once everything is written, or with an error at any point. Every
        caller of the batch is settled, and leftover work gets a timer or a new flush. */
    method HandlerEnds(ok: bool)
      requires Valid() && active.Running? && (ok ==> Complete(active.frame))
      modifies this
      ensures Valid() && Was(FlushMachine.HandlerEnds(ok))
      ensures settled == old(settled) + SettleAll(old(active.frame.snapshot), ok, old(active.frame.deletedKeys))
    {
      if ok {
        CompleteMayEnd(Cfg(), active.frame, st);
      }
      Finish(ok);
      LookAgain();
      Record(old(st), FlushMachine.HandlerEnds(ok));
    }

    /** The check after a handler run: leftover work is not left without a timer or a flush. */
    method LookAgain()
      requires Matches()
      modifies this`pendingMap, this`pendingKeys, this`pendingList, this`inFlightSnapshot, this`timer, this`active, this`waiters, this`st
      ensures Matches()
      ensures st == if Count(Cfg(), Pending(old(st))) > 0 then Check(Cfg(), old(st)) else old(st)
    {
      var count := PendingCount(Pending(st), Cut(st));
      if count > 0 {
        CheckFlushConditions();
      }
    }

    /** Settle the batch and clear the in-flight state. */
    method Finish(ok: bool)
      requires Matches() && active.Running?
      modifies this`settled, this`completedSeq, this`inFlightSnapshot, this`active, this`outcomes, this`st
      ensures Matches() && st == Settle(old(st), ok)
      ensures settled == old(settled) + SettleAll(old(active.frame.snapshot), ok, old(active.frame.deletedKeys))
    {
      var f := active.frame;
      SettleFrame(Cfg(), f, st, settled, ok);
      var told := TellCallers(f.snapshot, ok, f.deletedKeys);
      settled := settled + told;
      Clear(f.batchSeq, ok);
    }

    /** The assignments that end `executeFlush`. */
    method Clear(batchSeq: nat, ok: bool)
      requires Shape(st) && CountersMatch() && batchSeq == Cut(st)
      requires PendingHolds(coalesceEnabled, pendingMap, pendingKeys, pendingList, Pending(st), Cut(st))
      requires var t := Settle(st, ok); SettledOnce(settled, t.done, t.runOf, t.verdicts)
      modifies this`completedSeq, this`inFlightSnapshot, this`active, this`outcomes, this`st
      ensures Matches() && st == Settle(old(st), ok)
    {
      SettleViews(st, ok);
      completedSeq := batchSeq;
      inFlightSnapshot := None;
      active := Unset;
      outcomes := outcomes + [ok];
      st := Settle(st, ok);
    }

    /** The settling loops over the snapshot. */
    static method TellCallers(snapshot: seq<Entry>, ok: bool, deletedKeys: set<Key>) returns (told: seq<Settlement>)
      ensures told == SettleAll(snapshot, ok, deletedKeys)
    {
      told := [];
      var i := 0;
      while i < |snapshot|
        invariant 0 <= i <= |snapshot|
        invariant told == SettleAll(snapshot[..i], ok, deletedKeys)
      {
        assert snapshot[..i + 1][..i] == snapshot[..i];
        told := told + SettleEntry(snapshot[i], ok, deletedKeys);
        i := i + 1;
      }
      assert snapshot[..i] == snapshot;
    }

    /* ---------- reading ---------- */

    /** `getPending`: a map lookup, or the latest list entry of that name. */
    method GetPending(key: Key, ghost ops: seq<Op>, ghost first: nat) returns (r: Option<Entry>)
      requires PendingHolds(coalesceEnabled, pendingMap, pendingKeys, pendingList, ops, first)
      ensures r.Some? <==> Name(key) in Names(ops)
      ensures r.Some? ==> Answers(Cfg(), r.value, ops, first, Name(key))
    {
      var strKey := Name(key);
      if coalesceEnabled {
        HeldEntry(pendingMap, pendingKeys, ops, first, strKey);
        r := if strKey in pendingMap then Some(pendingMap[strKey]) else None;
      } else {
        LastIffNamed(ops, strKey);
        r := ScanBack(pendingList, strKey, ops, first);
      }
    }

    static method ScanBack(list: seq<Entry>, strKey: string, ghost ops: seq<Op>, ghost first: nat) returns (r: Option<Entry>)
      requires ListsAll(list, ops, first)
      ensures r.Some? <==> Last(ops, strKey).Some?
      ensures r.Some? ==> exists id :: Single(r.value, Last(ops, strKey).value, id)
    {
      var i := |list|;
      assert ops[..i] == ops;
      while i > 0
        invariant 0 <= i <= |list|
        invariant Last(ops, strKey) == Last(ops[..i], strKey)
      {
        i := i - 1;
        ScanStep(list, ops, first, i, strKey);
        if Name(list[i].key) == strKey {
          return Some(list[i]);
        }
      }
      return None;
    }

    /** `getInFlight`. */
    method GetInFlight(key: Key) returns (r: Option<Entry>)
      requires Matches()
      ensures r.Some? <==> Name(key) in Names(Flight(st))
      ensures r.Some? ==> Answers(Cfg(), r.value, Flight(st), st.done, Name(key))
    {
      if active.Running? {
        InFlightAnswers(Cfg(), active.frame.snapshot, Flight(st), st.done, Name(key));
      }
      if inFlightSnapshot.Some? && Name(key) in inFlightSnapshot.value {
        return Some(inFlightSnapshot.value[Name(key)]);
      }
      return None;
    }

    /** `Table.get` without a point cache: pending, then in flight, then the driver. It returns what
        the plain store would, whatever the flush is doing, unless an inherited TTL has run out. */
    method Read(key: Key, now: int) returns (v: Option<string>)
      requires Valid()
      ensures v == FlushRuns.Visible(Cfg(), st, Name(key), now)
      ensures v == Live(At(ApplyAll(st.base, Flight(st) + Pending(st)), Name(key)), now)
         <==> !FlushRuns.StaleTtl(Cfg(), st, Name(key), now)
    {
      FlushRuns.ReadYourWrites(Cfg(), initial, run, st, Name(key), now);
      v := Overlay(key, now);
    }

    method Overlay(key: Key, now: int) returns (v: Option<string>)
      requires Matches()
      ensures v == FlushRuns.Visible(Cfg(), st, Name(key), now)
    {
      var pending := GetPending(key, Pending(st), Cut(st));
      if pending.Some? {
        ReadAnswers(Cfg(), pending.value, Pending(st), Cut(st), Name(key), now);
        return ReadEntry(pending.value, now);
      }
      var inFlight := GetInFlight(key);
      if inFlight.Some? {
        ReadAnswers(Cfg(), inFlight.value, Flight(st), st.done, Name(key), now);
        return ReadEntry(inFlight.value, now);
      }
      return Live(At(driver, Name(key)), now);
    }
  }
}
