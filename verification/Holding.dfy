/** The buffer in either mode, as the batcher's fields hold it, against the window it stands for. */
module Holding {
  import opened Basics
  import opened Keys
  import opened Window
  import opened Snapshot
  import opened Folding
  import opened Settling
  import opened FlushMachine

  /** The entries stand for the window: folded when coalescing, one by one otherwise. */
  predicate Holds(coalesce: bool, es: seq<Entry>, ops: seq<Op>, first: nat) {
    match coalesce
    case true => FoldsAll(es, ops, first)
    case false => ListsAll(es, ops, first)
  }

  /** A JavaScript `Map`: contents and insertion order. */
  predicate MapOk(m: map<string, Entry>, ks: seq<string>) {
    && (forall k :: k in ks ==> k in m)
    && (forall k :: k in m ==> k in ks)
    && (forall i, j :: 0 <= i < j < |ks| ==> ks[i] != ks[j])
    && (forall k :: k in m ==> Name(m[k].key) == k)
  }

  /** `Array.from(map.values())`. */
  function Values(m: map<string, Entry>, ks: seq<string>): (es: seq<Entry>)
    requires MapOk(m, ks)
    ensures |es| == |ks| && forall i :: 0 <= i < |ks| ==> es[i] == m[ks[i]]
  {
    seq(|ks|, i requires 0 <= i < |ks| => m[ks[i]])
  }

  lemma ValueNames(m: map<string, Entry>, ks: seq<string>)
    requires MapOk(m, ks)
    ensures NamesOf(Values(m, ks)) == m.Keys
  {
  }

  /** Setting an existing key changes one value in place. */
  lemma MapReplace(m: map<string, Entry>, ks: seq<string>, k: string, e: Entry)
    requires MapOk(m, ks) && k in m && Name(e.key) == k
    ensures MapOk(m[k := e], ks)
    ensures exists i :: 0 <= i < |ks| && Values(m, ks)[i] == m[k] && Values(m[k := e], ks) == Values(m, ks)[i := e]
  {
    var i :| 0 <= i < |ks| && ks[i] == k;
    assert Values(m[k := e], ks) == Values(m, ks)[i := e];
  }

  /** Setting a new key appends its value. */
  lemma MapAppend(m: map<string, Entry>, ks: seq<string>, k: string, e: Entry)
    requires MapOk(m, ks) && k !in m && Name(e.key) == k
    ensures MapOk(m[k := e], ks + [k])
    ensures Values(m[k := e], ks + [k]) == Values(m, ks) + [e]
  {
  }

  /** Buffering one operation in the map. */
  lemma PutFolds(m: map<string, Entry>, ks: seq<string>, ops: seq<Op>, first: nat, op: Op, e: Entry)
    requires MapOk(m, ks) && FoldsAll(Values(m, ks), ops, first)
    requires Folds(e, ops + [op], first, op.Target())
    ensures var ks' := if op.Target() in m then ks else ks + [op.Target()];
            MapOk(m[op.Target() := e], ks') && FoldsAll(Values(m[op.Target() := e], ks'), ops + [op], first)
  {
    ValueNames(m, ks);
    if op.Target() in m {
      MapReplace(m, ks, op.Target(), e);
      var i :| 0 <= i < |ks| && Values(m, ks)[i] == m[op.Target()]
               && Values(m[op.Target() := e], ks) == Values(m, ks)[i := e];
      ReplaceFolds(Values(m, ks), ops, first, op, i, e);
    } else {
      MapAppend(m, ks, op.Target(), e);
      AppendFolds(Values(m, ks), ops, first, op, e);
    }
  }

  /** The entry the map holds for a buffered key. */
  lemma HeldEntry(m: map<string, Entry>, ks: seq<string>, ops: seq<Op>, first: nat, k: string)
    requires MapOk(m, ks) && FoldsAll(Values(m, ks), ops, first)
    ensures k in m <==> k in Names(ops)
    ensures k in m ==> Folds(m[k], ops, first, k)
  {
  }

  /** `pendingCount` counts the window. */
  lemma HeldCount(cfg: Config, es: seq<Entry>, ops: seq<Op>, first: nat)
    requires Holds(cfg.coalesce, es, ops, first)
    ensures |es| == Count(cfg, ops)
  {
    if cfg.coalesce {
      CountFolded(es);
    }
  }

  /** The in-flight map: later entries replace earlier ones of the same name. */
  function ByName(es: seq<Entry>): map<string, Entry> {
    if es == [] then map[] else ByName(es[..|es| - 1])[Name(es[|es| - 1].key) := es[|es| - 1]]
  }

  lemma {:induction false} ByNameFolded(es: seq<Entry>)
    ensures ByName(es).Keys == NamesOf(es)
    ensures forall k :: k in ByName(es) ==> ByName(es)[k] in es && Name(ByName(es)[k].key) == k
  {
    if es != [] {
      var init, last := es[..|es| - 1], es[|es| - 1];
      ByNameFolded(init);
      assert es == init + [last];
      assert NamesOf(es) == NamesOf(init) + {Name(last.key)};
    }
  }

  lemma {:induction false} ByNameListed(es: seq<Entry>, ops: seq<Op>, first: nat, k: string)
    requires ListsAll(es, ops, first)
    ensures k in ByName(es) <==> Last(ops, k).Some?
    ensures k in ByName(es) ==> exists id :: Single(ByName(es)[k], Last(ops, k).value, id)
  {
    if es != [] {
      var n := |es| - 1;
      ByNameListed(es[..n], ops[..n], first, k);
      assert Single(es[n], ops[n], first + n);
    }
  }

  /** The batcher's pending fields stand for the window: the map when coalescing, else the list. */
  predicate PendingHolds(coalesce: bool, m: map<string, Entry>, ks: seq<string>, list: seq<Entry>, ops: seq<Op>, first: nat) {
    match coalesce
    case true => list == [] && MapOk(m, ks) && FoldsAll(Values(m, ks), ops, first)
    case false => m == map[] && ks == [] && ListsAll(list, ops, first)
  }

  lemma PendingCounts(cfg: Config, m: map<string, Entry>, ks: seq<string>, list: seq<Entry>, ops: seq<Op>, first: nat)
    requires PendingHolds(cfg.coalesce, m, ks, list, ops, first)
    ensures (if cfg.coalesce then |ks| else |list|) == Count(cfg, ops)
  {
    HeldCount(cfg, if cfg.coalesce then Values(m, ks) else list, ops, first);
  }

  lemma EmptyHolds(coalesce: bool, first: nat)
    ensures PendingHolds(coalesce, map[], [], [], [], first)
  {
  }

  /** The map after buffering operation `op` as entry `e`. */
  lemma PutHolds(m: map<string, Entry>, ks: seq<string>, ops: seq<Op>, first: nat, op: Op, e: Entry)
    requires PendingHolds(true, m, ks, [], ops, first)
    requires Folds(e, ops + [op], first, op.Target())
    ensures op.Target() in m ==> PendingHolds(true, m[op.Target() := e], ks, [], ops + [op], first)
    ensures op.Target() !in m ==> PendingHolds(true, m[op.Target() := e], ks + [op.Target()], [], ops + [op], first)
  {
    PutFolds(m, ks, ops, first, op, e);
  }

  /** The entry a set leaves in the map. */
  lemma SetEntryFolds(m: map<string, Entry>, ks: seq<string>, ops: seq<Op>, first: nat, item: Item)
    requires PendingHolds(true, m, ks, [], ops, first)
    ensures Name(item.key) in m ==>
              Folds(MergeSet(m[Name(item.key)], Clean(item), first + |ops|), ops + [SetOp(item)], first, Name(item.key))
    ensures Name(item.key) !in m ==>
              Folds(NewSet(Clean(item), first + |ops|), ops + [SetOp(item)], first, Name(item.key))
  {
    HeldEntry(m, ks, ops, first, Name(item.key));
    if Name(item.key) in m {
      MergeSetFolds(m[Name(item.key)], ops, first, item);
    } else {
      NewSetFolds(ops, first, item);
    }
  }

  /** The entry a delete leaves in the map. */
  lemma DeleteEntryFolds(m: map<string, Entry>, ks: seq<string>, ops: seq<Op>, first: nat, key: Key)
    requires PendingHolds(true, m, ks, [], ops, first)
    ensures Name(key) in m ==> Folds(MergeDelete(m[Name(key)], first + |ops|), ops + [DelOp(key)], first, Name(key))
    ensures Name(key) !in m ==> Folds(NewDelete(key, first + |ops|), ops + [DelOp(key)], first, Name(key))
  {
    HeldEntry(m, ks, ops, first, Name(key));
    if Name(key) in m {
      MergeDeleteFolds(m[Name(key)], ops, first, key);
    } else {
      NewDeleteFolds(ops, first, key);
    }
  }

  /** The list after appending the entry of one more operation. */
  lemma AppendListed(list: seq<Entry>, ops: seq<Op>, first: nat, op: Op, e: Entry)
    requires PendingHolds(false, map[], [], list, ops, first) && Single(e, op, first + |ops|)
    ensures PendingHolds(false, map[], [], list + [e], ops + [op], first)
  {
  }

  /** Emptying the buffer into a snapshot. */
  lemma SnapshotHolds(coalesce: bool, m: map<string, Entry>, ks: seq<string>, list: seq<Entry>, ops: seq<Op>, first: nat)
    requires PendingHolds(coalesce, m, ks, list, ops, first)
    ensures coalesce ==> MapOk(m, ks)
    ensures Holds(coalesce, if coalesce then Sorted(Values(m, ks)) else list, ops, first)
  {
    if coalesce {
      SortPermutes(Values(m, ks));
      ReorderFolds(Values(m, ks), Sorted(Values(m, ks)), ops, first);
    }
  }

  /** Scanning the list backwards by one. */
  lemma ScanStep(list: seq<Entry>, ops: seq<Op>, first: nat, i: nat, k: string)
    requires ListsAll(list, ops, first) && i < |list|
    ensures Last(ops[..i + 1], k) == if Name(list[i].key) == k then Some(ops[i]) else Last(ops[..i], k)
    ensures Single(list[i], ops[i], first + i)
  {
    assert ops[..i + 1][..i] == ops[..i];
    assert Single(list[i], ops[i], first + i);
  }

  /* ---------- a running flush ---------- */

  /** The flush handler's writes, laid out when it read the clock. */
  datatype Layout = Layout(clock: int, writes: seq<Write>)

  /** What a running `executeFlush` keeps across its await: its locals and the handler's progress. */
  datatype Frame = Frame(batchSeq: nat, snapshot: seq<Entry>, sets: seq<Entry>, deletes: seq<Entry>,
                         layout: Option<Layout>, written: nat, deletedKeys: set<Key>)

  /** The frame stands for the window being flushed, and the store is where the handler has got to. */
  predicate FrameHolds(cfg: Config, f: Frame, ops: seq<Op>, first: nat, base: Store, store: Store) {
    match f
    case Frame(batchSeq, snapshot, sets, deletes, layout, written, _) =>
      && batchSeq == first + |ops|
      && Holds(cfg.coalesce, snapshot, ops, first)
      && sets == OfKind(snapshot, Set) && deletes == OfKind(snapshot, Delete)
      && HandlerAt(cfg, snapshot, layout, written, base, store)
  }

  predicate HandlerAt(cfg: Config, es: seq<Entry>, layout: Option<Layout>, written: nat, base: Store, store: Store) {
    match layout
    case None => written == 0 && store == base
    case Some(l) =>
      && l.writes == Plan(es, !cfg.coalesce, l.clock, cfg.raw)
      && written <= |l.writes|
      && store == ApplyWrites(base, l.writes[..written])
  }

  /** The frame can end normally: everything is written. */
  predicate Complete(f: Frame) {
    f.layout.Some? && f.written == |f.layout.value.writes|
  }

  /** A complete frame may end normally. */
  lemma CompleteMayEnd(cfg: Config, f: Frame, s: State)
    requires Shape(s) && s.phase.Flushing?
    requires FrameHolds(cfg, f, Flight(s), s.done, s.base, s.store) && Complete(f)
    requires cfg.raw ==> !cfg.coalesce
    ensures Enabled(cfg, s, HandlerEnds(true))
  {
    var l := f.layout.value;
    assert l.writes[..f.written] == l.writes;
    PlanWrites(cfg, s.base, f.snapshot, Flight(s), s.done, l.clock);
  }

  lemma StartFrame(cfg: Config, es: seq<Entry>, ops: seq<Op>, first: nat, base: Store)
    requires Holds(cfg.coalesce, es, ops, first)
    ensures FrameHolds(cfg, Frame(first + |ops|, es, OfKind(es, Set), OfKind(es, Delete), None, 0, {}), ops, first, base, base)
  {
  }

  lemma FurtherFrame(cfg: Config, f: Frame, ops: seq<Op>, first: nat, base: Store, store: Store, n: nat, deleted: set<Key>)
    requires FrameHolds(cfg, f, ops, first, base, store)
    requires f.layout.Some? && f.written + n <= |f.layout.value.writes|
    ensures FrameHolds(cfg, f.(written := f.written + n, deletedKeys := deleted), ops, first, base,
                       ApplyWrites(base, f.layout.value.writes[..f.written + n]))
    ensures f.written <= |f.layout.value.writes| && store == ApplyWrites(base, f.layout.value.writes[..f.written])
  {
  }

  /** Carrying out more of the plan touches only keys of the window. */
  lemma MayWrite(cfg: Config, f: Frame, s: State, n: nat)
    requires Shape(s) && s.phase.Flushing?
    requires FrameHolds(cfg, f, Flight(s), s.done, s.base, s.store)
    requires f.layout.Some? && f.written + n <= |f.layout.value.writes|
    ensures Enabled(cfg, s, HandlerWrites(ApplyWrites(s.base, f.layout.value.writes[..f.written + n])))
  {
    PartialPlan(cfg, s.base, f.snapshot, Flight(s), s.done, f.layout.value.clock, f.written);
    PartialPlan(cfg, s.base, f.snapshot, Flight(s), s.done, f.layout.value.clock, f.written + n);
  }

  lemma SettleFrame(cfg: Config, f: Frame, s: State, ss: seq<Settlement>, ok: bool)
    requires Shape(s) && FrameHolds(cfg, f, Flight(s), s.done, s.base, s.store)
    requires SettledOnce(ss, s.done, s.runOf, s.verdicts)
    ensures var t := Settle(s, ok);
            SettledOnce(ss + SettleAll(f.snapshot, ok, f.deletedKeys), t.done, t.runOf, t.verdicts)
  {
    var n := |Flight(s)|;
    HeldPairs(cfg.coalesce, f.snapshot, Flight(s), s.done);
    SettleNext(ss, s.done, s.runOf, s.verdicts, f.snapshot, n, ok, f.deletedKeys);
  }

  /* ---------- reading an entry ---------- */

  /** What `Table.get` makes of a buffered entry. */
  function ReadEntry(e: Entry, now: int): Option<string> {
    if e.kind.Set? && e.item.Some? then
      if e.item.value.ttl.Some? && now - e.item.value.at >= e.item.value.ttl.value then None
      else Some(e.item.value.value)
    else None
  }

  /** The entry stands for the window on key `k`, in either mode. */
  ghost predicate Answers(cfg: Config, e: Entry, ops: seq<Op>, first: nat, k: string) {
    && k in Names(ops)
    && if cfg.coalesce then Folds(e, ops, first, k)
       else Last(ops, k).Some? && exists id :: Single(e, Last(ops, k).value, id)
  }

  lemma ReadAnswers(cfg: Config, e: Entry, ops: seq<Op>, first: nat, k: string, now: int)
    requires Answers(cfg, e, ops, first, k)
    ensures ReadEntry(e, now) == Live(Meaning(cfg, map[], ops, k), now)
  {
    FifoAt(map[], ops, k);
  }

  lemma InFlightAnswers(cfg: Config, es: seq<Entry>, ops: seq<Op>, first: nat, k: string)
    requires Holds(cfg.coalesce, es, ops, first)
    ensures k in ByName(es) <==> k in Names(ops)
    ensures k in ByName(es) ==> Answers(cfg, ByName(es)[k], ops, first, k)
  {
    LastIffNamed(ops, k);
    if cfg.coalesce {
      ByNameFolded(es);
    } else {
      ByNameListed(es, ops, first, k);
    }
  }

  /* ---------- flushing ---------- */

  /** Raw TTLs change expiries only: the values are those of the exact plan. */
  lemma {:induction false} RawValues(s: Store, es: seq<Entry>, clock: int)
    ensures SameValues(ApplyWrites(s, Plan(es, true, clock, true)), ApplyWrites(s, Plan(es, true, clock, false)))
  {
    var raw, exact := Plan(es, true, clock, true), Plan(es, true, clock, false);
    if es != [] {
      var n := |es| - 1;
      RawValues(s, es[..n], clock);
      assert raw[..n] == Plan(es[..n], true, clock, true);
      assert exact[..n] == Plan(es[..n], true, clock, false);
      var a, b := ApplyWrites(s, raw[..n]), ApplyWrites(s, exact[..n]);
      forall k
        ensures ValueAt(ApplyWrite(a, raw[n]), k) == ValueAt(ApplyWrite(b, exact[n]), k)
      {
        assert ValueAt(a, k) == ValueAt(b, k);
      }
    }
  }

  lemma SingleRawWrite(s: Store, e: Entry, op: Op, id: nat, clock: int, k: string)
    requires Single(e, op, id)
    ensures At(ApplyWrite(s, WriteOf(e, clock, true)), k)
         == if op.Target() != k then At(s, k)
            else if op.SetOp? then Some(Restarted(op.item, clock)) else None
  {
  }

  /** A raw plan leaves at each key the row of its last operation, its time running from the write. */
  lemma {:induction false} RawRows(s: Store, es: seq<Entry>, ops: seq<Op>, first: nat, clock: int, k: string)
    requires ListsAll(es, ops, first)
    ensures Restarts(At(ApplyWrites(s, Plan(es, true, clock, true)), k), At(s, k), Last(ops, k))
  {
    if es != [] {
      var n := |es| - 1;
      var before := Plan(es[..n], true, clock, true);
      RawRows(s, es[..n], ops[..n], first, clock, k);
      assert Plan(es, true, clock, true)[..n] == before;
      SingleRawWrite(ApplyWrites(s, before), es[n], ops[n], first + n, clock, k);
    }
  }

  /** A handler that has written its whole plan has written what the window means. */
  lemma PlanWrites(cfg: Config, base: Store, es: seq<Entry>, ops: seq<Op>, first: nat, clock: int)
    requires Holds(cfg.coalesce, es, ops, first)
    requires cfg.raw ==> !cfg.coalesce
    ensures Written(cfg, base, ApplyWrites(base, Plan(es, !cfg.coalesce, clock, cfg.raw)), ops)
  {
    var store := ApplyWrites(base, Plan(es, !cfg.coalesce, clock, cfg.raw));
    if !cfg.coalesce {
      SequentialFlushIsFifo(base, es, ops, first, clock);
      RawValues(base, es, clock);
    }
    forall k
      ensures ValueAt(store, k) == ValueOf(Meaning(cfg, base, ops, k))
      ensures !cfg.raw ==> At(store, k) == Meaning(cfg, base, ops, k)
      ensures cfg.raw ==> Restarts(At(store, k), At(base, k), Last(ops, k))
    {
      if cfg.raw {
        RawRows(base, es, ops, first, clock, k);
      }
      if cfg.coalesce {
        FlushMeansFold(base, es, ops, first, clock, k);
      } else {
        assert ValueAt(store, k) == ValueAt(ApplyAll(base, ops), k);
      }
    }
  }

  lemma ItemNames(coalesce: bool, es: seq<Entry>, ops: seq<Op>, first: nat)
    requires Holds(coalesce, es, ops, first)
    ensures forall e :: e in es && e.item.Some? ==> Name(e.item.value.key) == Name(e.key)
    ensures NamesOf(es) == Names(ops)
  {
    if !coalesce {
      forall i | 0 <= i < |es|
        ensures es[i].item.Some? ==> Name(es[i].item.value.key) == Name(es[i].key)
        ensures Name(es[i].key) == ops[i].Target()
      {
        assert Single(es[i], ops[i], first + i);
      }
      forall k
        ensures k in NamesOf(es) <==> k in Names(ops)
      {
        if k in NamesOf(es) {
          var i :| 0 <= i < |es| && Name(es[i].key) == k;
          assert ops[i] in ops;
        }
        if k in Names(ops) {
          var i :| 0 <= i < |ops| && ops[i].Target() == k;
          assert es[i] in es;
        }
      }
    } else {
      forall e | e in es && e.item.Some?
        ensures Name(e.item.value.key) == Name(e.key)
      {
        assert Folds(e, ops, first, Name(e.key));
      }
    }
  }

  /** A handler part of the way through its plan has touched only keys of the window. */
  lemma PartialPlan(cfg: Config, base: Store, es: seq<Entry>, ops: seq<Op>, first: nat, clock: int, n: nat)
    requires Holds(cfg.coalesce, es, ops, first)
    requires n <= |Plan(es, !cfg.coalesce, clock, cfg.raw)|
    ensures forall k :: k !in Names(ops) ==>
              At(ApplyWrites(base, Plan(es, !cfg.coalesce, clock, cfg.raw)[..n]), k) == At(base, k)
  {
    ItemNames(cfg.coalesce, es, ops, first);
    forall k | k !in Names(ops)
      ensures At(ApplyWrites(base, Plan(es, !cfg.coalesce, clock, cfg.raw)[..n]), k) == At(base, k)
    {
      FlushTouchesOnlyNames(base, es, !cfg.coalesce, clock, cfg.raw, n, k);
    }
  }

  lemma HeldPairs(coalesce: bool, es: seq<Entry>, ops: seq<Op>, first: nat)
    requires Holds(coalesce, es, ops, first)
    ensures Paired(es)
    ensures forall id: nat :: multiset(WaitingIds(es))[id] == if first <= id < first + |ops| then 1 else 0
  {
    if coalesce {
      FoldedPairs(es, ops, first);
    } else {
      ListedPairs(es, ops, first);
    }
    forall id: nat
      ensures multiset(WaitingIds(es))[id] == if first <= id < first + |ops| then 1 else 0
    {
      if coalesce {
        FoldedWaitsOnce(es, ops, first, id);
      } else {
        ListedWaitsOnce(es, ops, first, id);
      }
    }
  }
}
