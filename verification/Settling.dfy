/** Settling the callers of a flushed snapshot: every promise once, and each the right way. */
module Settling {
  import opened Basics
  import opened Keys
  import opened Window
  import opened Snapshot

  function FireAll(rs: seq<Resolver>, arg: Option<bool>): (ss: seq<Settlement>)
    ensures |ss| == |rs| && forall i :: 0 <= i < |rs| ==> ss[i] == Fire(rs[i], arg)
  {
    seq(|rs|, i requires 0 <= i < |rs| => Fire(rs[i], arg))
  }

  function RejectAll(ids: seq<nat>): (ss: seq<Settlement>)
    ensures |ss| == |ids| && forall i :: 0 <= i < |ids| ==> ss[i] == Rejected(ids[i])
  {
    seq(|ids|, i requires 0 <= i < |ids| => Rejected(ids[i]))
  }

  /** What one entry's callers are told once the handler has ended. */
  function SettleEntry(e: Entry, ok: bool, deleted: set<Key>): seq<Settlement> {
    if !ok then RejectAll(e.rejects)
    else if e.kind.Set? then FireAll(e.resolves, None)
    else FireAll(e.resolves, Some(e.hadPrior || e.key in deleted))
  }

  function SettleAll(es: seq<Entry>, ok: bool, deleted: set<Key>): seq<Settlement> {
    if es == [] then []
    else SettleAll(es[..|es| - 1], ok, deleted) + SettleEntry(es[|es| - 1], ok, deleted)
  }

  function IdsOf(ss: seq<Settlement>): (ids: seq<nat>)
    ensures |ids| == |ss| && forall i :: 0 <= i < |ss| ==> ids[i] == ss[i].id
  {
    seq(|ss|, i requires 0 <= i < |ss| => ss[i].id)
  }

  function WaitingIds(es: seq<Entry>): seq<nat> {
    if es == [] then [] else WaitingIds(es[..|es| - 1]) + es[|es| - 1].rejects
  }

  predicate Paired(es: seq<Entry>) {
    forall e :: e in es ==> Callers(e.resolves) == e.rejects
  }

  lemma SettleEntryIds(e: Entry, ok: bool, deleted: set<Key>)
    requires Callers(e.resolves) == e.rejects
    ensures IdsOf(SettleEntry(e, ok, deleted)) == e.rejects
    ensures forall s :: s in SettleEntry(e, ok, deleted) ==> (s.Resolved? <==> ok)
  {
    var ss := SettleEntry(e, ok, deleted);
    forall i | 0 <= i < |ss|
      ensures ss[i].id == e.rejects[i] && (ss[i].Resolved? <==> ok)
    {
      if ok {
        FireKeepsCaller(e.resolves[i], if e.kind.Set? then None else Some(e.hadPrior || e.key in deleted));
      }
    }
  }

  /** The settlements name exactly the waiting callers, in the same order, and all go one way. */
  lemma {:induction false} SettleAllIds(es: seq<Entry>, ok: bool, deleted: set<Key>)
    requires Paired(es)
    ensures IdsOf(SettleAll(es, ok, deleted)) == WaitingIds(es)
    ensures forall s :: s in SettleAll(es, ok, deleted) ==> (s.Resolved? <==> ok)
  {
    if es != [] {
      var init, last := es[..|es| - 1], es[|es| - 1];
      assert Paired(init) by {
        assert forall e :: e in init ==> e in es;
      }
      SettleAllIds(init, ok, deleted);
      assert last in es;
      SettleEntryIds(last, ok, deleted);
    }
  }

  /** How often `id` waits in the entries, when it can only wait in the entry of key `k`. */
  lemma {:induction false} WaitingOnce(es: seq<Entry>, ops: seq<Op>, first: nat, id: nat, k: string)
    requires forall e :: e in es ==> e.rejects == Ids(ops, first, Name(e.key))
    requires forall i, j :: 0 <= i < j < |es| ==> Name(es[i].key) != Name(es[j].key)
    requires first <= id < first + |ops| ==> ops[id - first].Target() == k
    ensures multiset(WaitingIds(es))[id] == if first <= id < first + |ops| && k in NamesOf(es) then 1 else 0
  {
    if es != [] {
      var init, last := es[..|es| - 1], es[|es| - 1];
      assert es == init + [last];
      WaitingOnce(init, ops, first, id, k);
      IdsOnce(ops, first, Name(last.key), id);
      assert NamesOf(es) == NamesOf(init) + {Name(last.key)};
      assert Name(last.key) !in NamesOf(init);
    }
  }

  /** A folded snapshot holds each caller of its window exactly once, and no one else. */
  lemma FoldedWaitsOnce(es: seq<Entry>, ops: seq<Op>, first: nat, id: nat)
    requires FoldsAll(es, ops, first)
    ensures multiset(WaitingIds(es))[id] == if first <= id < first + |ops| then 1 else 0
  {
    var k := if first <= id < first + |ops| then ops[id - first].Target() else "";
    forall e | e in es
      ensures e.rejects == Ids(ops, first, Name(e.key))
    {
      assert Folds(e, ops, first, Name(e.key));
    }
    WaitingOnce(es, ops, first, id, k);
    if first <= id < first + |ops| {
      assert ops[id - first] in ops;
      assert k in Names(ops);
    }
  }

  /** So does a snapshot that keeps its operations one by one. */
  lemma {:induction false} ListedWaitsOnce(es: seq<Entry>, ops: seq<Op>, first: nat, id: nat)
    requires ListsAll(es, ops, first)
    ensures multiset(WaitingIds(es))[id] == if first <= id < first + |ops| then 1 else 0
  {
    if es != [] {
      var n := |es| - 1;
      ListedWaitsOnce(es[..n], ops[..n], first, id);
      assert Single(es[n], ops[n], first + n);
      assert es[n].rejects == [first + n];
    }
  }

  lemma FoldedPairs(es: seq<Entry>, ops: seq<Op>, first: nat)
    requires FoldsAll(es, ops, first)
    ensures Paired(es)
  {
  }

  lemma ListedPairs(es: seq<Entry>, ops: seq<Op>, first: nat)
    requires ListsAll(es, ops, first)
    ensures Paired(es)
  {
  }

  /** When the handler succeeds, a caller hears a boolean exactly if it asked for a delete, however
      its entry was rewritten from set to delete and back. */
  lemma ResultFitsCall(e: Entry, ops: seq<Op>, first: nat, deleted: set<Key>, s: Settlement)
    requires Folds(e, ops, first, Name(e.key)) && s in SettleEntry(e, true, deleted)
    ensures s.Resolved? && first <= s.id < first + |ops|
    ensures s.result.Some? <==> ops[s.id - first].DelOp?
  {
    var ss := SettleEntry(e, true, deleted);
    var i :| 0 <= i < |ss| && ss[i] == s;
    var r := e.resolves[i];
    assert Proper(r, e.kind, ops, first);
    FireKeepsCaller(r, if e.kind.Set? then None else Some(e.hadPrior || e.key in deleted));
  }

  /* ---------- once over the whole history ---------- */

  /** Every caller below `done` has been told once, every later one not yet, each by its run's verdict. */
  ghost predicate SettledOnce(ss: seq<Settlement>, done: nat, runOf: seq<nat>, verdicts: seq<bool>) {
    && |runOf| == done
    && (forall id: nat :: multiset(IdsOf(ss))[id] == if id < done then 1 else 0)
    && (forall i :: 0 <= i < done ==> runOf[i] < |verdicts|)
    && (forall s :: s in ss ==> s.id < done && (s.Resolved? <==> verdicts[runOf[s.id]]))
  }

  lemma IdsOfConcat(a: seq<Settlement>, b: seq<Settlement>)
    ensures multiset(IdsOf(a + b)) == multiset(IdsOf(a)) + multiset(IdsOf(b))
  {
    assert IdsOf(a + b) == IdsOf(a) + IdsOf(b);
  }

  /** The settlements of a snapshot that holds callers `done` to `done + n` name only these. */
  lemma SettledInRange(es: seq<Entry>, done: nat, n: nat, ok: bool, deleted: set<Key>)
    requires Paired(es)
    requires forall id: nat :: multiset(WaitingIds(es))[id] == if done <= id < done + n then 1 else 0
    ensures forall s :: s in SettleAll(es, ok, deleted) ==> done <= s.id < done + n && (s.Resolved? <==> ok)
  {
    var more := SettleAll(es, ok, deleted);
    SettleAllIds(es, ok, deleted);
    forall s | s in more
      ensures done <= s.id < done + n
    {
      var i :| 0 <= i < |more| && more[i] == s;
      assert IdsOf(more)[i] in multiset(WaitingIds(es));
    }
  }

  /** Settling the next stretch of callers keeps the history exact. */
  lemma SettleNext(ss: seq<Settlement>, done: nat, runOf: seq<nat>, verdicts: seq<bool>,
                   es: seq<Entry>, n: nat, ok: bool, deleted: set<Key>)
    requires SettledOnce(ss, done, runOf, verdicts)
    requires Paired(es)
    requires forall id: nat :: multiset(WaitingIds(es))[id] == if done <= id < done + n then 1 else 0
    ensures SettledOnce(ss + SettleAll(es, ok, deleted), done + n, runOf + Repeat(n, |verdicts|), verdicts + [ok])
  {
    var more := SettleAll(es, ok, deleted);
    assert forall id: nat :: multiset(IdsOf(ss + more))[id] == if id < done + n then 1 else 0 by {
      SettleAllIds(es, ok, deleted);
      IdsOfConcat(ss, more);
    }
    SettledInRange(es, done, n, ok, deleted);
    var runs, vs := runOf + Repeat(n, |verdicts|), verdicts + [ok];
    forall s | s in ss + more
      ensures s.id < done + n && (s.Resolved? <==> vs[runs[s.id]])
    {
      if s in ss {
        assert s.id < done && runs[s.id] == runOf[s.id];
      } else {
        assert s in more && runs[s.id] == |verdicts|;
      }
    }
  }
}
