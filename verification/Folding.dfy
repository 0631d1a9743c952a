/** One step of the coalescing buffer: merging the next operation of a key into its entry. */
module Folding {
  import opened Basics
  import opened Keys
  import opened Window
  import opened Snapshot

  /** `enqueue` onto an existing entry; `clean` is the caller's item with sanitized keys. */
  function MergeSet(e: Entry, clean: Item, id: nat): Entry {
    var before := e.item;
    var oldKeys := if before.Some? then before.value.keys else None;
    var keys := Overlay(oldKeys, clean.keys);
    var ttl := if clean.ttl.Some? then clean.ttl else if before.Some? then before.value.ttl else None;
    e.(kind := Set, item := Some(clean.(keys := keys, ttl := ttl)),
       resolves := e.resolves + [OnSet(id)], rejects := e.rejects + [id])
  }

  function NewSet(clean: Item, id: nat): Entry {
    Entry(clean.key, Set, Some(clean), false, [OnSet(id)], [id])
  }

  function DropAll(rs: seq<Resolver>): (ds: seq<Resolver>)
    ensures |ds| == |rs| && forall i :: 0 <= i < |rs| ==> ds[i] == Dropped(rs[i])
  {
    seq(|rs|, i requires 0 <= i < |rs| => Dropped(rs[i]))
  }

  /** `enqueueDelete` onto an existing entry. */
  function MergeDelete(e: Entry, id: nat): Entry {
    if e.kind.Set? then
      e.(kind := Delete, item := None, hadPrior := true,
         resolves := DropAll(e.resolves) + [OnDelete(id, true)], rejects := e.rejects + [id])
    else
      e.(resolves := e.resolves + [OnDelete(id, false)], rejects := e.rejects + [id])
  }

  function NewDelete(key: Key, id: nat): Entry {
    Entry(key, Delete, None, false, [OnDelete(id, false)], [id])
  }

  function Clean(item: Item): Item {
    item.(keys := Sanitize(item.keys))
  }

  lemma SnocViews(ops: seq<Op>, op: Op, first: nat, k: string)
    ensures Last(ops + [op], k) == if op.Target() == k then Some(op) else Last(ops, k)
    ensures Ids(ops + [op], first, k) == if op.Target() == k then Ids(ops, first, k) + [first + |ops|] else Ids(ops, first, k)
    ensures op.Target() != k ==>
              KeptTtl(ops + [op], k) == KeptTtl(ops, k) && KeptColumns(ops + [op], k) == KeptColumns(ops, k)
    ensures op.Target() == k && op.DelOp? ==> KeptTtl(ops + [op], k) == None && KeptColumns(ops + [op], k) == None
    ensures op.Target() == k && op.SetOp? ==>
              KeptTtl(ops + [op], k) == if op.item.ttl.Some? then op.item.ttl else KeptTtl(ops, k)
    ensures op.Target() == k && op.SetOp? ==>
              KeptColumns(ops + [op], k) == Overlay(KeptColumns(ops, k), Sanitize(op.item.keys))
    ensures Names(ops + [op]) == Names(ops) + {op.Target()}
  {
  }

  /** Resolvers stay proper when the window grows, when they are wrapped, and when the new caller joins. */
  lemma ShieldedSnoc(rs: seq<Resolver>, kind: Kind, ops: seq<Op>, first: nat, op: Op)
    requires Shielded(rs, kind, ops, first)
    ensures Shielded(rs, kind, ops + [op], first)
    ensures Shielded(rs, Set, ops + [op], first)
    ensures Shielded(DropAll(rs), Delete, ops + [op], first)
  {
    forall r | r in rs
      ensures Proper(r, kind, ops + [op], first) && Proper(r, Set, ops + [op], first)
    {
      assert Proper(r, kind, ops, first);
    }
    forall d | d in DropAll(rs)
      ensures Proper(d, Delete, ops + [op], first)
    {
      assert Proper(d.inner, kind, ops, first);
    }
  }

  /** An operation on another key leaves an entry as it is. */
  lemma FoldsElsewhere(e: Entry, ops: seq<Op>, first: nat, k: string, op: Op)
    requires Folds(e, ops, first, k) && op.Target() != k
    ensures Folds(e, ops + [op], first, k)
  {
  }

  /** The caller of the next operation joins the callers already waiting on its key. */
  lemma CallerJoins(rs: seq<Resolver>, r: Resolver, e: Entry, ops: seq<Op>, first: nat, op: Op)
    requires Callers(rs) == Ids(ops, first, op.Target())
    requires Shielded(rs, e.kind, ops + [op], first) && Proper(r, e.kind, ops + [op], first)
    requires Who(r) == first + |ops|
    requires e.resolves == rs + [r] && e.rejects == Callers(rs) + [Who(r)]
    ensures Joined(e, ops + [op], first, op.Target())
  {
  }

  lemma MergeSetJoins(e: Entry, ops: seq<Op>, first: nat, item: Item)
    requires Joined(e, ops, first, Name(item.key))
    ensures Joined(MergeSet(e, Clean(item), first + |ops|), ops + [SetOp(item)], first, Name(item.key))
  {
  }

  lemma MergeSetFolds(e: Entry, ops: seq<Op>, first: nat, item: Item)
    requires Folds(e, ops, first, Name(item.key))
    ensures Folds(MergeSet(e, Clean(item), first + |ops|), ops + [SetOp(item)], first, Name(item.key))
  {
    var op, id, k := SetOp(item), first + |ops|, Name(item.key);
    MergeSetJoins(e, ops, first, item);
    SnocViews(ops, op, first, k);
    KeptTtlOfLast(ops, k);
  }

  lemma NewSetFolds(ops: seq<Op>, first: nat, item: Item)
    requires Name(item.key) !in Names(ops)
    ensures Folds(NewSet(Clean(item), first + |ops|), ops + [SetOp(item)], first, Name(item.key))
  {
    var op, id, k := SetOp(item), first + |ops|, Name(item.key);
    NoIds(ops, first, k);
    CallerJoins([], OnSet(id), NewSet(Clean(item), id), ops, first, op);
    LastIffNamed(ops, k);
    SnocViews(ops, op, first, k);
    KeptTtlOfLast(ops, k);
    if Sanitize(item.keys).Some? {
      assert map[] + Sanitize(item.keys).value == Sanitize(item.keys).value;
    }
  }

  lemma {:induction false} NoIds(ops: seq<Op>, first: nat, k: string)
    requires k !in Names(ops)
    ensures Ids(ops, first, k) == []
  {
    if ops != [] {
      NoIds(ops[..|ops| - 1], first, k);
    }
  }

  lemma DroppedCallers(rs: seq<Resolver>)
    ensures Callers(DropAll(rs)) == Callers(rs)
  {
  }

  lemma MergeDeleteJoins(e: Entry, ops: seq<Op>, first: nat, op: Op)
    requires op.DelOp? && Joined(e, ops, first, op.Target())
    ensures Joined(MergeDelete(e, first + |ops|), ops + [op], first, op.Target())
  {
    var id := first + |ops|;
    ShieldedSnoc(e.resolves, e.kind, ops, first, op);
    if e.kind.Set? {
      DroppedCallers(e.resolves);
      CallerJoins(DropAll(e.resolves), OnDelete(id, true), MergeDelete(e, id), ops, first, op);
    } else {
      CallerJoins(e.resolves, OnDelete(id, false), MergeDelete(e, id), ops, first, op);
    }
  }

  lemma MergeDeleteFolds(e: Entry, ops: seq<Op>, first: nat, key: Key)
    requires Folds(e, ops, first, Name(key))
    ensures Folds(MergeDelete(e, first + |ops|), ops + [DelOp(key)], first, Name(key))
  {
    MergeDeleteJoins(e, ops, first, DelOp(key));
    SnocViews(ops, DelOp(key), first, Name(key));
  }

  lemma NewDeleteFolds(ops: seq<Op>, first: nat, key: Key)
    requires Name(key) !in Names(ops)
    ensures Folds(NewDelete(key, first + |ops|), ops + [DelOp(key)], first, Name(key))
  {
    var op, id := DelOp(key), first + |ops|;
    NoIds(ops, first, Name(key));
    CallerJoins([], OnDelete(id, false), NewDelete(key, id), ops, first, op);
    SnocViews(ops, op, first, Name(key));
  }

  lemma ReplaceNames(es: seq<Entry>, i: nat, e: Entry)
    requires i < |es| && Name(es[i].key) == Name(e.key)
    ensures NamesOf(es[i := e]) == NamesOf(es)
  {
    forall k
      ensures k in NamesOf(es[i := e]) <==> k in NamesOf(es)
    {
      if k in NamesOf(es) {
        var j :| 0 <= j < |es| && Name(es[j].key) == k;
        assert es[i := e][j] in es[i := e];
      }
    }
  }

  /** Replacing the entry of the operation's key keeps the buffer folded. */
  lemma ReplaceFolds(es: seq<Entry>, ops: seq<Op>, first: nat, op: Op, i: nat, e: Entry)
    requires FoldsAll(es, ops, first)
    requires i < |es| && Name(es[i].key) == op.Target()
    requires Folds(e, ops + [op], first, op.Target())
    ensures FoldsAll(es[i := e], ops + [op], first)
  {
    forall x | x in es[i := e]
      ensures Folds(x, ops + [op], first, Name(x.key))
    {
      if x != e {
        var j :| 0 <= j < |es| && j != i && es[j] == x;
        FoldsElsewhere(x, ops, first, Name(x.key), op);
      }
    }
    ReplaceNames(es, i, e);
    SnocViews(ops, op, first, op.Target());
    assert es[i] in es;
  }

  /** Appending an entry for a key not yet buffered keeps the buffer folded. */
  lemma AppendFolds(es: seq<Entry>, ops: seq<Op>, first: nat, op: Op, e: Entry)
    requires FoldsAll(es, ops, first)
    requires op.Target() !in Names(ops)
    requires Folds(e, ops + [op], first, op.Target())
    ensures FoldsAll(es + [e], ops + [op], first)
  {
    SnocViews(ops, op, first, op.Target());
    forall x | x in es + [e]
      ensures Folds(x, ops + [op], first, Name(x.key))
    {
      if x in es {
        assert Name(x.key) in NamesOf(es);
        FoldsElsewhere(x, ops, first, Name(x.key), op);
      }
    }
    assert NamesOf(es + [e]) == NamesOf(es) + {Name(e.key)};
    forall i | 0 <= i < |es|
      ensures Name(es[i].key) != Name(e.key)
    {
      assert Name(es[i].key) in NamesOf(es);
    }
  }

  /** Any reordering of a folded buffer is folded. */
  lemma ReorderFolds(es: seq<Entry>, fs: seq<Entry>, ops: seq<Op>, first: nat)
    requires FoldsAll(es, ops, first) && multiset(fs) == multiset(es)
    ensures FoldsAll(fs, ops, first)
  {
    forall e
      ensures e in fs <==> e in es
    {
      assert e in fs <==> e in multiset(fs);
    }
    assert NamesOf(fs) == NamesOf(es);
    forall i, j | 0 <= i < j < |fs|
      ensures Name(fs[i].key) != Name(fs[j].key)
    {
      if Name(fs[i].key) == Name(fs[j].key) {
        assert fs[i] in es && fs[j] in es;
        assert fs[i] == fs[j];
        TwiceInSeq(fs, i, j);
        var a :| 0 <= a < |es| && es[a] == fs[i];
        OnceInSeq(es, a);
      }
    }
  }

  lemma TwiceInSeq(fs: seq<Entry>, i: nat, j: nat)
    requires i < j < |fs| && fs[i] == fs[j]
    ensures multiset(fs)[fs[i]] >= 2
  {
    assert fs == fs[..j] + [fs[j]] + fs[j + 1..];
    assert fs[i] in fs[..j];
  }

  lemma OnceInSeq(es: seq<Entry>, a: nat)
    requires a < |es|
    requires forall i, j :: 0 <= i < j < |es| ==> Name(es[i].key) != Name(es[j].key)
    ensures multiset(es)[es[a]] == 1
  {
    assert es == es[..a] + [es[a]] + es[a + 1..];
    assert es[a] !in es[..a] && es[a] !in es[a + 1..];
  }

  /** A folded buffer has as many entries as the window has keys. */
  lemma {:induction false} CountFolded(es: seq<Entry>)
    requires forall i, j :: 0 <= i < j < |es| ==> Name(es[i].key) != Name(es[j].key)
    ensures |NamesOf(es)| == |es|
  {
    if es != [] {
      var init, last := es[..|es| - 1], es[|es| - 1];
      CountFolded(init);
      assert es == init + [last];
      assert NamesOf(es) == NamesOf(init) + {Name(last.key)};
      assert Name(last.key) !in NamesOf(init);
    }
  }
}
