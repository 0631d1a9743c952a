/** Buffered entries, the callers waiting on them, and the driver writes a flush turns them into. */
module Snapshot {
  import opened Basics
  import opened Keys
  import opened Window

  /* ---------- callers ---------- */

  /** A stored `resolve` callback: a set's own, a delete's with its default result, or either one
      wrapped so that it is called without an argument. The id names the caller's promise. */
  datatype Resolver = OnSet(id: nat) | OnDelete(id: nat, fallback: bool) | Dropped(inner: Resolver)

  datatype Settlement = Resolved(id: nat, result: Option<bool>) | Rejected(id: nat)

  function Fire(r: Resolver, arg: Option<bool>): Settlement {
    match r
    case OnSet(id) => Resolved(id, arg)
    case OnDelete(id, fallback) => Resolved(id, Some(arg.GetOr(fallback)))
    case Dropped(inner) => Fire(inner, None)
  }

  function Who(r: Resolver): nat {
    match r
    case OnSet(id) => id
    case OnDelete(id, _) => id
    case Dropped(inner) => Who(inner)
  }

  predicate FromSet(r: Resolver) {
    match r
    case OnSet(_) => true
    case OnDelete(_, _) => false
    case Dropped(inner) => FromSet(inner)
  }

  lemma {:induction false} FireKeepsCaller(r: Resolver, arg: Option<bool>)
    ensures Fire(r, arg).Resolved? && Fire(r, arg).id == Who(r)
    ensures (arg.None? || r.Dropped?) ==> (Fire(r, arg).result.None? <==> FromSet(r))
    ensures !FromSet(r) ==> Fire(r, arg).result.Some?
  {
    if r.Dropped? {
      FireKeepsCaller(r.inner, None);
    }
  }

  function Callers(rs: seq<Resolver>): (ids: seq<nat>)
    ensures |ids| == |rs|
    ensures forall i :: 0 <= i < |rs| ==> ids[i] == Who(rs[i])
  {
    seq(|rs|, i requires 0 <= i < |rs| => Who(rs[i]))
  }

  /* ---------- entries ---------- */

  datatype Kind = Set | Delete

  /** `PendingBatchItem`. The reject callbacks are told apart by their caller's id alone. */
  datatype Entry = Entry(key: Key, kind: Kind, item: Option<Item>, hadPrior: bool,
                         resolves: seq<Resolver>, rejects: seq<nat>)

  /** The callers of the window whose operation is on key `k`, in call order; ids count from `first`. */
  function Ids(ops: seq<Op>, first: nat, k: string): seq<nat> {
    if ops == [] then []
    else
      var n := |ops| - 1;
      if ops[n].Target() == k then Ids(ops[..n], first, k) + [first + n] else Ids(ops[..n], first, k)
  }

  lemma {:induction false} IdsOnce(ops: seq<Op>, first: nat, k: string, id: nat)
    ensures multiset(Ids(ops, first, k))[id]
         == if first <= id < first + |ops| && ops[id - first].Target() == k then 1 else 0
  {
    if ops != [] {
      var n := |ops| - 1;
      IdsOnce(ops[..n], first, k, id);
      if ops[n].Target() == k {
        assert multiset(Ids(ops, first, k)) == multiset(Ids(ops[..n], first, k) + [first + n]);
      }
    }
  }

  /** A stored resolver belongs to a call of the window of the same type, and on a pending delete the
      resolver of a set has been wrapped. */
  predicate Proper(r: Resolver, kind: Kind, ops: seq<Op>, first: nat) {
    && first <= Who(r) < first + |ops|
    && (FromSet(r) <==> ops[Who(r) - first].SetOp?)
    && (kind.Delete? && FromSet(r) ==> r.Dropped?)
  }

  predicate Shielded(rs: seq<Resolver>, kind: Kind, ops: seq<Op>, first: nat) {
    forall r :: r in rs ==> Proper(r, kind, ops, first)
  }

  /** The entry's callbacks are, in call order and paired, those of the window's calls on key `k`. */
  predicate Joined(e: Entry, ops: seq<Op>, first: nat, k: string) {
    && e.rejects == Ids(ops, first, k)
    && Callers(e.resolves) == e.rejects
    && Shielded(e.resolves, e.kind, ops, first)
  }

  /** The entry holds everything the window says about key `k`. */
  predicate Folds(e: Entry, ops: seq<Op>, first: nat, k: string) {
    var last := Last(ops, k);
    && Name(e.key) == k
    && last.Some?
    && (last.value.SetOp? ==>
          && e.kind.Set?
          && e.item == Some(last.value.item.(keys := KeptColumns(ops, k), ttl := KeptTtl(ops, k))))
    && (last.value.DelOp? ==> e.kind.Delete? && e.item.None?)
    && Joined(e, ops, first, k)
  }

  /** The entry of one operation kept on its own. */
  predicate Single(e: Entry, op: Op, id: nat) {
    && (op.SetOp? ==> e == Entry(op.item.key, Set, Some(op.item.(keys := Sanitize(op.item.keys))), false, [OnSet(id)], [id]))
    && (op.DelOp? ==> e == Entry(op.key, Delete, None, false, [OnDelete(id, false)], [id]))
  }

  function NamesOf(es: seq<Entry>): set<string> {
    set e | e in es :: Name(e.key)
  }

  /** The entries are the folded form of the window: one per key, each complete. */
  predicate FoldsAll(es: seq<Entry>, ops: seq<Op>, first: nat) {
    && (forall e :: e in es ==> Folds(e, ops, first, Name(e.key)))
    && NamesOf(es) == Names(ops)
    && (forall i, j :: 0 <= i < j < |es| ==> Name(es[i].key) != Name(es[j].key))
  }

  /** The entries are the window's operations one by one. */
  predicate ListsAll(es: seq<Entry>, ops: seq<Op>, first: nat) {
    |es| == |ops| && forall i :: 0 <= i < |es| ==> Single(es[i], ops[i], first + i)
  }

  /* ---------- ordering a snapshot ---------- */

  function Insert(es: seq<Entry>, e: Entry): seq<Entry> {
    if es == [] || Compare(es[|es| - 1].key, e.key) <= 0 then es + [e]
    else Insert(es[..|es| - 1], e) + [es[|es| - 1]]
  }

  /** `snapshot.sort(...)` as a stable insertion sort. */
  function Sorted(es: seq<Entry>): seq<Entry> {
    if es == [] then [] else Insert(Sorted(es[..|es| - 1]), es[|es| - 1])
  }

  lemma SnocAdds(es: seq<Entry>, e: Entry)
    ensures multiset(es + [e]) == multiset(es) + multiset{e}
  {
  }

  lemma AddedInEitherOrder(m: multiset<Entry>, e: Entry, f: Entry)
    ensures m + multiset{e} + multiset{f} == m + multiset{f} + multiset{e}
  {
  }

  lemma {:induction false} InsertPermutes(es: seq<Entry>, e: Entry)
    ensures multiset(Insert(es, e)) == multiset(es) + multiset{e}
  {
    if es == [] || Compare(es[|es| - 1].key, e.key) <= 0 {
      SnocAdds(es, e);
    } else {
      var init, last := es[..|es| - 1], es[|es| - 1];
      InsertPermutes(init, e);
      SnocAdds(Insert(init, e), last);
      SnocAdds(init, last);
      AddedInEitherOrder(multiset(init), e, last);
      assert es == init + [last];
    }
  }

  lemma {:induction false} SortPermutes(es: seq<Entry>)
    ensures multiset(Sorted(es)) == multiset(es)
  {
    if es != [] {
      var init, last := es[..|es| - 1], es[|es| - 1];
      SortPermutes(init);
      InsertPermutes(Sorted(init), last);
      SnocAdds(init, last);
      assert es == init + [last];
    }
  }

  predicate NoneAbove(es: seq<Entry>, key: Key) {
    forall e :: e in es ==> Compare(e.key, key) <= 0
  }

  predicate Ascending(es: seq<Entry>) {
    forall i :: 0 <= i < |es| ==> NoneAbove(es[..i], es[i].key)
  }

  predicate OneKind(es: seq<Entry>, kind: bool) {
    forall e :: e in es ==> e.key.Num? == kind
  }

  lemma AscendingSnoc(es: seq<Entry>, e: Entry)
    requires Ascending(es) && NoneAbove(es, e.key)
    ensures Ascending(es + [e])
  {
  }

  lemma AscendingInit(es: seq<Entry>)
    requires es != [] && Ascending(es)
    ensures Ascending(es[..|es| - 1]) && NoneAbove(es[..|es| - 1], es[|es| - 1].key)
  {
  }

  lemma NoneAboveTrans(es: seq<Entry>, a: Key, b: Key)
    requires NoneAbove(es, a) && Compare(a, b) <= 0
    requires OneKind(es, a.Num?) && SameKind(a, b)
    ensures NoneAbove(es, b)
  {
    forall e | e in es
      ensures Compare(e.key, b) <= 0
    {
      TotalOnOneKind(e.key, a, b);
      TotalOnOneKind(a, b, b);
    }
  }

  lemma InsertMembers(es: seq<Entry>, e: Entry)
    ensures forall f :: f in Insert(es, e) <==> f in es || f == e
  {
  }

  lemma NoneAboveSnoc(es: seq<Entry>, e: Entry, key: Key)
    requires NoneAbove(es, key) && Compare(e.key, key) <= 0
    ensures NoneAbove(es + [e], key)
  {
  }

  lemma InsertedNoneAbove(es: seq<Entry>, e: Entry, key: Key)
    requires NoneAbove(es, key) && Compare(e.key, key) <= 0
    ensures NoneAbove(Insert(es, e), key)
  {
    InsertMembers(es, e);
  }

  lemma {:induction false} InsertAscends(es: seq<Entry>, e: Entry)
    requires Ascending(es) && OneKind(es, e.key.Num?)
    ensures Ascending(Insert(es, e))
  {
    if es == [] {
      AscendingSnoc(es, e);
    } else {
      var init, last := es[..|es| - 1], es[|es| - 1];
      assert es == init + [last];
      AscendingInit(es);
      TotalOnOneKind(last.key, e.key, e.key);
      if Compare(last.key, e.key) <= 0 {
        NoneAboveTrans(init, last.key, e.key);
        NoneAboveSnoc(init, last, e.key);
        AscendingSnoc(es, e);
      } else {
        InsertAscends(init, e);
        TotalOnOneKind(e.key, last.key, last.key);
        InsertedNoneAbove(init, e, last.key);
        AscendingSnoc(Insert(init, e), last);
      }
    }
  }

  /** On keys of one kind the flush order is ascending by key. */
  lemma {:induction false} SortAscends(es: seq<Entry>, kind: bool)
    requires OneKind(es, kind)
    ensures Ascending(Sorted(es))
  {
    if es != [] {
      var init, last := es[..|es| - 1], es[|es| - 1];
      assert es == init + [last];
      SortAscends(init, kind);
      SortPermutes(init);
      forall f | f in Sorted(init)
        ensures f in init
      {
        assert f in multiset(Sorted(init));
      }
      InsertAscends(Sorted(init), last);
    }
  }

  /* ---------- driver writes ---------- */

  datatype Write = Put(name: string, rec: Rec) | Remove(name: string) {
    function Effect(): Option<Rec> {
      if Put? then Some(rec) else None
    }
  }

  function ApplyWrite(s: Store, w: Write): Store {
    match w
    case Put(n, r) => s[n := r]
    case Remove(n) => s - {n}
  }

  function ApplyWrites(s: Store, ws: seq<Write>): Store {
    if ws == [] then s else ApplyWrite(ApplyWrites(s, ws[..|ws| - 1]), ws[|ws| - 1])
  }

  /** The expiry the flush handler asks for at time `clock`. `raw` passes the TTL on unchanged, as
      the sequential path of a schema table does; the other paths subtract the time spent waiting. */
  function FlushDeadline(i: Item, clock: int, raw: bool): Option<int> {
    if i.ttl.None? then None
    else if raw then Some(clock + i.ttl.value)
    else Some(clock + (i.ttl.value - (clock - i.at)))
  }

  function WriteOf(e: Entry, clock: int, raw: bool): Write {
    if e.kind.Set? && e.item.Some? then
      Put(Name(e.item.value.key), Rec(e.item.value.value, e.item.value.keys, FlushDeadline(e.item.value, clock, raw)))
    else
      Remove(Name(e.key))
  }

  function WritesOf(es: seq<Entry>, clock: int, raw: bool): (ws: seq<Write>)
    ensures |ws| == |es|
    ensures forall i :: 0 <= i < |es| ==> ws[i] == WriteOf(es[i], clock, raw)
  {
    seq(|es|, i requires 0 <= i < |es| => WriteOf(es[i], clock, raw))
  }

  function OfKind(es: seq<Entry>, kind: Kind): seq<Entry> {
    if es == [] then []
    else if es[|es| - 1].kind == kind then OfKind(es[..|es| - 1], kind) + [es[|es| - 1]]
    else OfKind(es[..|es| - 1], kind)
  }

  lemma {:induction false} OfKindMembers(es: seq<Entry>, kind: Kind, e: Entry)
    ensures e in OfKind(es, kind) <==> e in es && e.kind == kind
  {
    if es != [] {
      OfKindMembers(es[..|es| - 1], kind, e);
      assert es == es[..|es| - 1] + [es[|es| - 1]];
    }
  }

  /** The writes of one flush: in order when sequential, else all sets and then all deletes. */
  function Plan(es: seq<Entry>, sequential: bool, clock: int, raw: bool): seq<Write> {
    if sequential then WritesOf(es, clock, raw)
    else WritesOf(OfKind(es, Set), clock, raw) + WritesOf(OfKind(es, Delete), clock, raw)
  }

  lemma PlanMembers(es: seq<Entry>, sequential: bool, clock: int, raw: bool)
    ensures forall e :: e in es ==> WriteOf(e, clock, raw) in Plan(es, sequential, clock, raw)
    ensures forall w :: w in Plan(es, sequential, clock, raw) ==> exists e :: e in es && w == WriteOf(e, clock, raw)
  {
    forall e
      ensures e in OfKind(es, Set) <==> e in es && e.kind == Set
      ensures e in OfKind(es, Delete) <==> e in es && e.kind == Delete
    {
      OfKindMembers(es, Set, e);
      OfKindMembers(es, Delete, e);
    }
    var sets, deletes := OfKind(es, Set), OfKind(es, Delete);
    forall e | e in es
      ensures WriteOf(e, clock, raw) in Plan(es, sequential, clock, raw)
    {
      if sequential {
        var i :| 0 <= i < |es| && es[i] == e;
        assert WritesOf(es, clock, raw)[i] == WriteOf(e, clock, raw);
      } else if e.kind == Set {
        var i :| 0 <= i < |sets| && sets[i] == e;
        assert WritesOf(sets, clock, raw)[i] == WriteOf(e, clock, raw);
      } else {
        var i :| 0 <= i < |deletes| && deletes[i] == e;
        assert WritesOf(deletes, clock, raw)[i] == WriteOf(e, clock, raw);
      }
    }
  }

  /** Writes that never target `k` leave it alone; writes that agree on `k` leave their effect. */
  lemma {:induction false} WritesAt(s: Store, ws: seq<Write>, k: string, r: Option<Rec>)
    requires forall w :: w in ws && w.name == k ==> w.Effect() == r
    ensures (exists w :: w in ws && w.name == k) ==> At(ApplyWrites(s, ws), k) == r
    ensures (forall w :: w in ws ==> w.name != k) ==> At(ApplyWrites(s, ws), k) == At(s, k)
  {
    if ws != [] {
      var before, w := ws[..|ws| - 1], ws[|ws| - 1];
      assert ws == before + [w];
      assert forall x :: x in ws <==> x in before || x == w;
      WritesAt(s, before, k, r);
    }
  }

  lemma FoldedWrite(s: Store, e: Entry, ops: seq<Op>, first: nat, clock: int)
    requires Folds(e, ops, first, Name(e.key))
    ensures WriteOf(e, clock, false).name == Name(e.key)
    ensures WriteOf(e, clock, false).Effect() == FoldedAt(s, ops, Name(e.key))
  {
  }

  /** Folding, sorting, and writing all sets before all deletes has the meaning of the folded
      window on every key, whatever order the entries stand in. */
  lemma FlushMeansFold(s: Store, es: seq<Entry>, ops: seq<Op>, first: nat, clock: int, k: string)
    requires FoldsAll(es, ops, first)
    ensures At(ApplyWrites(s, Plan(es, false, clock, false)), k) == FoldedAt(s, ops, k)
  {
    var plan := Plan(es, false, clock, false);
    PlanMembers(es, false, clock, false);
    LastIffNamed(ops, k);
    forall w | w in plan && w.name == k
      ensures k in Names(ops) && w.Effect() == FoldedAt(s, ops, k)
    {
      var e :| e in es && w == WriteOf(e, clock, false);
      FoldedWrite(s, e, ops, first, clock);
      assert Name(e.key) in NamesOf(es);
    }
    WritesAt(s, plan, k, FoldedAt(s, ops, k));
    if k in Names(ops) {
      assert k in NamesOf(es);
      var e :| e in es && Name(e.key) == k;
      FoldedWrite(s, e, ops, first, clock);
      assert WriteOf(e, clock, false) in plan;
    }
  }

  /** However far a folded flush has got, keys outside the window keep their rows. */
  lemma FlushTouchesOnlyNames(s: Store, es: seq<Entry>, sequential: bool, clock: int, raw: bool, n: nat, k: string)
    requires n <= |Plan(es, sequential, clock, raw)|
    requires forall e :: e in es && e.item.Some? ==> Name(e.item.value.key) == Name(e.key)
    requires k !in NamesOf(es)
    ensures At(ApplyWrites(s, Plan(es, sequential, clock, raw)[..n]), k) == At(s, k)
  {
    var done := Plan(es, sequential, clock, raw)[..n];
    PlanMembers(es, sequential, clock, raw);
    forall w | w in done
      ensures w.name != k
    {
      assert w in Plan(es, sequential, clock, raw);
      var e :| e in es && w == WriteOf(e, clock, raw);
      assert Name(e.key) in NamesOf(es);
    }
    WritesAt(s, done, k, None);
  }

  lemma SingleWrite(s: Store, e: Entry, op: Op, id: nat, clock: int)
    requires Single(e, op, id)
    ensures ApplyWrite(s, WriteOf(e, clock, false)) == ApplyOp(s, op)
  {
  }

  /** The sequential flush of an unfolded window is first-in-first-out application. */
  lemma {:induction false} SequentialFlushIsFifo(s: Store, es: seq<Entry>, ops: seq<Op>, first: nat, clock: int)
    requires ListsAll(es, ops, first)
    ensures ApplyWrites(s, Plan(es, true, clock, false)) == ApplyAll(s, ops)
  {
    var ws := WritesOf(es, clock, false);
    if es != [] {
      var n := |es| - 1;
      SequentialFlushIsFifo(s, es[..n], ops[..n], first, clock);
      assert ws[..n] == WritesOf(es[..n], clock, false);
      SingleWrite(ApplyAll(s, ops[..n]), es[n], ops[n], first + n, clock);
    }
  }

  /** Passing the TTL on unchanged gives the row another expiry than the caller asked for, unless
      there is no TTL or the flush runs at the very time of the call. */
  lemma RawTtlRestarts(i: Item, clock: int)
    ensures FlushDeadline(i, clock, true) == Deadline(i.at, i.ttl) <==> i.ttl.None? || clock == i.at
    ensures FlushDeadline(i, clock, false) == Deadline(i.at, i.ttl)
  {
  }
}
