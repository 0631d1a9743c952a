/** One batching window: the operations enqueued in it, what first-in-first-out application of them
    means for the store, and what the coalescing buffer keeps of them. */
module Window {
  import opened Basics
  import opened Keys

  /* ---------- operations and records ---------- */

  type Columns = map<string, string>

  /** What a caller hands to `enqueue`; `at` is the enqueue time. */
  datatype Item = Item(key: Key, value: string, keys: Option<Columns>, ttl: Option<int>, at: int)

  datatype Op = SetOp(item: Item) | DelOp(key: Key) {
    function Target(): string {
      if SetOp? then Name(item.key) else Name(key)
    }
  }

  /** A stored row: opaque text, secondary columns, absolute expiry. */
  datatype Rec = Rec(value: string, columns: Option<Columns>, deadline: Option<int>)

  type Store = map<string, Rec>

  function At(s: Store, k: string): Option<Rec> {
    if k in s then Some(s[k]) else None
  }

  function Live(r: Option<Rec>, now: int): Option<string> {
    if r.Some? && (r.value.deadline.Some? ==> now < r.value.deadline.value) then Some(r.value.value) else None
  }

  function Deadline(at: int, ttl: Option<int>): Option<int> {
    if ttl.Some? then Some(at + ttl.value) else None
  }

  function Lower(s: string): string {
    if s == [] then [] else [if 'A' <= s[0] <= 'Z' then (s[0] as int + 32) as char else s[0]] + Lower(s[1..])
  }

  const POLLUTING: set<string> := {"__proto__", "constructor", "prototype"}

  /** `sanitizeSecondaryKeys`. */
  function Sanitize(keys: Option<Columns>): Option<Columns> {
    match keys
    case None => None
    case Some(c) => Some(map n | n in c && Lower(n) !in POLLUTING :: c[n])
  }

  function CleanColumns(item: Item): Columns {
    Sanitize(item.keys).GetOr(map[])
  }

  /* ---------- the plain store: first in, first out ---------- */

  function RecOf(item: Item): Rec {
    Rec(item.value, Sanitize(item.keys), Deadline(item.at, item.ttl))
  }

  /** The row of a set whose TTL counts from another moment. */
  function Restarted(item: Item, clock: int): Rec {
    RecOf(item).(deadline := Deadline(clock, item.ttl))
  }

  function ApplyOp(s: Store, op: Op): Store {
    match op
    case SetOp(i) => s[Name(i.key) := RecOf(i)]
    case DelOp(k) => s - {Name(k)}
  }

  function ApplyAll(s: Store, ops: seq<Op>): Store {
    if ops == [] then s else ApplyOp(ApplyAll(s, ops[..|ops| - 1]), ops[|ops| - 1])
  }

  lemma {:induction false} ApplyAllSplit(s: Store, a: seq<Op>, b: seq<Op>)
    ensures ApplyAll(s, a + b) == ApplyAll(ApplyAll(s, a), b)
    decreases |b|
  {
    if b == [] {
      assert a + b == a;
    } else {
      var b' := b[..|b| - 1];
      assert (a + b)[..|a + b| - 1] == a + b';
      ApplyAllSplit(s, a, b');
    }
  }

  /** The last operation of the window on key `k`. */
  function Last(ops: seq<Op>, k: string): (r: Option<Op>)
    ensures r.Some? ==> r.value.Target() == k && r.value in ops
  {
    if ops == [] then None
    else if ops[|ops| - 1].Target() == k then Some(ops[|ops| - 1])
    else Last(ops[..|ops| - 1], k)
  }

  function Names(ops: seq<Op>): set<string> {
    set op | op in ops :: op.Target()
  }

  lemma {:induction false} LastIffNamed(ops: seq<Op>, k: string)
    ensures Last(ops, k).Some? <==> k in Names(ops)
  {
    if ops != [] {
      LastIffNamed(ops[..|ops| - 1], k);
      assert ops == ops[..|ops| - 1] + [ops[|ops| - 1]];
    }
  }

  /** The store after the window, one key at a time: the last writer decides. */
  lemma {:induction false} FifoAt(s: Store, ops: seq<Op>, k: string)
    ensures At(ApplyAll(s, ops), k) == match Last(ops, k)
                                       case None => At(s, k)
                                       case Some(SetOp(i)) => Some(RecOf(i))
                                       case Some(DelOp(_)) => None
  {
    if ops != [] {
      FifoAt(s, ops[..|ops| - 1], k);
    }
  }

  /* ---------- what coalescing keeps ---------- */

  /** The TTL a coalesced set carries: the latest one given since the key's last delete. */
  function KeptTtl(ops: seq<Op>, k: string): Option<int> {
    if ops == [] then None
    else
      var op, before := ops[|ops| - 1], ops[..|ops| - 1];
      if op.Target() != k then KeptTtl(before, k)
      else if op.DelOp? then None
      else if op.item.ttl.Some? then op.item.ttl
      else KeptTtl(before, k)
  }

  /** The shallow merge of two column sets, either of which may be absent. */
  function Overlay(older: Option<Columns>, newer: Option<Columns>): Option<Columns> {
    if older.Some? || newer.Some? then Some(older.GetOr(map[]) + newer.GetOr(map[])) else None
  }

  /** The secondary columns a coalesced set carries: a shallow merge since the key's last delete. */
  function KeptColumns(ops: seq<Op>, k: string): Option<Columns> {
    if ops == [] then None
    else
      var op, before := ops[|ops| - 1], ops[..|ops| - 1];
      if op.Target() != k then KeptColumns(before, k)
      else if op.DelOp? then None
      else Overlay(KeptColumns(before, k), Sanitize(op.item.keys))
  }

  /** The row a coalesced flush of the window leaves for key `k`. */
  function FoldedAt(s: Store, ops: seq<Op>, k: string): Option<Rec> {
    match Last(ops, k)
    case None => At(s, k)
    case Some(DelOp(_)) => None
    case Some(SetOp(i)) =>
      Some(Rec(i.value, KeptColumns(ops, k), Deadline(i.at, KeptTtl(ops, k))))
  }

  /** A set without a TTL follows, with no delete between, a set of the same key that had one. */
  predicate InheritsTtl(ops: seq<Op>, k: string) {
    && Last(ops, k).Some?
    && Last(ops, k).value.SetOp?
    && Last(ops, k).value.item.ttl.None?
    && KeptTtl(ops, k).Some?
  }

  lemma {:induction false} KeptTtlOfLast(ops: seq<Op>, k: string)
    ensures Last(ops, k).None? ==> KeptTtl(ops, k).None? && KeptColumns(ops, k).None?
    ensures Last(ops, k).Some? && Last(ops, k).value.SetOp? && Last(ops, k).value.item.ttl.Some?
      ==> KeptTtl(ops, k) == Last(ops, k).value.item.ttl
    ensures Last(ops, k).Some? && Last(ops, k).value.DelOp? ==> KeptTtl(ops, k).None? && KeptColumns(ops, k).None?
  {
    if ops != [] && ops[|ops| - 1].Target() != k {
      KeptTtlOfLast(ops[..|ops| - 1], k);
    }
  }

  /** Coalescing keeps presence and value of every key; it keeps the expiry exactly when no TTL is
      inherited across sets of the window. */
  lemma CoalescingAgainstFifo(s: Store, ops: seq<Op>, k: string)
    ensures FoldedAt(s, ops, k).Some? <==> At(ApplyAll(s, ops), k).Some?
    ensures FoldedAt(s, ops, k).Some? ==>
              FoldedAt(s, ops, k).value.value == At(ApplyAll(s, ops), k).value.value
    ensures FoldedAt(s, ops, k).Some? ==>
              (FoldedAt(s, ops, k).value.deadline == At(ApplyAll(s, ops), k).value.deadline <==> !InheritsTtl(ops, k))
  {
  }

  /** A read through the folded row equals a read of the plain store unless a TTL was inherited and
      has run out. */
  lemma FoldedReadAgainstFifo(s: Store, ops: seq<Op>, k: string, now: int)
    ensures Live(FoldedAt(s, ops, k), now) == Live(At(ApplyAll(s, ops), k), now)
       <==> !(InheritsTtl(ops, k) && Last(ops, k).value.item.at + KeptTtl(ops, k).value <= now)
  {
    FifoAt(s, ops, k);
    KeptTtlOfLast(ops, k);
  }

  /** Inheritance does happen: set with a TTL, then set without one, in one window. */
  lemma TtlIsInherited(k: Key, v: string, w: string, ttl: int, at: int)
    ensures InheritsTtl([SetOp(Item(k, v, None, Some(ttl), at)), SetOp(Item(k, w, None, None, at))], Name(k))
  {
  }

  /** Operation `i` is a set of key `k` with no later delete of `k` in the window. */
  predicate Survives(ops: seq<Op>, k: string, i: int) {
    && 0 <= i < |ops|
    && ops[i].SetOp? && ops[i].Target() == k
    && forall j :: i < j < |ops| && ops[j].Target() == k ==> ops[j].SetOp?
  }

  /** The set at `i` is the latest surviving one that names column `c`. */
  predicate Decides(ops: seq<Op>, k: string, c: string, i: int) {
    && Survives(ops, k, i)
    && c in CleanColumns(ops[i].item)
    && forall j :: i < j < |ops| && ops[j].Target() == k && ops[j].SetOp? ==> c !in CleanColumns(ops[j].item)
  }

  function ColumnAt(columns: Option<Columns>, c: string): Option<string> {
    var m := columns.GetOr(map[]);
    if c in m then Some(m[c]) else None
  }

  /** Column `c` of the folded item is the value given by the latest surviving set that names it. */
  lemma {:induction false} KeptColumnIsLatest(ops: seq<Op>, k: string, c: string)
    ensures forall i :: Decides(ops, k, c, i) ==>
              ColumnAt(KeptColumns(ops, k), c) == Some(CleanColumns(ops[i].item)[c])
    ensures ColumnAt(KeptColumns(ops, k), c).Some? ==> exists i :: Decides(ops, k, c, i)
  {
    if ops != [] {
      var n := |ops| - 1;
      var before := ops[..n];
      KeptColumnIsLatest(before, k, c);
      if ops[n].Target() == k && ops[n].DelOp? {
      } else if ops[n].Target() == k && c in CleanColumns(ops[n].item) {
        assert Decides(ops, k, c, n);
      } else {
        forall i
          ensures Decides(ops, k, c, i) <==> Decides(before, k, c, i)
        {
          if 0 <= i < n {
            assert before[i] == ops[i];
            assert forall j :: i < j < n ==> before[j] == ops[j];
          }
        }
      }
    }
  }

  /* ---------- when the folded columns are those of the last set ---------- */

  /** The operation at `j` is the last one on `k`. */
  predicate IsLast(ops: seq<Op>, k: string, j: int) {
    0 <= j < |ops| && ops[j].Target() == k && forall m :: j < m < |ops| ==> ops[m].Target() != k
  }

  /** An earlier set that survives gave columns, and the last set gives none, or not all of them. */
  predicate Leaves(older: Item, last: Item) {
    older.keys.Some? && (last.keys.None? || exists c :: c in CleanColumns(older) && c !in CleanColumns(last))
  }

  predicate InheritsFrom(ops: seq<Op>, k: string, i: int, j: int) {
    i < j && IsLast(ops, k, j) && Survives(ops, k, i) && Leaves(ops[i].item, ops[j].item)
  }

  ghost predicate InheritsColumns(ops: seq<Op>, k: string) {
    exists i, j :: InheritsFrom(ops, k, i, j)
  }

  lemma SurvivesBefore(ops: seq<Op>, k: string, i: int)
    requires ops != [] && 0 <= i < |ops| - 1
    ensures Survives(ops, k, i)
       <==> Survives(ops[..|ops| - 1], k, i) && !(ops[|ops| - 1].Target() == k && ops[|ops| - 1].DelOp?)
  {
    var before := ops[..|ops| - 1];
    assert before[i] == ops[i];
    assert forall j :: i < j < |before| ==> before[j] == ops[j];
  }

  predicate GivesColumns(ops: seq<Op>, k: string, i: int) {
    Survives(ops, k, i) && ops[i].item.keys.Some?
  }

  predicate Gives(ops: seq<Op>, k: string, c: string, i: int) {
    Survives(ops, k, i) && c in CleanColumns(ops[i].item)
  }

  /** Columns are kept exactly if a surviving set gave some. */
  lemma {:induction false} KeptFromSurvivors(ops: seq<Op>, k: string)
    ensures KeptColumns(ops, k).Some? <==> exists i :: GivesColumns(ops, k, i)
  {
    if ops != [] {
      var n := |ops| - 1;
      KeptFromSurvivors(ops[..n], k);
      forall i | 0 <= i < n ensures GivesColumns(ops, k, i)
          <==> GivesColumns(ops[..n], k, i) && !(ops[n].Target() == k && ops[n].DelOp?)
      {
        SurvivesBefore(ops, k, i);
      }
      if ops[n].Target() == k && ops[n].SetOp? {
        assert GivesColumns(ops, k, n) <==> ops[n].item.keys.Some?;
      }
    }
  }

  lemma {:induction false} KeptColumnFromSurvivors(ops: seq<Op>, k: string, c: string)
    ensures c in KeptColumns(ops, k).GetOr(map[]) <==> exists i :: Gives(ops, k, c, i)
  {
    if ops != [] {
      var n := |ops| - 1;
      KeptColumnFromSurvivors(ops[..n], k, c);
      forall i | 0 <= i < n ensures Gives(ops, k, c, i)
          <==> Gives(ops[..n], k, c, i) && !(ops[n].Target() == k && ops[n].DelOp?)
      {
        SurvivesBefore(ops, k, i);
      }
      if ops[n].Target() == k && ops[n].SetOp? {
        assert Gives(ops, k, c, n) <==> c in CleanColumns(ops[n].item);
      }
    }
  }

  lemma OverlayIsNewer(older: Option<Columns>, newer: Option<Columns>)
    ensures Overlay(older, newer) == newer
       <==> (older.Some? ==> newer.Some?) && forall c :: c in older.GetOr(map[]) ==> c in newer.GetOr(map[])
  {
    var o, n := older.GetOr(map[]), newer.GetOr(map[]);
    if forall c :: c in o ==> c in n {
      assert o + n == n;
    } else {
      var c :| c in o && c !in n;
      assert c in o + n;
    }
  }

  lemma InheritsFromBefore(ops: seq<Op>, k: string)
    requires ops != [] && ops[|ops| - 1].SetOp? && ops[|ops| - 1].Target() == k
    ensures InheritsColumns(ops, k)
       <==> exists i :: Survives(ops[..|ops| - 1], k, i) && Leaves(ops[i].item, ops[|ops| - 1].item)
  {
    var n := |ops| - 1;
    assert IsLast(ops, k, n);
    forall i | 0 <= i < n ensures Survives(ops, k, i) <==> Survives(ops[..n], k, i) {
      SurvivesBefore(ops, k, i);
    }
    if InheritsColumns(ops, k) {
      var i, j :| InheritsFrom(ops, k, i, j);
      assert j == n && Survives(ops[..n], k, i);
    }
    if i :| Survives(ops[..n], k, i) && Leaves(ops[i].item, ops[n].item) {
      assert InheritsFrom(ops, k, i, n);
    }
  }

  lemma InheritsFromShorter(ops: seq<Op>, k: string, i: int, j: int)
    requires ops != [] && ops[|ops| - 1].Target() != k
    ensures InheritsFrom(ops, k, i, j) <==> InheritsFrom(ops[..|ops| - 1], k, i, j)
  {
    var n := |ops| - 1;
    assert !IsLast(ops, k, n);
    if 0 <= i < j < n {
      SurvivesBefore(ops, k, i);
      assert forall m :: j <= m < n ==> ops[..n][m] == ops[m];
      assert IsLast(ops, k, j) <==> IsLast(ops[..n], k, j);
    }
  }

  lemma InheritanceIsOfLast(ops: seq<Op>, k: string)
    requires ops != [] && ops[|ops| - 1].Target() != k
    ensures InheritsColumns(ops, k) <==> InheritsColumns(ops[..|ops| - 1], k)
  {
    if InheritsColumns(ops, k) {
      var i, j :| InheritsFrom(ops, k, i, j);
      InheritsFromShorter(ops, k, i, j);
    }
    if InheritsColumns(ops[..|ops| - 1], k) {
      var i, j :| InheritsFrom(ops[..|ops| - 1], k, i, j);
      InheritsFromShorter(ops, k, i, j);
    }
  }

  /** A first-in-first-out set replaces the columns: folding keeps exactly them unless it inherits some. */
  lemma {:induction false} FoldedColumns(ops: seq<Op>, k: string)
    requires Last(ops, k).Some? && Last(ops, k).value.SetOp?
    ensures KeptColumns(ops, k) == Sanitize(Last(ops, k).value.item.keys) <==> !InheritsColumns(ops, k)
  {
    var n := |ops| - 1;
    var before := ops[..n];
    if ops[n].Target() != k {
      FoldedColumns(before, k);
      InheritanceIsOfLast(ops, k);
    } else {
      var older, last := KeptColumns(before, k), ops[n].item;
      OverlayIsNewer(older, Sanitize(last.keys));
      InheritsFromBefore(ops, k);
      KeptFromSurvivors(before, k);
      if older.Some? && last.keys.None? {
        var i :| GivesColumns(before, k, i);
        assert Leaves(ops[i].item, last);
      }
      forall c | c in older.GetOr(map[]) && c !in CleanColumns(last) ensures InheritsColumns(ops, k) {
        KeptColumnFromSurvivors(before, k, c);
        var i :| Gives(before, k, c, i);
        assert Leaves(ops[i].item, last);
      }
      if i :| Survives(before, k, i) && Leaves(ops[i].item, last) {
        assert GivesColumns(before, k, i);
        if last.keys.Some? {
          var c :| c in CleanColumns(ops[i].item) && c !in CleanColumns(last);
          KeptColumnFromSurvivors(before, k, c);
          assert Gives(before, k, c, i);
        }
      }
    }
  }

  /** The columns of a coalesced row are those of the plain store exactly when every surviving set's columns
      are named by the last one too. */
  lemma ColumnsAgainstFifo(s: Store, ops: seq<Op>, k: string)
    requires FoldedAt(s, ops, k).Some? && k in Names(ops)
    ensures At(ApplyAll(s, ops), k).Some?
    ensures FoldedAt(s, ops, k).value.columns == At(ApplyAll(s, ops), k).value.columns <==> !InheritsColumns(ops, k)
  {
    LastIffNamed(ops, k);
    FifoAt(s, ops, k);
    FoldedColumns(ops, k);
  }
}
