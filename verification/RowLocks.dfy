/** Row locks of concurrent multi-row writes: every transaction locks its rows in the comparator's order,
    statement after statement, and holds them until it ends. `keys` are all keys that the callers use; one row
    may be addressed as a number by one of them and as a string by another, or, where the column is not text, by
    several strings. */
module RowLocks {
  import opened Keys

  /* ---------- the order in which one transaction locks ---------- */

  const CHUNK_SIZE := 200

  predicate Ascending(keys: seq<Key>) {
    forall i, j :: 0 <= i < j < |keys| ==> Compare(keys[i], keys[j]) <= 0
  }

  /** What `slice().sort(compareKeysDeterministic)` answers, on keys that have an ascending order at all: two
      keys always do, and so do any untangled keys. */
  predicate SortedFrom(plan: seq<Key>, keys: seq<Key>) {
    multiset(plan) == multiset(keys) && Ascending(plan)
  }

  function Flatten(chunks: seq<seq<Key>>): seq<Key> {
    if chunks == [] then [] else Flatten(chunks[..|chunks| - 1]) + chunks[|chunks| - 1]
  }

  /** The statements of one batch: their rows, one statement after the other, are the sorted rows, so the
      locks are taken in one ascending sweep however many statements there are. */
  method Chunks(sorted: seq<Key>) returns (chunks: seq<seq<Key>>)
    ensures Flatten(chunks) == sorted
    ensures forall c :: 0 <= c < |chunks| ==> 0 < |chunks[c]| <= CHUNK_SIZE
    ensures forall c :: 0 <= c < |chunks| - 1 ==> |chunks[c]| == CHUNK_SIZE
  {
    chunks := [];
    var i := 0;
    while i < |sorted|
      invariant 0 <= i
      invariant Flatten(chunks) == sorted[..if i < |sorted| then i else |sorted|]
      invariant forall c :: 0 <= c < |chunks| ==> 0 < |chunks[c]| <= CHUNK_SIZE
      invariant forall c :: 0 <= c < |chunks| - 1 ==> |chunks[c]| == CHUNK_SIZE
      invariant i < |sorted| && chunks != [] ==> |chunks[|chunks| - 1]| == CHUNK_SIZE
    {
      var end := if i + CHUNK_SIZE < |sorted| then i + CHUNK_SIZE else |sorted|;
      assert sorted[..end] == sorted[..i] + sorted[i..end];
      assert (chunks + [sorted[i..end]])[..|chunks|] == chunks;
      chunks := chunks + [sorted[i..end]];
      i := i + CHUNK_SIZE;
    }
  }

  /* ---------- transactions side by side ---------- */

  /** The row that a text stands for: a key is sent as its text, and the type of the key column decides. */
  type Column = string -> string

  /** In a text column every text is a row of its own. */
  const TEXT: Column := (text: string) => text

  function RowOf(column: Column, k: Key): string {
    column(Name(k))
  }

  /** `plan` is the order of the locks, `pos` how many are taken; a transaction that is done holds none. */
  datatype Txn = Txn(plan: seq<string>, pos: nat, done: bool)

  type State = seq<Txn>

  /** The rows of a text column are those of some of the keys, in their order. */
  ghost predicate Proper(t: Txn, keys: set<Key>) {
    && t.pos <= |t.plan|
    && (forall i :: 0 <= i < |t.plan| ==> t.plan[i] in Rows(keys))
    && forall i, j :: 0 <= i < j < |t.plan| ==> RowCompare(keys, t.plan[i], t.plan[j]) <= 0
  }

  ghost predicate AllProper(s: State, keys: set<Key>) {
    forall i :: 0 <= i < |s| ==> Proper(s[i], keys)
  }

  predicate Holds(t: Txn, row: string) {
    !t.done && t.pos <= |t.plan| && row in t.plan[..t.pos]
  }

  predicate Wants(t: Txn) {
    !t.done && t.pos < |t.plan|
  }

  function Wanted(t: Txn): string
    requires Wants(t)
  {
    t.plan[t.pos]
  }

  /** Transaction `i` waits for a row that `j` has locked. */
  predicate WaitsFor(s: State, i: nat, j: nat) {
    i < |s| && j < |s| && i != j && Wants(s[i]) && Holds(s[j], Wanted(s[i]))
  }

  predicate Blocked(s: State, i: nat) {
    exists j: nat :: j < |s| && WaitsFor(s, i, j)
  }

  /** Commit when every lock is taken, or take the next lock when no other transaction holds it. */
  predicate CanStep(s: State, i: nat) {
    i < |s| && !s[i].done && !Blocked(s, i)
  }

  function Step(s: State, i: nat): State
    requires CanStep(s, i)
  {
    if Wants(s[i]) then s[i := s[i].(pos := s[i].pos + 1)] else s[i := s[i].(done := true)]
  }

  /** No row is locked by two transactions. */
  ghost predicate Exclusive(s: State) {
    forall i, j, row :: 0 <= i < |s| && 0 <= j < |s| && Holds(s[i], row) && Holds(s[j], row) ==> i == j
  }

  /* ---------- no cycle, no deadlock ---------- */

  lemma HeldComesBefore(t: Txn, keys: set<Key>, row: string)
    requires Proper(t, keys) && Wants(t) && Holds(t, row)
    ensures row in Rows(keys) && Wanted(t) in Rows(keys) && RowCompare(keys, row, Wanted(t)) <= 0
  {
    var p :| 0 <= p < t.pos && t.plan[p] == row;
  }

  /** Whoever waits wants a smaller row than the one it waits for, if that one waits as well. */
  lemma WaitingAscends(s: State, keys: set<Key>, i: nat, j: nat)
    requires Untangled(keys) && AllProper(s, keys) && Exclusive(s)
    requires WaitsFor(s, i, j) && Wants(s[j]) && Blocked(s, j)
    ensures Wanted(s[i]) in Rows(keys) && Wanted(s[j]) in Rows(keys)
    ensures RowCompare(keys, Wanted(s[i]), Wanted(s[j])) < 0
  {
    HeldComesBefore(s[j], keys, Wanted(s[i]));
    RowsAreOrdered(keys, Wanted(s[i]), Wanted(s[j]), Wanted(s[j]));
  }

  /** A chain of waits, each transaction for the next. */
  predicate Chain(s: State, path: seq<nat>) {
    |path| > 0 && forall k :: 0 <= k < |path| - 1 ==> WaitsFor(s, path[k], path[k + 1])
  }

  lemma {:induction false} ChainAscends(s: State, keys: set<Key>, path: seq<nat>)
    requires Untangled(keys) && AllProper(s, keys) && Exclusive(s) && Chain(s, path) && |path| > 1
    requires path[|path| - 1] < |s| && Wants(s[path[|path| - 1]]) && Blocked(s, path[|path| - 1])
    ensures path[0] < |s|
    ensures var first, last := s[path[0]], s[path[|path| - 1]];
            && Wants(first) && Wanted(first) in Rows(keys) && Wanted(last) in Rows(keys)
            && RowCompare(keys, Wanted(first), Wanted(last)) < 0
  {
    var i, j := path[0], path[1];
    assert WaitsFor(s, i, j);
    if |path| == 2 {
      WaitingAscends(s, keys, i, j);
    } else {
      assert WaitsFor(s, path[1], path[2]);
      assert Chain(s, path[1..]) by {
        forall k | 0 <= k < |path[1..]| - 1 ensures WaitsFor(s, path[1..][k], path[1..][k + 1]) {
          assert WaitsFor(s, path[k + 1], path[k + 1 + 1]);
        }
      }
      ChainAscends(s, keys, path[1..]);
      WaitingAscends(s, keys, i, j);
      RowsAreOrdered(keys, Wanted(s[i]), Wanted(s[j]), Wanted(s[path[|path| - 1]]));
    }
  }

  /** No chain of waits comes back to where it began. */
  lemma NoWaitCycle(s: State, keys: set<Key>, path: seq<nat>)
    requires Untangled(keys) && AllProper(s, keys) && Exclusive(s) && Chain(s, path) && |path| > 1
    ensures path[0] != path[|path| - 1]
  {
    if path[0] == path[|path| - 1] {
      assert WaitsFor(s, path[0], path[1]);
      ChainAscends(s, keys, path);
      var row := Wanted(s[path[0]]);
      RowsAreOrdered(keys, row, row, row);
    }
  }

  ghost function WantedPlaces(s: State, keys: set<Key>): set<Key> {
    set i | 0 <= i < |s| && Wants(s[i]) :: Place(keys, Wanted(s[i]))
  }

  /** Among the waiting transactions, one that wants a greatest row. */
  lemma GreatestWanted(s: State, keys: set<Key>) returns (m: nat)
    requires Untangled(keys) && WantedPlaces(s, keys) <= Places(keys)
    requires exists i :: 0 <= i < |s| && Wants(s[i])
    ensures m < |s| && Wants(s[m]) && AtMost(WantedPlaces(s, keys), Place(keys, Wanted(s[m])))
  {
    var i :| 0 <= i < |s| && Wants(s[i]);
    assert Place(keys, Wanted(s[i])) in WantedPlaces(s, keys);
    PlacesAreStraight(keys);
    var k := Greatest(Places(keys), WantedPlaces(s, keys));
    m :| 0 <= m < |s| && Wants(s[m]) && Place(keys, Wanted(s[m])) == k;
  }

  lemma WantedArePlaces(s: State, keys: set<Key>)
    requires AllProper(s, keys)
    ensures WantedPlaces(s, keys) <= Places(keys)
  {
    forall i | 0 <= i < |s| && Wants(s[i]) ensures Place(keys, Wanted(s[i])) in Places(keys) {
      assert Proper(s[i], keys) && Wanted(s[i]) in Rows(keys);
    }
  }

  /** As long as a transaction is unfinished, one of them can take its next lock or commit. */
  lemma SomeTransactionCanStep(s: State, keys: set<Key>) returns (i: nat)
    requires Untangled(keys) && AllProper(s, keys) && Exclusive(s)
    requires exists k :: 0 <= k < |s| && !s[k].done
    ensures CanStep(s, i)
  {
    if exists k :: 0 <= k < |s| && Wants(s[k]) {
      WantedArePlaces(s, keys);
      i := GreatestWanted(s, keys);
      if Blocked(s, i) {
        var j: nat :| j < |s| && WaitsFor(s, i, j);
        if Wants(s[j]) && Blocked(s, j) {
          assert Place(keys, Wanted(s[j])) in WantedPlaces(s, keys);
          WaitingAscends(s, keys, i, j);
          RowsAreOrdered(keys, Wanted(s[i]), Wanted(s[j]), Wanted(s[j]));
          assert false;
        } else {
          i := j;
        }
      }
    } else {
      i :| 0 <= i < |s| && !s[i].done;
    }
  }

  /* ---------- every step keeps this, and brings the end nearer ---------- */

  /** No more locks are noted than there are rows in the plan. */
  predicate WithinPlans(s: State) {
    forall i :: 0 <= i < |s| ==> s[i].pos <= |s[i].plan|
  }

  /** A step locks a row that nobody else has, or ends a transaction; plans stay. */
  lemma StepKeepsLocks(s: State, i: nat)
    requires WithinPlans(s) && Exclusive(s) && CanStep(s, i)
    ensures WithinPlans(Step(s, i)) && Exclusive(Step(s, i))
    ensures |Step(s, i)| == |s| && forall j :: 0 <= j < |s| ==> Step(s, i)[j].plan == s[j].plan
  {
    var n := Step(s, i);
    if Wants(s[i]) {
      var wanted := Wanted(s[i]);
      assert n[i].plan[..n[i].pos] == s[i].plan[..s[i].pos] + [wanted];
      forall j | 0 <= j < |s| && j != i ensures !Holds(s[j], wanted) {
        assert !WaitsFor(s, i, j);
      }
      forall row ensures Holds(n[i], row) <==> Holds(s[i], row) || row == wanted {
      }
    } else {
      forall row ensures !Holds(n[i], row) {
      }
    }
    forall j, row | 0 <= j < |s| && j != i ensures Holds(n[j], row) <==> Holds(s[j], row) {
    }
  }

  lemma StepKeepsExclusive(s: State, keys: set<Key>, i: nat)
    requires AllProper(s, keys) && Exclusive(s) && CanStep(s, i)
    ensures AllProper(Step(s, i), keys) && Exclusive(Step(s, i))
  {
    StepKeepsLocks(s, i);
    forall j | 0 <= j < |s| ensures Proper(Step(s, i)[j], keys) {
      assert Proper(s[j], keys);
    }
  }

  /** Locks still to be taken, and transactions still to be ended. */
  function Remaining(s: State): nat {
    if s == [] then 0
    else
      var t := s[|s| - 1];
      Remaining(s[..|s| - 1]) + (if t.done then 0 else if t.pos <= |t.plan| then |t.plan| - t.pos + 1 else 1)
  }

  lemma {:induction false} StepRemains(s: State, i: nat, t: Txn)
    requires i < |s| && !s[i].done && s[i].pos <= |s[i].plan|
    requires t == (if Wants(s[i]) then s[i].(pos := s[i].pos + 1) else s[i].(done := true))
    ensures Remaining(s[i := t]) < Remaining(s)
  {
    var n := s[i := t];
    if i == |s| - 1 {
      assert n[..|n| - 1] == s[..|s| - 1];
    } else {
      assert n[..|n| - 1] == s[..|s| - 1][i := t];
      StepRemains(s[..|s| - 1], i, t);
    }
  }

  /** So every batch of transactions runs to its end: from any state there is a way for all to finish, and
      no run of steps is longer than the locks and commits that remain. */
  lemma {:induction false} AllFinish(s: State, keys: set<Key>) returns (steps: seq<nat>, end: State)
    requires Untangled(keys) && AllProper(s, keys) && Exclusive(s)
    ensures |steps| <= Remaining(s)
    ensures Plays(s, steps, end) && forall k :: 0 <= k < |end| ==> end[k].done
    decreases Remaining(s)
  {
    if exists k :: 0 <= k < |s| && !s[k].done {
      var i := SomeTransactionCanStep(s, keys);
      StepKeepsExclusive(s, keys, i);
      StepRemains(s, i, Step(s, i)[i]);
      assert Step(s, i) == s[i := Step(s, i)[i]];
      var rest;
      rest, end := AllFinish(Step(s, i), keys);
      steps := [i] + rest;
      assert steps[1..] == rest;
    } else {
      steps, end := [], s;
    }
  }

  predicate Plays(s: State, steps: seq<nat>, end: State)
    decreases |steps|
  {
    if steps == [] then s == end else CanStep(s, steps[0]) && Plays(Step(s, steps[0]), steps[1..], end)
  }

  /* ---------- runs from the start ---------- */

  function Start(plans: seq<seq<string>>): State {
    seq(|plans|, i requires 0 <= i < |plans| => Txn(plans[i], 0, false))
  }

  function RowsOf(column: Column, plan: seq<Key>): seq<string> {
    seq(|plan|, i requires 0 <= i < |plan| => RowOf(column, plan[i]))
  }

  function AllRows(column: Column, plans: seq<seq<Key>>): seq<seq<string>> {
    seq(|plans|, i requires 0 <= i < |plans| => RowsOf(column, plans[i]))
  }

  /** The batch is under the given keys, and its plan is what sorting makes of it. */
  ghost predicate PlanOf(keys: set<Key>, batch: seq<Key>, plan: seq<Key>) {
    SortedFrom(plan, batch) && forall k :: k in batch ==> k in keys
  }

  ghost predicate Planned(keys: set<Key>, batches: seq<seq<Key>>, plans: seq<seq<Key>>) {
    |plans| == |batches| && forall i :: 0 <= i < |batches| ==> PlanOf(keys, batches[i], plans[i])
  }

  lemma SortedIsProper(keys: set<Key>, batch: seq<Key>, plan: seq<Key>)
    requires Untangled(keys) && PlanOf(keys, batch, plan)
    ensures Proper(Txn(RowsOf(TEXT, plan), 0, false), keys)
  {
    var rows := RowsOf(TEXT, plan);
    PlanIsOfKeys(keys, batch, plan);
    forall i, j | 0 <= i < j < |plan| ensures RowCompare(keys, rows[i], rows[j]) <= 0 {
      OrderIsOfPlaces(keys, plan[i], plan[j]);
    }
  }

  lemma PlanIsOfKeys(keys: set<Key>, batch: seq<Key>, plan: seq<Key>)
    requires PlanOf(keys, batch, plan)
    ensures forall i :: 0 <= i < |plan| ==> plan[i] in keys
  {
    forall i | 0 <= i < |plan| ensures plan[i] in keys {
      assert plan[i] in multiset(plan);
      assert plan[i] in multiset(batch);
    }
  }

  /** Sorted batches start out proper and with nothing locked. */
  lemma SortedBatchesAreProper(keys: set<Key>, batches: seq<seq<Key>>, plans: seq<seq<Key>>)
    requires Untangled(keys) && Planned(keys, batches, plans)
    ensures AllProper(Start(AllRows(TEXT, plans)), keys) && Exclusive(Start(AllRows(TEXT, plans)))
  {
    forall i | 0 <= i < |plans| ensures Proper(Start(AllRows(TEXT, plans))[i], keys) {
      assert PlanOf(keys, batches[i], plans[i]);
      SortedIsProper(keys, batches[i], plans[i]);
    }
  }

  lemma {:induction false} PlayKeepsExclusive(s: State, keys: set<Key>, steps: seq<nat>, end: State)
    requires AllProper(s, keys) && Exclusive(s) && Plays(s, steps, end)
    ensures AllProper(end, keys) && Exclusive(end)
    decreases |steps|
  {
    if steps != [] {
      StepKeepsExclusive(s, keys, steps[0]);
      PlayKeepsExclusive(Step(s, steps[0]), keys, steps[1..], end);
    }
  }

  /** Somebody has not finished, and nobody can go on. */
  predicate Stuck(s: State) {
    && (exists i :: 0 <= i < |s| && !s[i].done)
    && forall i: nat :: i < |s| ==> !CanStep(s, i)
  }

  ghost predicate DeadlockedBy(column: Column, keys: set<Key>, batches: seq<seq<Key>>, plans: seq<seq<Key>>,
                               steps: seq<nat>, end: State) {
    Planned(keys, batches, plans) && Plays(Start(AllRows(column, plans)), steps, end) && Stuck(end)
  }

  /** The batches, sorted, have a run into a deadlock. */
  ghost predicate BatchesCanDeadlock(column: Column, keys: set<Key>, batches: seq<seq<Key>>) {
    exists plans, steps, end :: DeadlockedBy(column, keys, batches, plans, steps, end)
  }

  /** Some batches under the keys do. */
  ghost predicate CanDeadlock(column: Column, keys: set<Key>) {
    exists batches :: BatchesCanDeadlock(column, keys, batches)
  }

  /** Over untangled keys no run of any sorted batches gets stuck. */
  lemma UntangledNeverDeadlocks(keys: set<Key>, batches: seq<seq<Key>>, plans: seq<seq<Key>>, steps: seq<nat>, end: State)
    requires Untangled(keys)
    requires Planned(keys, batches, plans) && Plays(Start(AllRows(TEXT, plans)), steps, end)
    ensures !Stuck(end)
  {
    SortedBatchesAreProper(keys, batches, plans);
    PlayKeepsExclusive(Start(AllRows(TEXT, plans)), keys, steps, end);
    if Stuck(end) {
      var i := SomeTransactionCanStep(end, keys);
    }
  }

  /* ---------- rings of batches of two rows ---------- */

  function After(i: nat, n: nat): nat {
    if i + 1 == n then 0 else i + 1
  }

  /** Each batch wants second what the next one wants first, and all want different rows first. */
  predicate Ring(plans: seq<seq<string>>) {
    && |plans| >= 2
    && (forall i :: 0 <= i < |plans| ==> |plans[i]| == 2)
    && (forall i :: 0 <= i < |plans| ==> plans[i][1] == plans[After(i, |plans|)][0])
    && forall i, j :: 0 <= i < j < |plans| ==> plans[i][0] != plans[j][0]
  }

  /** The first `taken` transactions have one lock each. */
  function Taken(plans: seq<seq<string>>, taken: nat): State {
    seq(|plans|, i requires 0 <= i < |plans| => Txn(plans[i], if i < taken then 1 else 0, false))
  }

  function From(taken: nat, n: nat): seq<nat>
    requires taken <= n
    decreases n - taken
  {
    if taken == n then [] else [taken] + From(taken + 1, n)
  }

  lemma HeldInRing(plans: seq<seq<string>>, taken: nat, i: nat, row: string)
    requires Ring(plans) && i < |plans|
    ensures Holds(Taken(plans, taken)[i], row) <==> i < taken && row == plans[i][0]
  {
    var t := Taken(plans, taken)[i];
    assert t.plan[..t.pos] == if i < taken then [plans[i][0]] else [];
  }

  /** The next one takes its first lock: the others hold other rows, or none. */
  lemma RingGoesOn(plans: seq<seq<string>>, taken: nat)
    requires Ring(plans) && taken < |plans|
    ensures CanStep(Taken(plans, taken), taken) && Step(Taken(plans, taken), taken) == Taken(plans, taken + 1)
  {
    forall j: nat | j < |plans| ensures !WaitsFor(Taken(plans, taken), taken, j) {
      HeldInRing(plans, taken, j, plans[taken][0]);
    }
  }

  lemma {:induction false} RingRuns(plans: seq<seq<string>>, taken: nat)
    requires Ring(plans) && taken <= |plans|
    ensures Plays(Taken(plans, taken), From(taken, |plans|), Taken(plans, |plans|))
    decreases |plans| - taken
  {
    if taken < |plans| {
      RingGoesOn(plans, taken);
      RingRuns(plans, taken + 1);
      assert From(taken, |plans|)[1..] == From(taken + 1, |plans|);
    }
  }

  /** With one lock each, all wait for the next. */
  lemma RingIsStuck(plans: seq<seq<string>>)
    requires Ring(plans)
    ensures Stuck(Taken(plans, |plans|))
  {
    var s := Taken(plans, |plans|);
    forall i: nat | i < |s| ensures !CanStep(s, i) {
      HeldInRing(plans, |plans|, After(i, |plans|), plans[i][1]);
      assert WaitsFor(s, i, After(i, |plans|));
    }
    assert !s[0].done;
  }

  lemma RingDeadlocks(plans: seq<seq<string>>)
    requires Ring(plans)
    ensures Plays(Start(plans), From(0, |plans|), Taken(plans, |plans|)) && Stuck(Taken(plans, |plans|))
  {
    RingRuns(plans, 0);
    RingIsStuck(plans);
    assert Start(plans) == Taken(plans, 0);
  }

  /* ---------- rings of keys ---------- */

  datatype Pair = Pair(first: Key, second: Key)

  ghost predicate Ascends(keys: set<Key>, p: Pair) {
    p.first in keys && p.second in keys && Compare(p.first, p.second) < 0
  }

  predicate Leads(column: Column, p: Pair, q: Pair) {
    RowOf(column, p.second) == RowOf(column, q.first)
  }

  predicate Differs(column: Column, p: Pair, q: Pair) {
    RowOf(column, p.first) != RowOf(column, q.first)
  }

  /** Pairs of keys in order, each leading from the row of one to the row of the next. */
  ghost predicate KeyRing(column: Column, keys: set<Key>, ring: seq<Pair>) {
    && |ring| >= 2
    && (forall i :: 0 <= i < |ring| ==> Ascends(keys, ring[i]))
    && (forall i :: 0 <= i < |ring| ==> Leads(column, ring[i], ring[After(i, |ring|)]))
    && forall i, j :: 0 <= i < j < |ring| ==> Differs(column, ring[i], ring[j])
  }

  ghost predicate HasRing(column: Column, keys: set<Key>) {
    exists ring :: KeyRing(column, keys, ring)
  }

  function Batch(p: Pair): seq<Key> {
    [p.first, p.second]
  }

  function Batches(ring: seq<Pair>): seq<seq<Key>> {
    seq(|ring|, i requires 0 <= i < |ring| => Batch(ring[i]))
  }

  lemma PairIsPlanned(keys: set<Key>, p: Pair)
    requires Ascends(keys, p)
    ensures PlanOf(keys, Batch(p), Batch(p))
  {
    forall i, j | 0 <= i < j < 2 ensures Compare(Batch(p)[i], Batch(p)[j]) <= 0 {
      assert i == 0 && j == 1;
    }
  }

  lemma RowsOfPair(column: Column, p: Pair)
    ensures RowsOf(column, Batch(p)) == [RowOf(column, p.first), RowOf(column, p.second)]
  {
  }

  lemma RingIsPlanned(column: Column, keys: set<Key>, ring: seq<Pair>)
    requires KeyRing(column, keys, ring)
    ensures Planned(keys, Batches(ring), Batches(ring))
  {
    forall i | 0 <= i < |ring| ensures PlanOf(keys, Batches(ring)[i], Batches(ring)[i]) {
      assert Ascends(keys, ring[i]);
      PairIsPlanned(keys, ring[i]);
    }
  }

  lemma RowsOfRing(column: Column, keys: set<Key>, ring: seq<Pair>)
    requires KeyRing(column, keys, ring)
    ensures Ring(AllRows(column, Batches(ring)))
  {
    var rows := AllRows(column, Batches(ring));
    forall i | 0 <= i < |ring| ensures rows[i] == [RowOf(column, ring[i].first), RowOf(column, ring[i].second)] {
      RowsOfPair(column, ring[i]);
    }
    forall i | 0 <= i < |ring| ensures rows[i][1] == rows[After(i, |ring|)][0] {
      assert Leads(column, ring[i], ring[After(i, |ring|)]);
    }
    forall i, j | 0 <= i < j < |ring| ensures rows[i][0] != rows[j][0] {
      assert Differs(column, ring[i], ring[j]);
    }
  }

  lemma PlannedRingDeadlocks(column: Column, keys: set<Key>, plans: seq<seq<Key>>)
    requires Planned(keys, plans, plans) && Ring(AllRows(column, plans))
    ensures BatchesCanDeadlock(column, keys, plans)
  {
    var rows := AllRows(column, plans);
    RingDeadlocks(rows);
    assert DeadlockedBy(column, keys, plans, plans, From(0, |rows|), Taken(rows, |rows|));
  }

  /** The batches of a ring, one pair each, have a run into a deadlock. */
  lemma RingOfBatches(column: Column, keys: set<Key>, ring: seq<Pair>)
    requires KeyRing(column, keys, ring)
    ensures BatchesCanDeadlock(column, keys, Batches(ring))
  {
    RingIsPlanned(column, keys, ring);
    RowsOfRing(column, keys, ring);
    PlannedRingDeadlocks(column, keys, Batches(ring));
  }

  /* ---------- a deadlock is a ring ---------- */

  /** The transactions lock the rows of the plans. */
  ghost predicate Follows(s: State, column: Column, plans: seq<seq<Key>>) {
    && |s| == |plans|
    && WithinPlans(s)
    && forall i :: 0 <= i < |s| ==> s[i].plan == RowsOf(column, plans[i])
  }

  lemma {:induction false} PlayFollows(s: State, column: Column, plans: seq<seq<Key>>, steps: seq<nat>, end: State)
    requires Follows(s, column, plans) && Exclusive(s) && Plays(s, steps, end)
    ensures Follows(end, column, plans) && Exclusive(end)
    decreases |steps|
  {
    if steps != [] {
      StepKeepsLocks(s, steps[0]);
      PlayFollows(Step(s, steps[0]), column, plans, steps[1..], end);
    }
  }

  ghost function Holder(s: State, i: nat): (j: nat)
    requires Blocked(s, i)
    ensures WaitsFor(s, i, j)
  {
    var j: nat :| j < |s| && WaitsFor(s, i, j);
    j
  }

  predicate Apart(path: seq<nat>) {
    forall i, j :: 0 <= i < j < |path| ==> path[i] != path[j]
  }

  /** Unfinished transactions, each waiting for the next. */
  ghost predicate Waits(s: State, path: seq<nat>) {
    && Apart(path)
    && (forall i :: 0 <= i < |path| ==> path[i] < |s| && !s[path[i]].done && Blocked(s, path[i]))
    && forall i :: 0 <= i < |path| - 1 ==> path[i + 1] == Holder(s, path[i])
  }

  function Members(path: seq<nat>): set<nat> {
    set i | 0 <= i < |path| :: path[i]
  }

  lemma {:induction false} MembersCount(path: seq<nat>)
    requires Apart(path)
    ensures |Members(path)| == |path|
  {
    if path != [] {
      var n := |path| - 1;
      MembersCount(path[..n]);
      assert Members(path) == Members(path[..n]) + {path[n]};
    }
  }

  function Below(n: nat): (r: set<nat>)
    ensures forall i: nat :: i in r <==> i < n
    ensures |r| == n
  {
    if n == 0 then {} else Below(n - 1) + {n - 1}
  }

  lemma SubsetCount(a: set<nat>, b: set<nat>)
    requires a <= b
    ensures |a| <= |b|
  {
    assert b == a + (b - a);
  }

  lemma NotLongerThanState(s: State, path: seq<nat>)
    requires Waits(s, path)
    ensures |path| <= |s|
  {
    MembersCount(path);
    SubsetCount(Members(path), Below(|s|));
  }

  /** A cycle of waits: the last waits for the first. */
  ghost predicate Cycle(s: State, path: seq<nat>) {
    |path| > 0 && Waits(s, path) && Holder(s, path[|path| - 1]) == path[0]
  }

  lemma CutToCycle(s: State, path: seq<nat>, p: nat)
    requires Waits(s, path) && p < |path| && Holder(s, path[|path| - 1]) == path[p]
    ensures Cycle(s, path[p..])
  {
    var cycle := path[p..];
    assert forall i :: 0 <= i < |cycle| ==> cycle[i] == path[p + i];
    forall i | 0 <= i < |cycle| - 1 ensures cycle[i + 1] == Holder(s, cycle[i]) {
      assert path[p + i + 1] == Holder(s, path[p + i]);
    }
    assert cycle[|cycle| - 1] == path[|path| - 1];
  }

  lemma WaitsLonger(s: State, path: seq<nat>)
    requires Stuck(s) && Waits(s, path) && |path| > 0 && Holder(s, path[|path| - 1]) !in path
    ensures Waits(s, path + [Holder(s, path[|path| - 1])])
  {
    var next := Holder(s, path[|path| - 1]);
    assert WaitsFor(s, path[|path| - 1], next) && !CanStep(s, next);
  }

  /** In a stuck state, following the waits closes a cycle. */
  lemma {:induction false} WaitsClose(s: State, path: seq<nat>) returns (cycle: seq<nat>)
    requires Stuck(s) && Waits(s, path) && |path| > 0
    ensures Cycle(s, cycle)
    decreases |s| - |path|
  {
    var next := Holder(s, path[|path| - 1]);
    if next in path {
      var p :| 0 <= p < |path| && path[p] == next;
      CutToCycle(s, path, p);
      cycle := path[p..];
    } else {
      WaitsLonger(s, path);
      NotLongerThanState(s, path + [next]);
      cycle := WaitsClose(s, path + [next]);
    }
  }

  /** From the row that `i` waits for, its holder has an earlier key; the holder itself waits for a later one. */
  lemma WaitIsAPair(s: State, column: Column, keys: set<Key>, plans: seq<seq<Key>>, i: nat, j: nat) returns (p: Pair)
    requires Follows(s, column, plans) && Exclusive(s)
    requires WaitsFor(s, i, j) && Blocked(s, j) && Ascending(plans[j]) && forall k :: k in plans[j] ==> k in keys
    ensures Ascends(keys, p) && Wants(s[i]) && Wants(s[j])
    ensures RowOf(column, p.first) == Wanted(s[i]) && RowOf(column, p.second) == Wanted(s[j])
  {
    var at :| 0 <= at < s[j].pos && s[j].plan[at] == Wanted(s[i]);
    p := Pair(plans[j][at], plans[j][s[j].pos]);
    var other := Holder(s, j);
    assert Holds(s[other], Wanted(s[j])) && !Holds(s[j], Wanted(s[j]));
    assert Wanted(s[i]) in s[j].plan[..s[j].pos];
    if Compare(p.first, p.second) == 0 {
      EqualKeysAreOneRow(p.first, p.second);
    }
  }

  ghost predicate PairFor(s: State, column: Column, keys: set<Key>, i: nat, p: Pair) {
    && Blocked(s, i)
    && var j := Holder(s, i);
       && i < |s| && j < |s| && Wants(s[i]) && Wants(s[j])
       && Ascends(keys, p)
       && RowOf(column, p.first) == Wanted(s[i]) && RowOf(column, p.second) == Wanted(s[j])
  }

  lemma PairsOfCycle(s: State, column: Column, keys: set<Key>, plans: seq<seq<Key>>, cycle: seq<nat>, n: nat)
    returns (ring: seq<Pair>)
    requires Follows(s, column, plans) && Exclusive(s) && Stuck(s) && Waits(s, cycle) && n <= |cycle|
    requires forall j :: 0 <= j < |plans| ==> Ascending(plans[j]) && forall k :: k in plans[j] ==> k in keys
    ensures |ring| == n && forall t :: 0 <= t < n ==> PairFor(s, column, keys, cycle[t], ring[t])
  {
    if n == 0 {
      ring := [];
    } else {
      var before := PairsOfCycle(s, column, keys, plans, cycle, n - 1);
      var i := cycle[n - 1];
      assert WaitsFor(s, i, Holder(s, i)) && !CanStep(s, Holder(s, i));
      var p := WaitIsAPair(s, column, keys, plans, i, Holder(s, i));
      ring := before + [p];
    }
  }

  lemma HolderOfCycle(s: State, cycle: seq<nat>, t: nat)
    requires Cycle(s, cycle) && t < |cycle|
    ensures Blocked(s, cycle[t]) && Holder(s, cycle[t]) == cycle[After(t, |cycle|)]
  {
  }

  lemma CycleGoesOn(s: State, column: Column, keys: set<Key>, cycle: seq<nat>, ring: seq<Pair>, t: nat)
    requires Cycle(s, cycle) && |ring| == |cycle| && t < |cycle|
    requires PairFor(s, column, keys, cycle[t], ring[t])
    requires PairFor(s, column, keys, cycle[After(t, |cycle|)], ring[After(t, |cycle|)])
    ensures Ascends(keys, ring[t]) && Leads(column, ring[t], ring[After(t, |cycle|)])
  {
    HolderOfCycle(s, cycle, t);
  }

  lemma CycleIsApart(s: State, column: Column, keys: set<Key>, cycle: seq<nat>, ring: seq<Pair>, t: nat, u: nat)
    requires Exclusive(s) && Cycle(s, cycle) && |ring| == |cycle| && t < u < |cycle|
    requires PairFor(s, column, keys, cycle[t], ring[t]) && PairFor(s, column, keys, cycle[u], ring[u])
    ensures Differs(column, ring[t], ring[u])
  {
    HolderOfCycle(s, cycle, t);
    HolderOfCycle(s, cycle, u);
  }

  lemma CycleIsARing(s: State, column: Column, keys: set<Key>, cycle: seq<nat>, ring: seq<Pair>)
    requires Exclusive(s) && Cycle(s, cycle) && |ring| == |cycle|
    requires forall t :: 0 <= t < |cycle| ==> PairFor(s, column, keys, cycle[t], ring[t])
    ensures KeyRing(column, keys, ring)
  {
    var n := |cycle|;
    assert WaitsFor(s, cycle[n - 1], cycle[0]);
    forall t | 0 <= t < n ensures Ascends(keys, ring[t]) && Leads(column, ring[t], ring[After(t, n)]) {
      CycleGoesOn(s, column, keys, cycle, ring, t);
    }
    forall t, u | 0 <= t < u < n ensures Differs(column, ring[t], ring[u]) {
      CycleIsApart(s, column, keys, cycle, ring, t, u);
    }
  }

  lemma StuckHasRing(s: State, column: Column, keys: set<Key>, plans: seq<seq<Key>>)
    requires Follows(s, column, plans) && Exclusive(s) && Stuck(s)
    requires forall j :: 0 <= j < |plans| ==> Ascending(plans[j]) && forall k :: k in plans[j] ==> k in keys
    ensures HasRing(column, keys)
  {
    var i: nat :| i < |s| && !s[i].done;
    assert !CanStep(s, i);
    var cycle := WaitsClose(s, [i]);
    var ring := PairsOfCycle(s, column, keys, plans, cycle, |cycle|);
    CycleIsARing(s, column, keys, cycle, ring);
  }

  lemma DeadlockHasRing(column: Column, keys: set<Key>, batches: seq<seq<Key>>, plans: seq<seq<Key>>, steps: seq<nat>,
                        end: State)
    requires DeadlockedBy(column, keys, batches, plans, steps, end)
    ensures HasRing(column, keys)
  {
    forall j | 0 <= j < |plans| ensures Ascending(plans[j]) && forall k :: k in plans[j] ==> k in keys {
      assert PlanOf(keys, batches[j], plans[j]);
      PlanIsOfKeys(keys, batches[j], plans[j]);
    }
    PlayFollows(Start(AllRows(column, plans)), column, plans, steps, end);
    StuckHasRing(end, column, keys, plans);
  }

  /* ---------- exactly when ---------- */

  /** Whatever the key column and whatever keys the callers use: some sorted batches can deadlock exactly when the
      keys have a ring. */
  lemma DeadlocksExactlyWhenRing(column: Column, keys: set<Key>)
    ensures CanDeadlock(column, keys) <==> HasRing(column, keys)
  {
    if HasRing(column, keys) {
      var ring :| KeyRing(column, keys, ring);
      RingOfBatches(column, keys, ring);
    }
    if CanDeadlock(column, keys) {
      var batches :| BatchesCanDeadlock(column, keys, batches);
      var plans, steps, end :| DeadlockedBy(column, keys, batches, plans, steps, end);
      DeadlockHasRing(column, keys, batches, plans, steps, end);
    }
  }

  lemma ThreeAreRing(column: Column, keys: set<Key>, p: Pair, q: Pair, r: Pair)
    requires Ascends(keys, p) && Ascends(keys, q) && Ascends(keys, r)
    requires Leads(column, p, q) && Leads(column, q, r) && Leads(column, r, p)
    requires Differs(column, p, q) && Differs(column, q, r) && Differs(column, p, r)
    ensures KeyRing(column, keys, [p, q, r])
  {
    var ring := [p, q, r];
    forall i | 0 <= i < 3 ensures Ascends(keys, ring[i]) && Leads(column, ring[i], ring[After(i, 3)]) {
      assert ring[i] == if i == 0 then p else if i == 1 then q else r;
    }
    forall i, j | 0 <= i < j < 3 ensures Differs(column, ring[i], ring[j]) {
      assert (i == 0 && j == 1) || (i == 1 && j == 2) || (i == 0 && j == 2);
    }
  }

  lemma TwoAreRing(column: Column, keys: set<Key>, p: Pair, q: Pair)
    requires Ascends(keys, p) && Ascends(keys, q)
    requires Leads(column, p, q) && Leads(column, q, p) && Differs(column, p, q)
    ensures KeyRing(column, keys, [p, q])
  {
    var ring := [p, q];
    forall i | 0 <= i < 2 ensures Ascends(keys, ring[i]) && Leads(column, ring[i], ring[After(i, 2)]) {
      assert ring[i] == if i == 0 then p else q;
    }
    forall i, j | 0 <= i < j < 2 ensures Differs(column, ring[i], ring[j]) {
      assert i == 0 && j == 1;
    }
  }

  /** Three keys that form a cycle of the comparator, in a column that keeps their texts apart. */
  lemma CycleIsRing(column: Column, keys: set<Key>, a: Key, b: Key, c: Key)
    requires a in keys && b in keys && c in keys
    requires Compare(a, b) < 0 && Compare(b, c) < 0 && Compare(c, a) < 0
    requires RowOf(column, a) != RowOf(column, b) && RowOf(column, b) != RowOf(column, c)
    requires RowOf(column, c) != RowOf(column, a)
    ensures KeyRing(column, keys, [Pair(a, b), Pair(b, c), Pair(c, a)])
  {
    ThreeAreRing(column, keys, Pair(a, b), Pair(b, c), Pair(c, a));
  }

  /** Two rows, under keys of opposite order. */
  lemma OppositesAreRing(column: Column, keys: set<Key>, a: Key, b: Key, c: Key, d: Key)
    requires a in keys && b in keys && c in keys && d in keys && Compare(a, b) < 0 && Compare(c, d) < 0
    requires RowOf(column, a) == RowOf(column, d) && RowOf(column, b) == RowOf(column, c)
    requires RowOf(column, a) != RowOf(column, b)
    ensures KeyRing(column, keys, [Pair(a, b), Pair(c, d)])
  {
    TwoAreRing(column, keys, Pair(a, b), Pair(c, d));
  }

  lemma TangledHasRing(keys: set<Key>, m: Key, n: Key, s: Key)
    requires m in keys && n in keys && s in keys && Tangled(m, n, s)
    ensures HasRing(TEXT, keys)
  {
    BelowIsAnotherRow(m, n);
    if s.s == Name(n) {
      OppositesAreRing(TEXT, keys, m, n, s, m);
    } else if s.s == Name(m) {
      OppositesAreRing(TEXT, keys, m, n, n, s);
    } else {
      StraddledIsACycle(m, n, s);
      CycleIsRing(TEXT, keys, m, n, s);
    }
  }

  /** In a text column, sorting rules out deadlocks exactly when no string among the keys is the text of one of two
      numbers that stand the other way round as texts, or lies between the two. */
  lemma DeadlocksExactlyWhenTangled(keys: set<Key>)
    ensures CanDeadlock(TEXT, keys) <==> !Untangled(keys)
  {
    if !Untangled(keys) {
      var m, n, s :| m in keys && n in keys && s in keys && Tangled(m, n, s);
      TangledHasRing(keys, m, n, s);
      DeadlocksExactlyWhenRing(TEXT, keys);
    }
    if CanDeadlock(TEXT, keys) && Untangled(keys) {
      var batches :| BatchesCanDeadlock(TEXT, keys, batches);
      var plans, steps, end :| DeadlockedBy(TEXT, keys, batches, plans, steps, end);
      UntangledNeverDeadlocks(keys, batches, plans, steps, end);
    }
  }

  /** A column that keeps the texts of the keys apart is as good, or as bad, as a text column. */
  lemma SameRingsIfKeptApart(column: Column, keys: set<Key>)
    requires forall a, b :: a in keys && b in keys && RowOf(column, a) == RowOf(column, b) ==> Name(a) == Name(b)
    ensures CanDeadlock(column, keys) <==> CanDeadlock(TEXT, keys)
  {
    forall ring ensures KeyRing(column, keys, ring) <==> KeyRing(TEXT, keys, ring) {
      RingsAgree(column, keys, ring);
    }
    DeadlocksExactlyWhenRing(column, keys);
    DeadlocksExactlyWhenRing(TEXT, keys);
  }

  lemma RingsAgree(column: Column, keys: set<Key>, ring: seq<Pair>)
    requires forall a, b :: a in keys && b in keys && RowOf(column, a) == RowOf(column, b) ==> Name(a) == Name(b)
    ensures KeyRing(column, keys, ring) <==> KeyRing(TEXT, keys, ring)
  {
    if forall i :: 0 <= i < |ring| ==> Ascends(keys, ring[i]) {
      forall i, j | 0 <= i < |ring| && 0 <= j < |ring|
        ensures Leads(column, ring[i], ring[j]) <==> Leads(TEXT, ring[i], ring[j])
        ensures Differs(column, ring[i], ring[j]) <==> Differs(TEXT, ring[i], ring[j])
      {
        assert Ascends(keys, ring[i]) && Ascends(keys, ring[j]);
      }
    }
  }

  /** A table with a text key takes numbers too: these three keys are enough. */
  lemma MixedKeysDeadlock()
    ensures BatchesCanDeadlock(TEXT, {TWO, TEN, ONE_A}, Batches([Pair(TWO, TEN), Pair(TEN, ONE_A), Pair(ONE_A, TWO)]))
  {
    MixedKeysCycle();
    SmallNumbers();
    CycleIsRing(TEXT, {TWO, TEN, ONE_A}, TWO, TEN, ONE_A);
    RingOfBatches(TEXT, {TWO, TEN, ONE_A}, [Pair(TWO, TEN), Pair(TEN, ONE_A), Pair(ONE_A, TWO)]);
  }

  /** So are two rows, if one client has numbers for them and another one strings, each of one kind. */
  lemma TwoSpellingsDeadlock()
    ensures BatchesCanDeadlock(TEXT, {TWO, TEN, TWO_TEXT, TEN_TEXT}, Batches([Pair(TWO, TEN), Pair(TEN_TEXT, TWO_TEXT)]))
  {
    TwoSpellings();
    OppositesAreRing(TEXT, {TWO, TEN, TWO_TEXT, TEN_TEXT}, TWO, TEN, TEN_TEXT, TWO_TEXT);
    RingOfBatches(TEXT, {TWO, TEN, TWO_TEXT, TEN_TEXT}, [Pair(TWO, TEN), Pair(TEN_TEXT, TWO_TEXT)]);
  }

  /** Keys of one kind never deadlock in a text column. */
  lemma OneKindNeverDeadlocks(keys: set<Key>, numbers: bool)
    requires forall k :: k in keys ==> k.Num? == numbers
    ensures !CanDeadlock(TEXT, keys)
  {
    DeadlocksExactlyWhenTangled(keys);
  }

  /** An integer column reads "02" and "2" as one row, and then strings alone are enough. */
  lemma IntegerColumnDeadlock(column: Column)
    requires column("02") == column("2") != column("1")
    ensures var a, b, c := Str("02"), Str("1"), Str("2");
            BatchesCanDeadlock(column, {a, b, c}, Batches([Pair(a, b), Pair(b, c)]))
  {
    var a, b, c := Str("02"), Str("1"), Str("2");
    OppositesAreRing(column, {a, b, c}, a, b, b, c);
    RingOfBatches(column, {a, b, c}, [Pair(a, b), Pair(b, c)]);
  }
}
