/** Read-modify-write on Redis: a script compares and swaps, and a loop tries again. */
module RedisUpdate {
  import opened Basics
  import opened Documents
  import JsonText
  import JsonRoundTrip

  const MAX_ATTEMPTS := 50

  const NIL := "__KVDB_NIL__"

  /* ---------- one key, as the server holds it ---------- */

  datatype Entry = Entry(value: string, deadline: Option<int>)

  type Slot = Option<Entry>

  /** An expired entry is not there. */
  function Visible(slot: Slot, now: int): Option<string> {
    if slot.Some? && (slot.value.deadline.Some? ==> now < slot.value.deadline.value) then Some(slot.value.value) else None
  }

  /** What PTTL answers: -2 for no key, -1 for no deadline. */
  function Pttl(slot: Slot, now: int): int {
    if Visible(slot, now).None? then -2
    else if slot.value.deadline.None? then -1
    else slot.value.deadline.value - now
  }

  datatype Reply = Swapped | Conflict(actual: string, pttl: int)

  function Argument(expected: Option<string>): string {
    match expected
    case None => NIL
    case Some(v) => v
  }

  /** The script, run as one step. A negative `ttl` means none, and zero deletes. */
  function Cas(slot: Slot, now: int, expected: string, value: string, ttl: int): (Slot, Reply) {
    var current := Visible(slot, now);
    if (expected == NIL && current.Some?) || (expected != NIL && current != Some(expected)) then
      (slot, Conflict(Argument(current), Pttl(slot, now)))
    else if ttl == 0 then (None, Swapped)
    else if ttl > 0 then (Some(Entry(value, Some(now + ttl))), Swapped)
    else (Some(Entry(value, None)), Swapped)
  }

  /* ---------- mutators ---------- */

  /** What the caller's function is shown: the value, and how long it still has, if that is limited. */
  datatype Seen = Nothing | Found(value: string, ttl: Option<int>)

  datatype Change = Write(value: string, ttl: Option<int>) | Abort

  type Mutator = Seen -> Change

  function SeenAs(raw: Option<string>, pttl: int): Seen {
    match raw
    case None => Nothing
    case Some(v) => Found(v, if pttl > 0 then Some(pttl) else None)
  }

  function TtlArgument(ttl: Option<int>): int {
    match ttl
    case None => -1
    case Some(t) => if t < 0 then 0 else t
  }

  /** What stands at the key once the change is written. */
  function Written(c: Change, now: int): Slot
    requires c.Write?
  {
    match c.ttl
    case None => Some(Entry(c.value, None))
    case Some(t) => if t <= 0 then None else Some(Entry(c.value, Some(now + t)))
  }

  /* ---------- the script against its purpose ---------- */

  /** The script swaps exactly when the key still holds what was expected. */
  lemma SwapsExactlyWhenUnchanged(slot: Slot, now: int, expected: Option<string>, c: Change)
    requires expected != Some(NIL) && c.Write?
    ensures var r := Cas(slot, now, Argument(expected), c.value, TtlArgument(c.ttl));
            if Visible(slot, now) == expected then r == (Written(c, now), Swapped)
            else r == (slot, Conflict(Argument(Visible(slot, now)), Pttl(slot, now)))
  {
  }

  /** No canonical text is taken for the sign that means no value. */
  lemma CanonicalTextIsNotNil(j: Json)
    requires JsonText.Writable(j)
    ensures JsonText.Emit(j) != NIL
  {
    var text := JsonText.Emit(j);
    match j
    case Num(n) => JsonRoundTrip.NumberStarts(n);
    case _ =>
    assert NIL[0] == '_';
  }

  /** If that text is stored all the same, no update can ever be committed on it. */
  lemma NilTextIsStuck(slot: Slot, now: int, value: string, ttl: int)
    requires Visible(slot, now) == Some(NIL)
    ensures Cas(slot, now, Argument(Visible(slot, now)), value, ttl) == (slot, Conflict(NIL, Pttl(slot, now)))
  {
  }

  /* ---------- the retry loop, with the rest of the world moving between its commands ---------- */

  /** What is at the key when a command runs. */
  datatype Moment = Moment(slot: Slot, now: int)

  function At(m: Moment): Option<string> {
    Visible(m.slot, m.now)
  }

  datatype Outcome = Committed(attempt: nat) | Aborted(attempt: nat) | Exhausted

  class Redis {
    var slot: Slot

    constructor ()
      ensures slot == None
    {
      slot := None;
    }

    /** The script on the server; other clients have brought the key to `m` by now. */
    method Eval(m: Moment, expected: string, value: string, ttl: int) returns (reply: Reply)
      modifies this
      ensures (slot, reply) == Cas(m.slot, m.now, expected, value, ttl)
    {
      slot := m.slot;
      var current := Visible(slot, m.now);
      if (expected == NIL && current.Some?) || (expected != NIL && current != Some(expected)) {
        return Conflict(Argument(current), Pttl(slot, m.now));
      }
      if ttl >= 0 {
        if ttl == 0 {
          slot := None;
        } else {
          slot := Some(Entry(value, Some(m.now + ttl)));
        }
      } else {
        slot := Some(Entry(value, None));
      }
      return Swapped;
    }

    /** `moments[0]` is when the key is first read, `moments[i + 1]` when attempt i reaches the server. The
        update commits at the first attempt that finds the value as it last saw it, writing the mutator's
        answer to that value; it gives up exactly when every one of its attempts finds another value. */
    method Update(mutate: Mutator, moments: seq<Moment>) returns (r: Outcome)
      requires |moments| == MAX_ATTEMPTS + 1
      requires forall i :: 0 <= i < |moments| ==> At(moments[i]) != Some(NIL)
      modifies this
      ensures match r
              case Committed(k) =>
                && k < MAX_ATTEMPTS
                && (forall i :: 0 <= i < k ==> At(moments[i]) != At(moments[i + 1]))
                && At(moments[k]) == At(moments[k + 1])
                && var c := mutate(SeenAs(At(moments[k]), Pttl(moments[k].slot, moments[k].now)));
                   c.Write? && slot == Written(c, moments[k + 1].now)
              case Aborted(k) =>
                && k < MAX_ATTEMPTS
                && slot == (if k == 0 then old(slot) else moments[k].slot)
                && mutate(SeenAs(At(moments[k]), Pttl(moments[k].slot, moments[k].now))).Abort?
              case Exhausted =>
                && slot == moments[MAX_ATTEMPTS].slot
                && forall i :: 0 <= i < MAX_ATTEMPTS ==> At(moments[i]) != At(moments[i + 1])
    {
      var expectedRaw := At(moments[0]);
      var expectedTtl := Pttl(moments[0].slot, moments[0].now);
      for attempt := 0 to MAX_ATTEMPTS
        invariant expectedRaw == At(moments[attempt])
        invariant expectedTtl == Pttl(moments[attempt].slot, moments[attempt].now)
        invariant slot == if attempt == 0 then old(slot) else moments[attempt].slot
        invariant forall i :: 0 <= i < attempt ==> At(moments[i]) != At(moments[i + 1])
      {
        var next := mutate(SeenAs(expectedRaw, expectedTtl));
        if next.Abort? {
          return Aborted(attempt);
        }
        var m := moments[attempt + 1];
        SwapsExactlyWhenUnchanged(m.slot, m.now, expectedRaw, next);
        var reply := Eval(m, Argument(expectedRaw), next.value, TtlArgument(next.ttl));
        if reply.Swapped? {
          return Committed(attempt);
        }
        expectedRaw := if reply.actual == NIL then None else Some(reply.actual);
        expectedTtl := reply.pttl;
      }
      return Exhausted;
    }
  }

  /* ---------- many updaters at once ---------- */

  type Client = nat

  datatype Phase = Idle | Trying(mutate: Mutator, expected: Option<string>, ttl: int, attempt: nat) | Done | GaveUp

  /** A committed update: what stood at the key before it, what its mutator was, and what stands there now. */
  datatype Commit = Commit(client: Client, mutate: Mutator, before: Option<string>, ttl: int, after: Option<string>)

  datatype State = State(now: int, slot: Slot, clients: map<Client, Phase>, commits: seq<Commit>)

  datatype Event =
    | Tick(ms: nat)
    | Set(value: string, ttl: Option<int>)
    | Delete
    | Begin(client: Client, mutate: Mutator, pttl: int)
    | Attempt(client: Client)

  function PhaseOf(s: State, c: Client): Phase {
    if c in s.clients then s.clients[c] else Idle
  }

  /** Plain writers store canonical texts, and an update begins by reading; the TTL read beside the value
      can be from another moment. */
  predicate Enabled(s: State, e: Event) {
    match e
    case Set(value, _) => value != NIL
    case Begin(c, _, _) => PhaseOf(s, c).Idle?
    case Attempt(c) => PhaseOf(s, c).Trying?
    case _ => true
  }

  function Attempted(s: State, c: Client, p: Phase): State
    requires p.Trying?
  {
    var next := p.mutate(SeenAs(p.expected, p.ttl));
    if p.attempt >= MAX_ATTEMPTS || next.Abort? then s.(clients := s.clients[c := GaveUp])
    else
      var (slot, reply) := Cas(s.slot, s.now, Argument(p.expected), next.value, TtlArgument(next.ttl));
      match reply
      case Swapped =>
        s.(slot := slot, clients := s.clients[c := Done],
           commits := s.commits + [Commit(c, p.mutate, Visible(s.slot, s.now), p.ttl, Visible(slot, s.now))])
      case Conflict(actual, pttl) =>
        var expected := if actual == NIL then None else Some(actual);
        s.(clients := s.clients[c := Trying(p.mutate, expected, pttl, p.attempt + 1)])
  }

  function Next(s: State, e: Event): State
    requires Enabled(s, e)
  {
    match e
    case Tick(ms) => s.(now := s.now + ms)
    case Set(value, ttl) => s.(slot := Written(Write(value, ttl), s.now))
    case Delete => s.(slot := None)
    case Begin(c, mutate, pttl) =>
      s.(clients := s.clients[c := Trying(mutate, Visible(s.slot, s.now), pttl, 0)])
    case Attempt(c) => Attempted(s, c, PhaseOf(s, c))
  }

  /** Every committed update wrote its mutator's answer to the value that stood there immediately before. */
  predicate Honest(c: Commit) {
    var change := c.mutate(SeenAs(c.before, c.ttl));
    && change.Write?
    && c.after == if change.ttl.Some? && change.ttl.value <= 0 then None else Some(change.value)
  }

  /** The mutators write canonical texts. */
  ghost predicate Sound(mutate: Mutator) {
    forall seen :: mutate(seen).Write? ==> mutate(seen).value != NIL
  }

  ghost predicate Inv(s: State) {
    && Visible(s.slot, s.now) != Some(NIL)
    && (s.slot.Some? ==> s.slot.value.value != NIL)
    && (forall c :: c in s.clients && s.clients[c].Trying? ==> Sound(s.clients[c].mutate) && s.clients[c].expected != Some(NIL))
    && (forall i :: 0 <= i < |s.commits| ==> Honest(s.commits[i]))
    && (forall i :: 0 <= i < |s.commits| ==> PhaseOf(s, s.commits[i].client).Done?)
    && (forall i, j :: 0 <= i < j < |s.commits| ==> s.commits[i].client != s.commits[j].client)
  }

  ghost predicate Sober(e: Event) {
    e.Begin? ==> Sound(e.mutate)
  }

  /** Nothing is written; the client expects what is there now. */
  function AfterConflict(s: State, c: Client): State
    requires PhaseOf(s, c).Trying?
  {
    var p := PhaseOf(s, c);
    s.(clients := s.clients[c := Trying(p.mutate, Visible(s.slot, s.now), Pttl(s.slot, s.now), p.attempt + 1)])
  }

  /** The mutator's answer to what the client expected is written. */
  function AfterSwap(s: State, c: Client): State
    requires PhaseOf(s, c).Trying?
    requires PhaseOf(s, c).mutate(SeenAs(PhaseOf(s, c).expected, PhaseOf(s, c).ttl)).Write?
  {
    var p := PhaseOf(s, c);
    var slot := Written(p.mutate(SeenAs(p.expected, p.ttl)), s.now);
    s.(slot := slot, clients := s.clients[c := Done],
       commits := s.commits + [Commit(c, p.mutate, p.expected, p.ttl, Visible(slot, s.now))])
  }

  lemma ConflictKeepsInv(s: State, c: Client)
    requires Inv(s) && PhaseOf(s, c).Trying? && PhaseOf(s, c).attempt < MAX_ATTEMPTS
    requires PhaseOf(s, c).mutate(SeenAs(PhaseOf(s, c).expected, PhaseOf(s, c).ttl)).Write?
    requires Visible(s.slot, s.now) != PhaseOf(s, c).expected
    ensures Attempted(s, c, PhaseOf(s, c)) == AfterConflict(s, c)
    ensures Inv(Attempted(s, c, PhaseOf(s, c)))
  {
  }

  lemma SwapKeepsInv(s: State, c: Client)
    requires Inv(s) && PhaseOf(s, c).Trying? && PhaseOf(s, c).attempt < MAX_ATTEMPTS
    requires PhaseOf(s, c).mutate(SeenAs(PhaseOf(s, c).expected, PhaseOf(s, c).ttl)).Write?
    requires Visible(s.slot, s.now) == PhaseOf(s, c).expected
    ensures Attempted(s, c, PhaseOf(s, c)) == AfterSwap(s, c)
    ensures Inv(Attempted(s, c, PhaseOf(s, c)))
  {
  }

  lemma StepKeepsInv(s: State, e: Event)
    requires Inv(s) && Enabled(s, e) && Sober(e)
    ensures Inv(Next(s, e))
  {
    if e.Attempt? {
      var p := PhaseOf(s, e.client);
      if p.attempt < MAX_ATTEMPTS && p.mutate(SeenAs(p.expected, p.ttl)).Write? {
        if Visible(s.slot, s.now) == p.expected {
          SwapKeepsInv(s, e.client);
        } else {
          ConflictKeepsInv(s, e.client);
        }
      }
    }
  }

  datatype Run = Start(slot: Slot, now: int) | Then(before: Run, event: Event)

  function Initial(slot: Slot, now: int): State {
    State(now, slot, map[], [])
  }

  function StateOf(run: Run): State
    decreases run
  {
    match run
    case Start(slot, now) => Initial(slot, now)
    case Then(before, event) => if Enabled(StateOf(before), event) then Next(StateOf(before), event) else StateOf(before)
  }

  /** A run from a canonical text or nothing, by canonical writers. */
  ghost predicate Canonical(run: Run)
    decreases run
  {
    match run
    case Start(slot, _) => slot.Some? ==> slot.value.value != NIL
    case Then(before, event) => Canonical(before) && Enabled(StateOf(before), event) && Sober(event)
  }

  lemma {:induction false} InvariantAlways(run: Run)
    requires Canonical(run)
    ensures Inv(StateOf(run))
    decreases run
  {
    match run
    case Start(_, _) =>
    case Then(before, event) =>
      InvariantAlways(before);
      StepKeepsInv(StateOf(before), event);
  }

  /** Whatever updaters, plain writers and expiries do in between: a committed update wrote its mutator's
      answer to the value it replaced, no update commits twice, and one that gave up has not committed. */
  lemma UpdatesLoseNothing(run: Run, i: nat)
    requires Canonical(run) && i < |StateOf(run).commits|
    ensures Honest(StateOf(run).commits[i])
    ensures PhaseOf(StateOf(run), StateOf(run).commits[i].client).Done?
    ensures forall j :: 0 <= j < |StateOf(run).commits| && j != i ==>
              StateOf(run).commits[j].client != StateOf(run).commits[i].client
  {
    InvariantAlways(run);
  }

  /** An attempt that does not commit leaves the key as it is. */
  lemma FailedAttemptHasNoEffect(run: Run, c: Client)
    requires Canonical(run) && PhaseOf(StateOf(run), c).Trying?
    ensures var s := StateOf(run);
            var n := Next(s, Attempt(c));
            n.commits == s.commits ==> n.slot == s.slot
  {
  }

  /* ---------- counters ---------- */

  /** A reading of stored texts as counts; nothing stored counts as zero. */
  type Count = string -> int

  function Total(count: Count, raw: Option<string>): int {
    match raw
    case None => 0
    case Some(v) => count(v)
  }

  /** The mutator stores the next count, without a time limit. */
  ghost predicate AddsOne(count: Count, mutate: Mutator) {
    && Sound(mutate)
    && forall seen: Seen ::
         mutate(seen).Write? && mutate(seen).ttl.None?
         && count(mutate(seen).value) == (if seen.Nothing? then 0 else count(seen.value)) + 1
  }

  /** Only counting updates touch the key. */
  ghost predicate Counting(count: Count, run: Run)
    decreases run
  {
    match run
    case Start(slot, _) => slot.Some? ==> slot.value.deadline.None? && slot.value.value != NIL
    case Then(before, event) =>
      && Counting(count, before)
      && Enabled(StateOf(before), event)
      && (event.Tick? || event.Attempt? || (event.Begin? && AddsOne(count, event.mutate)))
  }

  lemma {:induction false} CountingIsCanonical(count: Count, run: Run)
    requires Counting(count, run)
    ensures Canonical(run)
    decreases run
  {
    match run
    case Start(_, _) =>
    case Then(before, _) => CountingIsCanonical(count, before);
  }

  ghost predicate CountInv(count: Count, start: Option<string>, s: State) {
    && (s.slot.Some? ==> s.slot.value.deadline.None?)
    && (forall c :: c in s.clients && s.clients[c].Trying? ==> AddsOne(count, s.clients[c].mutate))
    && Total(count, Visible(s.slot, s.now)) == Total(count, start) + |s.commits|
  }

  lemma AttemptCounts(count: Count, start: Option<string>, s: State, c: Client)
    requires Inv(s) && CountInv(count, start, s) && PhaseOf(s, c).Trying?
    ensures CountInv(count, start, Next(s, Attempt(c)))
  {
  }

  function StartOf(run: Run): Option<string>
    decreases run
  {
    match run
    case Start(slot, now) => Visible(slot, now)
    case Then(before, _) => StartOf(before)
  }

  /** However they interleave and however often they have to try again, k committed increments add k. */
  lemma {:induction false} IncrementsAddUp(count: Count, run: Run)
    requires Counting(count, run)
    ensures CountInv(count, StartOf(run), StateOf(run))
    decreases run
  {
    match run
    case Start(_, _) =>
    case Then(before, event) =>
      var s := StateOf(before);
      IncrementsAddUp(count, before);
      CountingIsCanonical(count, before);
      InvariantAlways(before);
      if event.Attempt? {
        AttemptCounts(count, StartOf(before), s, event.client);
      }
  }
}
