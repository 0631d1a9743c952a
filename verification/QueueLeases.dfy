/** Queue leases: every call is a read and a later write, and the calls of all workers interleave. */
module QueueLeases {
  import opened Basics

  type JobId = string

  /** `randomUUID()`: no two are alike. */
  type Token = nat

  type CallId = nat

  /* ---------- job records ---------- */

  datatype JobState = Waiting | Active | Delayed | Completed | Failed

  datatype Backoff = Fixed(delay: int) | Exponential(delay: int)

  datatype Job = Job(
    state: JobState, priority: int, runAt: int, createdAt: int, attempts: nat, maxAttempts: int,
    token: Option<Token>, lockedUntil: Option<int>, backoff: Backoff, removeOnComplete: bool)

  function Power2(n: nat): nat {
    if n == 0 then 1 else 2 * Power2(n - 1)
  }

  function Delay(backoff: Backoff, attempts: nat): int {
    match backoff
    case Fixed(delay) => delay
    case Exponential(delay) => delay * Power2(if attempts == 0 then 0 else attempts - 1)
  }

  /** What `pop` asks for in its query. */
  predicate Ready(j: Job, now: int) {
    match j.state
    case Waiting => j.runAt <= now
    case Delayed => j.runAt <= now
    case Active => j.lockedUntil.Some? && j.lockedUntil.value <= now
    case _ => false
  }

  /** What `pop` asks for again inside the atomic update; a waiting job's time is not looked at twice. */
  predicate Claimable(j: Job, now: int) {
    match j.state
    case Waiting => true
    case Delayed => true
    case Active => j.lockedUntil.Some? && j.lockedUntil.value <= now
    case _ => false
  }

  function Claimed(j: Job, now: int, visibility: int, token: Token): Job {
    j.(state := Active, token := Some(token), lockedUntil := Some(now + visibility), attempts := j.attempts + 1)
  }

  function Settled(j: Job, state: JobState): Job {
    j.(state := state, token := None, lockedUntil := None)
  }

  /* ---------- calls in progress ---------- */

  /** What a call has read and is about to write, whatever the record is by then. */
  datatype Write =
    | AckWrite(id: JobId, token: Token, remove: bool)
    | NackWrite(id: JobId, token: Token, retryAt: Option<int>)
    | BeatWrite(id: JobId, token: Token, until: int)
    | RetryWrite(id: JobId, at: int)
    | CleanWrite(ids: set<JobId>)

  datatype Request =
    | Ack(id: JobId, token: Token)
    | Nack(id: JobId, token: Token)
    | Heartbeat(id: JobId, token: Token, extend: int)
    | RetryFailed(id: JobId)
    | Clean(ids: set<JobId>)

  /** What a worker believes it holds. */
  datatype Lease = Lease(id: JobId, until: int, over: bool)

  datatype Popping = Popping(now: int, visibility: int)

  datatype State = State(
    clock: int, jobs: map<JobId, Job>, leases: map<Token, Lease>, popping: map<CallId, Popping>, pending: map<CallId, Write>)

  datatype Event =
    | Tick(ms: nat)
    | Push(id: JobId, job: Job)
    | PopRead(call: CallId, visibility: int)
    | PopClaim(call: CallId, id: JobId, token: Token)
    | Begin(call: CallId, request: Request, now: int)
    | Finish(call: CallId)

  predicate Fresh(j: Job) {
    (j.state == Waiting || j.state == Delayed) && j.token == None && j.lockedUntil == None && j.attempts == 0
  }

  predicate Enabled(s: State, e: Event) {
    match e
    case Tick(_) => true
    case Push(_, job) => Fresh(job)
    case PopRead(call, _) => call !in s.popping && call !in s.pending
    case PopClaim(call, _, token) => call in s.popping && token !in s.leases
    case Begin(call, _, now) => call !in s.popping && call !in s.pending && now <= s.clock
    case Finish(call) => call in s.pending
  }

  predicate Holds(jobs: map<JobId, Job>, id: JobId, token: Token) {
    id in jobs && jobs[id].token == Some(token)
  }

  /** The read half: None when the call ends there, with `false` or an error. `now` is the clock as the call
      took it before it waited for the record. */
  function Read(now: int, jobs: map<JobId, Job>, r: Request): Option<Write> {
    match r
    case Ack(id, token) => if Holds(jobs, id, token) then Some(AckWrite(id, token, jobs[id].removeOnComplete)) else None
    case Nack(id, token) =>
      if Holds(jobs, id, token) then
        var j := jobs[id];
        Some(NackWrite(id, token, if j.attempts >= j.maxAttempts then None else Some(now + Delay(j.backoff, j.attempts))))
      else None
    case Heartbeat(id, token, extend) => if Holds(jobs, id, token) then Some(BeatWrite(id, token, now + extend)) else None
    case RetryFailed(id) => if id in jobs && jobs[id].state == Failed then Some(RetryWrite(id, now)) else None
    case Clean(ids) =>
      Some(CleanWrite(set id | id in ids && id in jobs && (jobs[id].state == Completed || jobs[id].state == Failed)))
  }

  /** The record after a write that updates one; the columns a write does not name stay. */
  function Updated(j: Job, w: Write): Job {
    match w
    case AckWrite(_, _, _) => Settled(j, Completed)
    case NackWrite(_, _, None) => Settled(j, Failed)
    case NackWrite(_, _, Some(at)) => Settled(j, Delayed).(runAt := at)
    case BeatWrite(_, _, until) => j.(lockedUntil := Some(until))
    case RetryWrite(_, at) => j.(state := Waiting, runAt := at, attempts := 0)
    case CleanWrite(_) => j
  }

  /** The write half. Updating a record that is gone throws and changes nothing. */
  function JobsAfter(jobs: map<JobId, Job>, w: Write): map<JobId, Job> {
    match w
    case CleanWrite(ids) => map id | id in jobs && id !in ids :: jobs[id]
    case AckWrite(id, _, remove) =>
      if id !in jobs then jobs else if remove then jobs - {id} else jobs[id := Updated(jobs[id], w)]
    case NackWrite(id, _, _) => if id in jobs then jobs[id := Updated(jobs[id], w)] else jobs
    case BeatWrite(id, _, _) => if id in jobs then jobs[id := Updated(jobs[id], w)] else jobs
    case RetryWrite(id, _) => if id in jobs then jobs[id := Updated(jobs[id], w)] else jobs
  }

  /** What the caller believes afterwards: its lease is over, or reaches to the new time. */
  function LeasesAfter(jobs: map<JobId, Job>, leases: map<Token, Lease>, w: Write): map<Token, Lease> {
    match w
    case AckWrite(_, token, _) => if token in leases then leases[token := leases[token].(over := true)] else leases
    case NackWrite(_, token, _) => if token in leases then leases[token := leases[token].(over := true)] else leases
    case BeatWrite(id, token, until) =>
      if token in leases && id in jobs then leases[token := leases[token].(until := until)] else leases
    case _ => leases
  }

  function Next(s: State, e: Event): State
    requires Enabled(s, e)
  {
    match e
    case Tick(ms) => s.(clock := s.clock + ms)
    case Push(id, job) => s.(jobs := s.jobs[id := job])
    case PopRead(call, visibility) => s.(popping := s.popping[call := Popping(s.clock, visibility)])
    case PopClaim(call, id, token) =>
      var p := s.popping[call];
      if id in s.jobs && Claimable(s.jobs[id], p.now) then
        s.(jobs := s.jobs[id := Claimed(s.jobs[id], p.now, p.visibility, token)],
           leases := s.leases[token := Lease(id, p.now + p.visibility, false)],
           popping := s.popping - {call})
      else s
    case Begin(call, request, now) =>
      (match Read(now, s.jobs, request)
       case None => s
       case Some(w) => s.(pending := s.pending[call := w]))
    case Finish(call) =>
      var w := s.pending[call];
      s.(jobs := JobsAfter(s.jobs, w), leases := LeasesAfter(s.jobs, s.leases, w), pending := s.pending - {call})
  }

  /* ---------- safety ---------- */

  predicate Live(s: State, t: Token) {
    t in s.leases && !s.leases[t].over && s.clock < s.leases[t].until
  }

  /** The record agrees: active, this worker's, for as long as the worker thinks. */
  predicate Backed(s: State, t: Token)
    requires t in s.leases
  {
    var id := s.leases[t].id;
    && id in s.jobs
    && s.jobs[id].state == Active
    && s.jobs[id].token == Some(t)
    && s.jobs[id].lockedUntil.Some?
    && s.leases[t].until <= s.jobs[id].lockedUntil.value
  }

  /** Every live lease is backed by its record. */
  ghost predicate Safe(s: State) {
    forall t :: Live(s, t) ==> Backed(s, t)
  }

  /** A token in a record is that of a lease on the same job. */
  predicate TokensKnown(s: State) {
    forall id :: id in s.jobs && s.jobs[id].token.Some? ==>
      s.jobs[id].token.value in s.leases && s.leases[s.jobs[id].token.value].id == id
  }

  /** A write that carries a token carries one of a lease on its job. */
  predicate Owned(s: State, w: Write) {
    match w
    case AckWrite(id, token, _) => token in s.leases && s.leases[token].id == id
    case NackWrite(id, token, _) => token in s.leases && s.leases[token].id == id
    case BeatWrite(id, token, _) => token in s.leases && s.leases[token].id == id
    case _ => true
  }

  ghost predicate Inv(s: State) {
    && Safe(s)
    && TokensKnown(s)
    && (forall c :: c in s.popping ==> s.popping[c].now <= s.clock)
    && (forall c :: c in s.pending ==> Owned(s, s.pending[c]))
  }

  /** At most one live lease for a job. */
  lemma OneHolder(s: State, t: Token, u: Token)
    requires Safe(s) && Live(s, t) && Live(s, u) && s.leases[t].id == s.leases[u].id
    ensures t == u
  {
  }

  /* ---------- which writes are harmless ---------- */

  /** Some worker other than `mine` holds a live lease on the job. */
  ghost predicate HeldByOther(s: State, id: JobId, mine: Option<Token>) {
    exists t :: Live(s, t) && s.leases[t].id == id && mine != Some(t)
  }

  /** A write leaves every live lease backed: it touches no job that another worker holds, and a heartbeat
      neither shortens another's lease nor revives one that the record has given away. */
  ghost predicate HarmlessWrite(s: State, w: Write) {
    match w
    case AckWrite(id, token, _) => !HeldByOther(s, id, Some(token))
    case NackWrite(id, token, _) => !HeldByOther(s, id, Some(token))
    case BeatWrite(id, token, until) =>
      && (forall t :: Live(s, t) && s.leases[t].id == id && t != token ==> s.leases[t].until <= until)
      && (id in s.jobs && token in s.leases && !s.leases[token].over && s.clock < until ==>
            s.jobs[id].state == Active && s.jobs[id].token == Some(token))
    case RetryWrite(id, _) => !HeldByOther(s, id, None)
    case CleanWrite(ids) => forall id :: id in ids ==> !HeldByOther(s, id, None)
  }

  ghost predicate Harmless(s: State, e: Event)
    requires Enabled(s, e)
  {
    match e
    case Push(id, _) => !HeldByOther(s, id, None)
    case Finish(call) => HarmlessWrite(s, s.pending[call])
    case _ => true
  }

  /* ---------- one step ---------- */

  lemma QuietStepKeepsSafe(s: State, e: Event)
    requires Inv(s) && Enabled(s, e) && (e.Tick? || e.PopRead? || e.Begin?)
    ensures Safe(Next(s, e))
  {
    var n := Next(s, e);
    forall t | Live(n, t) ensures Backed(n, t) {
      assert Live(s, t);
    }
  }

  lemma PushKeepsSafeExactlyWhen(s: State, e: Event)
    requires Inv(s) && Enabled(s, e) && e.Push?
    ensures Safe(Next(s, e)) <==> Harmless(s, e)
  {
    var n := Next(s, e);
    forall t ensures Live(n, t) <==> Live(s, t) {
    }
    if Harmless(s, e) {
      forall t | Live(n, t) ensures Backed(n, t) {
        assert Backed(s, t);
      }
    } else {
      var t :| Live(s, t) && s.leases[t].id == e.id;
      assert Live(n, t) && !Backed(n, t);
    }
  }

  /** A claim finds no live lease on the job: what makes the record claimable at an earlier clock value
      makes any lease on it dead by now. */
  lemma ClaimKeepsSafe(s: State, e: Event)
    requires Inv(s) && Enabled(s, e) && e.PopClaim?
    ensures Safe(Next(s, e))
  {
    var n := Next(s, e);
    forall t | Live(n, t) ensures Backed(n, t) {
      if t != e.token {
        assert Live(s, t) && Backed(s, t);
      }
    }
  }

  lemma SettlingKeepsSafeExactlyWhen(s: State, w: Write, n: State)
    requires Inv(s) && Owned(s, w) && (w.AckWrite? || w.NackWrite?)
    requires n == s.(jobs := JobsAfter(s.jobs, w), leases := LeasesAfter(s.jobs, s.leases, w), pending := n.pending)
    ensures Safe(n) <==> HarmlessWrite(s, w)
  {
    forall t ensures Live(n, t) <==> Live(s, t) && t != w.token {
    }
    if HarmlessWrite(s, w) {
      forall t | Live(n, t) ensures Backed(n, t) {
        assert Backed(s, t);
      }
    } else {
      var t :| Live(s, t) && s.leases[t].id == w.id && t != w.token;
      assert Backed(s, t) && Live(n, t) && !Backed(n, t);
    }
  }

  lemma BeatKeepsSafeExactlyWhen(s: State, w: Write, n: State)
    requires Inv(s) && Owned(s, w) && w.BeatWrite?
    requires n == s.(jobs := JobsAfter(s.jobs, w), leases := LeasesAfter(s.jobs, s.leases, w), pending := n.pending)
    ensures Safe(n) <==> HarmlessWrite(s, w)
  {
    forall t | t != w.token ensures Live(n, t) <==> Live(s, t) {
    }
    if HarmlessWrite(s, w) {
      assert Live(s, w.token) ==> Backed(s, w.token);
      forall t | Live(n, t) ensures Backed(n, t) {
        if t != w.token {
          assert Backed(s, t);
        }
      }
    } else if t :| Live(s, t) && s.leases[t].id == w.id && t != w.token && w.until < s.leases[t].until {
      assert Backed(s, t) && Live(n, t) && !Backed(n, t);
    } else {
      assert Live(n, w.token) && !Backed(n, w.token);
    }
  }

  lemma RetryKeepsSafeExactlyWhen(s: State, w: Write, n: State)
    requires Inv(s) && w.RetryWrite?
    requires n == s.(jobs := JobsAfter(s.jobs, w), leases := LeasesAfter(s.jobs, s.leases, w), pending := n.pending)
    ensures Safe(n) <==> HarmlessWrite(s, w)
  {
    forall t ensures Live(n, t) <==> Live(s, t) {
    }
    if HarmlessWrite(s, w) {
      forall t | Live(n, t) ensures Backed(n, t) {
        assert Backed(s, t);
      }
    } else {
      var t :| Live(s, t) && s.leases[t].id == w.id;
      assert Backed(s, t) && Live(n, t) && !Backed(n, t);
    }
  }

  lemma CleanKeepsSafeExactlyWhen(s: State, w: Write, n: State)
    requires Inv(s) && w.CleanWrite?
    requires n == s.(jobs := JobsAfter(s.jobs, w), leases := LeasesAfter(s.jobs, s.leases, w), pending := n.pending)
    ensures Safe(n) <==> HarmlessWrite(s, w)
  {
    forall t ensures Live(n, t) <==> Live(s, t) {
    }
    if HarmlessWrite(s, w) {
      forall t | Live(n, t) ensures Backed(n, t) {
        assert Backed(s, t);
      }
    } else {
      var id :| id in w.ids && HeldByOther(s, id, None);
      var t :| Live(s, t) && s.leases[t].id == id;
      assert Live(n, t) && !Backed(n, t);
    }
  }

  /** From a safe state, a step leads to a safe state exactly when it is harmless. */
  lemma StepKeepsSafeExactlyWhen(s: State, e: Event)
    requires Inv(s) && Enabled(s, e)
    ensures Safe(Next(s, e)) <==> Harmless(s, e)
  {
    match e
    case Push(_, _) => PushKeepsSafeExactlyWhen(s, e);
    case PopClaim(_, _, _) => ClaimKeepsSafe(s, e);
    case Finish(call) =>
      var w := s.pending[call];
      match w {
        case AckWrite(_, _, _) => SettlingKeepsSafeExactlyWhen(s, w, Next(s, e));
        case NackWrite(_, _, _) => SettlingKeepsSafeExactlyWhen(s, w, Next(s, e));
        case BeatWrite(_, _, _) => BeatKeepsSafeExactlyWhen(s, w, Next(s, e));
        case RetryWrite(_, _) => RetryKeepsSafeExactlyWhen(s, w, Next(s, e));
        case CleanWrite(_) => CleanKeepsSafeExactlyWhen(s, w, Next(s, e));
      }
    case _ => QuietStepKeepsSafe(s, e);
  }

  lemma LeasesStay(s: State, e: Event)
    requires Enabled(s, e)
    ensures forall t :: t in s.leases ==> t in Next(s, e).leases && Next(s, e).leases[t].id == s.leases[t].id
  {
  }

  lemma StepKeepsTokensKnown(s: State, e: Event)
    requires Inv(s) && Enabled(s, e)
    ensures TokensKnown(Next(s, e))
  {
    LeasesStay(s, e);
  }

  lemma StepKeepsOwned(s: State, e: Event)
    requires Inv(s) && Enabled(s, e)
    ensures forall c :: c in Next(s, e).pending ==> Owned(Next(s, e), Next(s, e).pending[c])
  {
  }

  lemma StepKeepsInv(s: State, e: Event)
    requires Inv(s) && Enabled(s, e) && Harmless(s, e)
    ensures Inv(Next(s, e))
  {
    StepKeepsSafeExactlyWhen(s, e);
    StepKeepsTokensKnown(s, e);
    StepKeepsOwned(s, e);
  }

  /* ---------- whole runs ---------- */

  /** A settling call or heartbeat writes while its caller's lease is still live, a re-queue or a clean-up
      writes records that are still as it read them, and a push does not overwrite an active job. */
  predicate Disciplined(s: State, e: Event)
    requires Enabled(s, e)
  {
    match e
    case Push(id, _) => id in s.jobs ==> s.jobs[id].state != Active
    case Finish(call) =>
      (match s.pending[call]
       case AckWrite(_, token, _) => Live(s, token)
       case NackWrite(_, token, _) => Live(s, token)
       case BeatWrite(_, token, _) => Live(s, token)
       case RetryWrite(id, _) => id in s.jobs ==> s.jobs[id].state == Failed
       case CleanWrite(ids) => forall id :: id in ids && id in s.jobs ==> s.jobs[id].state != Active)
    case _ => true
  }

  lemma DisciplinedIsHarmless(s: State, e: Event)
    requires Inv(s) && Enabled(s, e) && Disciplined(s, e)
    ensures Harmless(s, e)
  {
  }

  datatype Run = Start(clock: int) | Then(before: Run, event: Event)

  function Initial(clock: int): State {
    State(clock, map[], map[], map[], map[])
  }

  /** The run takes `s` from an empty queue, every step enabled and disciplined. */
  predicate Reaches(run: Run, s: State)
    decreases run
  {
    match run
    case Start(clock) => s == Initial(clock)
    case Then(before, event) =>
      var last := StateOf(before);
      Reaches(before, last) && Enabled(last, event) && Disciplined(last, event) && s == Next(last, event)
  }

  function StateOf(run: Run): State
    decreases run
  {
    match run
    case Start(clock) => Initial(clock)
    case Then(before, event) => if Enabled(StateOf(before), event) then Next(StateOf(before), event) else StateOf(before)
  }

  lemma {:induction false} InvariantAlways(run: Run, s: State)
    requires Reaches(run, s)
    ensures Inv(s)
    decreases run
  {
    match run
    case Start(_) =>
    case Then(before, event) =>
      var last := StateOf(before);
      InvariantAlways(before, last);
      DisciplinedIsHarmless(last, event);
      StepKeepsInv(last, event);
  }

  /** In every disciplined run, whatever the interleaving: no job has two live leases, and the record of a
      live lease is active, carries its token, and is locked at least as long as the worker thinks. */
  lemma LeasesAreExclusive(run: Run, s: State, t: Token, u: Token)
    requires Reaches(run, s) && Live(s, t)
    ensures Backed(s, t)
    ensures Live(s, u) && s.leases[u].id == s.leases[t].id ==> t == u
  {
    InvariantAlways(run, s);
    if Live(s, u) && s.leases[u].id == s.leases[t].id {
      OneHolder(s, t, u);
    }
  }

  /** While a lease is live its own settling call is heard, and no other worker's claim succeeds. */
  lemma LiveLeaseIsRespected(run: Run, s: State, t: Token, now: int, call: CallId, token: Token)
    requires Reaches(run, s) && Live(s, t)
    ensures Read(now, s.jobs, Ack(s.leases[t].id, t)).Some? && Read(now, s.jobs, Nack(s.leases[t].id, t)).Some?
    ensures call in s.popping && token !in s.leases ==> Next(s, PopClaim(call, s.leases[t].id, token)) == s
  {
    InvariantAlways(run, s);
    assert Backed(s, t);
  }

  /* ---------- what goes wrong without the discipline ---------- */

  lemma Extend(run: Run, s: State, event: Event, n: State)
    requires Reaches(run, s) && Enabled(s, event) && Disciplined(s, event) && n == Next(s, event)
    ensures Reaches(Then(run, event), n)
  {
  }

  /** One worker claims the job, begins to acknowledge it, and stalls until its lease has run out. */
  lemma StalledAck(job: Job) returns (run: Run, s: State)
    requires Fresh(job) && !job.removeOnComplete
    ensures Reaches(run, s)
    ensures s == State(20, map["j" := Claimed(job, 0, 10, 0)], map[0 := Lease("j", 10, false)], map[],
                       map[1 := AckWrite("j", 0, false)])
  {
    var leases := map[0 := Lease("j", 10, false)];
    var jobs := map["j" := Claimed(job, 0, 10, 0)];
    var w := AckWrite("j", 0, false);
    var r1, s1 := Then(Start(0), Push("j", job)), State(0, map["j" := job], map[], map[], map[]);
    Extend(Start(0), Initial(0), Push("j", job), s1);
    var r2, s2 := Then(r1, PopRead(0, 10)), s1.(popping := map[0 := Popping(0, 10)]);
    Extend(r1, s1, PopRead(0, 10), s2);
    var r3, s3 := Then(r2, PopClaim(0, "j", 0)), State(0, jobs, leases, map[], map[]);
    Extend(r2, s2, PopClaim(0, "j", 0), s3);
    var r4, s4 := Then(r3, Begin(1, Ack("j", 0), 0)), s3.(pending := map[1 := w]);
    Extend(r3, s3, Begin(1, Ack("j", 0), 0), s4);
    run, s := Then(r4, Tick(20)), s4.(clock := 20);
    Extend(r4, s4, Tick(20), s);
  }

  /** An `ack` that read its token in time and writes too late: the job, by then leased to another worker,
      is recorded as completed under that worker's hands. */
  lemma LateAckTakesTheJob(job: Job) returns (run: Run, s: State)
    requires Fresh(job) && !job.removeOnComplete
    ensures Reaches(run, s) && Enabled(s, Finish(1)) && !Disciplined(s, Finish(1))
    ensures Live(s, 1) && s.leases[1].id == "j" && "j" in s.jobs
    ensures var n := Next(s, Finish(1));
            Live(n, 1) && "j" in n.jobs && n.jobs["j"].state == Completed
  {
    var r5, s5 := StalledAck(job);
    var first := Claimed(job, 0, 10, 0);
    var r6, s6 := Then(r5, PopRead(2, 10)), s5.(popping := map[2 := Popping(20, 10)]);
    Extend(r5, s5, PopRead(2, 10), s6);
    run := Then(r6, PopClaim(2, "j", 1));
    s := State(20, map["j" := Claimed(first, 20, 10, 1)], map[0 := Lease("j", 10, false), 1 := Lease("j", 30, false)],
               map[], map[1 := AckWrite("j", 0, false)]);
    assert Next(s6, PopClaim(2, "j", 1)).jobs == s.jobs;
    Extend(r6, s6, PopClaim(2, "j", 1), s);
  }

  /* ---------- the calls themselves, each running alone ---------- */

  datatype QueueError = TokenMismatch(id: JobId)

  /** The jobs after a request that nothing interrupts. */
  function Served(now: int, jobs: map<JobId, Job>, r: Request): map<JobId, Job> {
    match Read(now, jobs, r)
    case None => jobs
    case Some(w) => JobsAfter(jobs, w)
  }

  class Queue {
    var jobs: map<JobId, Job>

    constructor ()
      ensures jobs == map[]
    {
      jobs := map[];
    }

    /** The atomic update inside `pop`. */
    method Claim(id: JobId, now: int, visibility: int, token: Token) returns (claimed: bool)
      modifies this
      ensures claimed <==> id in old(jobs) && Claimable(old(jobs)[id], now)
      ensures jobs == if claimed then old(jobs)[id := Claimed(old(jobs)[id], now, visibility, token)] else old(jobs)
    {
      if id !in jobs {
        return false;
      }
      var j := jobs[id];
      claimed :=
        j.state == Waiting || j.state == Delayed ||
        (j.state == Active && j.lockedUntil.Some? && j.lockedUntil.value <= now);
      if claimed {
        var lockedUntil := now + visibility;
        jobs := jobs[id := j.(state := Active, token := Some(token), lockedUntil := Some(lockedUntil), attempts := j.attempts + 1)];
      }
    }

    /** The first candidate that can still be claimed is leased, and nothing else changes. */
    method Pop(candidates: seq<JobId>, now: int, visibility: int, tokens: seq<Token>) returns (r: Option<nat>)
      requires |tokens| == |candidates|
      modifies this
      ensures match r
              case Some(k) =>
                && k < |candidates|
                && candidates[k] in old(jobs)
                && Claimable(old(jobs)[candidates[k]], now)
                && (forall i :: 0 <= i < k ==> !(candidates[i] in old(jobs) && Claimable(old(jobs)[candidates[i]], now)))
                && jobs == old(jobs)[candidates[k] := Claimed(old(jobs)[candidates[k]], now, visibility, tokens[k])]
              case None =>
                && jobs == old(jobs)
                && forall i :: 0 <= i < |candidates| ==> !(candidates[i] in jobs && Claimable(jobs[candidates[i]], now))
    {
      for k := 0 to |candidates|
        invariant jobs == old(jobs)
        invariant forall i :: 0 <= i < k ==> !(candidates[i] in jobs && Claimable(jobs[candidates[i]], now))
      {
        var claimed := Claim(candidates[k], now, visibility, tokens[k]);
        if claimed {
          return Some(k);
        }
      }
      return None;
    }

    method Acknowledge(id: JobId, token: Token, now: int) returns (r: Result<bool, QueueError>)
      modifies this
      ensures jobs == Served(now, old(jobs), Ack(id, token))
      ensures r == if id !in old(jobs) then Ok(false)
                   else if !Holds(old(jobs), id, token) then Err(TokenMismatch(id))
                   else Ok(true)
    {
      if id !in jobs {
        return Ok(false);
      }
      var record := jobs[id];
      if record.token != Some(token) {
        return Err(TokenMismatch(id));
      }
      if record.removeOnComplete {
        jobs := jobs - {id};
        return Ok(true);
      }
      jobs := jobs[id := record.(state := Completed, token := None, lockedUntil := None)];
      return Ok(true);
    }

    /** False when the job is gone, or has used up its attempts and is put with the failed ones. */
    method Reject(id: JobId, token: Token, now: int) returns (r: Result<bool, QueueError>)
      modifies this
      ensures jobs == Served(now, old(jobs), Nack(id, token))
      ensures r == if id !in old(jobs) then Ok(false) else if !Holds(old(jobs), id, token) then Err(TokenMismatch(id))
                   else Ok(old(jobs)[id].attempts < old(jobs)[id].maxAttempts)
    {
      if id !in jobs {
        return Ok(false);
      }
      var record := jobs[id];
      if record.token != Some(token) {
        return Err(TokenMismatch(id));
      }
      if record.attempts >= record.maxAttempts {
        jobs := jobs[id := record.(state := Failed, token := None, lockedUntil := None)];
        return Ok(false);
      }
      var nextRunAt := now + Delay(record.backoff, record.attempts);
      jobs := jobs[id := record.(state := Delayed, runAt := nextRunAt, token := None, lockedUntil := None)];
      return Ok(true);
    }

    method Beat(id: JobId, token: Token, extend: int, now: int) returns (extended: bool)
      modifies this
      ensures jobs == Served(now, old(jobs), Heartbeat(id, token, extend))
      ensures extended <==> Holds(old(jobs), id, token)
    {
      if id !in jobs || jobs[id].token != Some(token) {
        return false;
      }
      jobs := jobs[id := jobs[id].(lockedUntil := Some(now + extend))];
      return true;
    }
  }

  /** A rejected job comes back: until its attempts are used up it is ready again at the time the backoff
      sets, and the wait after the n-th attempt is the base delay doubled n - 1 times. */
  lemma RejectedJobReturns(jobs: map<JobId, Job>, id: JobId, token: Token, now: int)
    requires Holds(jobs, id, token)
    ensures var j, after := jobs[id], Served(now, jobs, Nack(id, token));
            id in after &&
            if j.attempts < j.maxAttempts then
              forall t :: Ready(after[id], t) <==> now + Delay(j.backoff, j.attempts) <= t
            else after[id].state == Failed && forall t :: !Claimable(after[id], t)
  {
  }

  lemma {:induction false} BackoffDoubles(delay: int, attempts: nat)
    requires attempts > 0
    ensures Delay(Exponential(delay), attempts + 1) == 2 * Delay(Exponential(delay), attempts)
  {
  }
}
