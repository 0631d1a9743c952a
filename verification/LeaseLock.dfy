/** The lease lock: one stored record per key, and handles that think they own it. */
module LeaseLock {
  import opened Basics

  /** `randomUUID()`, one per acquisition. */
  type Token = nat

  /** The row's value, and the time at which the store drops the row. */
  datatype Record = Record(token: Token, acquiredAt: int, expiresAt: int, deadline: int)

  datatype Handle = Handle(expiresAt: int, active: bool)

  datatype State = State(now: int, row: Option<Record>, handles: map<Token, Handle>)

  /** The record an atomic update is shown. */
  function Current(row: Option<Record>, now: int): Option<Record> {
    if row.Some? && now < row.value.deadline then row else None
  }

  /* ---------- the atomic updates ---------- */

  predicate Locked(row: Option<Record>, now: int) {
    Current(row, now).Some? && now < row.value.expiresAt
  }

  /** The row's time limit comes from another reading of the clock than the record's, `late` milliseconds after
      it, or before it if that is negative: it depends on the driver. */
  function Taken(token: Token, now: int, ttl: int, late: int): Record {
    Record(token, now, now + ttl, now + late + ttl)
  }

  /** `release` writes back what it finds, marked expired only if it is its own, with a limit of one
      millisecond in either case, counted from the clock as the client read it. */
  function Released(row: Option<Record>, now: int, clock: int, token: Token): Option<Record> {
    match Current(row, now)
    case None => row
    case Some(r) => Some((if r.token == token then r.(expiresAt := 0) else r).(deadline := clock + 1))
  }

  predicate Owns(row: Option<Record>, now: int, token: Token) {
    Current(row, now).Some? && row.value.token == token
  }

  function Extended(row: Option<Record>, now: int, token: Token, extra: int, late: int): Option<Record> {
    if Owns(row, now, token) then Some(row.value.(expiresAt := now + extra, deadline := now + late + extra)) else row
  }

  /* ---------- steps of any number of clients ---------- */

  datatype Event =
    | Tick(ms: nat)
    | Acquire(token: Token, ttl: int, late: int)
    | Release(token: Token, clock: int)
    | Extend(token: Token, extra: int, late: int)

  predicate Enabled(s: State, e: Event) {
    match e
    case Tick(_) => true
    case Acquire(token, _, _) => token !in s.handles
    case Release(token, _) => token in s.handles
    case Extend(token, _, _) => token in s.handles
  }

  /** One atomic step: a try that finds the lock held, and a call on a handle that is no longer active,
      change nothing. */
  function Next(s: State, e: Event): State
    requires Enabled(s, e)
  {
    match e
    case Tick(ms) => s.(now := s.now + ms)
    case Acquire(token, ttl, late) =>
      if Locked(s.row, s.now) then s
      else s.(row := Some(Taken(token, s.now, ttl, late)), handles := s.handles[token := Handle(s.now + ttl, true)])
    case Release(token, clock) =>
      if !s.handles[token].active then s
      else s.(row := Released(s.row, s.now, clock, token), handles := s.handles[token := s.handles[token].(active := false)])
    case Extend(token, extra, late) =>
      if !s.handles[token].active then s
      else if Owns(s.row, s.now, token) then
        s.(row := Extended(s.row, s.now, token, extra, late), handles := s.handles[token := Handle(s.now + extra, true)])
      else s.(handles := s.handles[token := s.handles[token].(active := false)])
  }

  /** The holder has not released, and its time has not run out. */
  predicate Unexpired(s: State, t: Token) {
    t in s.handles && s.handles[t].active && s.now < s.handles[t].expiresAt
  }

  predicate Recorded(s: State, t: Token)
    requires t in s.handles
  {
    && s.row.Some?
    && s.row.value.token == t
    && s.handles[t].expiresAt <= s.row.value.expiresAt
    && s.handles[t].expiresAt <= s.row.value.deadline
  }

  /** Every unexpired handle is the recorded owner for as long as it thinks. */
  ghost predicate Safe(s: State) {
    forall t :: Unexpired(s, t) ==> Recorded(s, t)
  }

  lemma OneHolder(s: State, t: Token, u: Token)
    requires Safe(s) && Unexpired(s, t) && Unexpired(s, u)
    ensures t == u
  {
  }

  /* ---------- which releases are harmless ---------- */

  /** A release leaves any other unexpired handle what is left of the millisecond, and an acquisition or an
      extension must not give the row a limit before the time it promises. */
  ghost predicate Harmless(s: State, e: Event)
    requires Enabled(s, e)
  {
    match e
    case Tick(_) => true
    case Release(token, clock) =>
      s.handles[token].active ==> forall t :: Unexpired(s, t) && t != token ==> s.handles[t].expiresAt <= clock + 1
    case Acquire(_, ttl, late) => Locked(s.row, s.now) || ttl <= 0 || late >= 0
    case Extend(token, extra, late) => !s.handles[token].active || !Owns(s.row, s.now, token) || extra <= 0 || late >= 0
  }

  lemma ReleaseKeepsSafeExactlyWhen(s: State, e: Event)
    requires Safe(s) && Enabled(s, e) && e.Release? && s.handles[e.token].active
    ensures Safe(Next(s, e)) <==> Harmless(s, e)
  {
    var n := Next(s, e);
    forall t ensures Unexpired(n, t) <==> Unexpired(s, t) && t != e.token {
    }
    if Harmless(s, e) {
      forall t | Unexpired(n, t) ensures Recorded(n, t) {
        assert Recorded(s, t);
      }
    } else {
      var t :| Unexpired(s, t) && t != e.token && s.handles[t].expiresAt > e.clock + 1;
      assert Recorded(s, t) && !Recorded(n, t);
    }
  }

  /** A successful acquisition or extension leaves one handle that can be unexpired, its own. */
  lemma TakingKeepsSafeExactlyWhen(s: State, e: Event)
    requires Safe(s) && Enabled(s, e) && (e.Acquire? || e.Extend?)
    ensures Safe(Next(s, e)) <==> Harmless(s, e)
  {
    var n := Next(s, e);
    forall t | Unexpired(s, t) ensures Recorded(s, t) {
    }
    forall t | t != e.token ensures Unexpired(n, t) <==> Unexpired(s, t) {
    }
    if Harmless(s, e) {
      forall t | Unexpired(n, t) ensures Recorded(n, t) {
        if t != e.token {
          assert Unexpired(s, t);
        }
      }
    } else {
      assert Unexpired(n, e.token) && !Recorded(n, e.token);
    }
  }

  lemma TickKeepsSafe(s: State, e: Event)
    requires Safe(s) && Enabled(s, e) && e.Tick?
    ensures Safe(Next(s, e))
  {
    forall t | Unexpired(Next(s, e), t) ensures Recorded(Next(s, e), t) {
      assert Unexpired(s, t);
    }
  }

  /** From a safe state, a step leads to a safe state exactly when it is harmless. */
  lemma StepKeepsSafeExactlyWhen(s: State, e: Event)
    requires Safe(s) && Enabled(s, e)
    ensures Safe(Next(s, e)) <==> Harmless(s, e)
  {
    match e
    case Tick(_) => TickKeepsSafe(s, e);
    case Release(token, _) =>
      if s.handles[token].active {
        ReleaseKeepsSafeExactlyWhen(s, e);
      }
    case _ => TakingKeepsSafeExactlyWhen(s, e);
  }

  /* ---------- whole runs ---------- */

  datatype Run = Start(now: int) | Then(before: Run, event: Event)

  function StateOf(run: Run): State
    decreases run
  {
    match run
    case Start(now) => State(now, None, map[])
    case Then(before, event) => if Enabled(StateOf(before), event) then Next(StateOf(before), event) else StateOf(before)
  }

  /** Only the recorded owner of a record releases, or anyone when there is no record. */
  predicate ByOwner(s: State, e: Event)
    requires Enabled(s, e)
  {
    e.Release? && s.handles[e.token].active && Current(s.row, s.now).Some? ==> s.row.value.token == e.token
  }

  /** The row lasts as long as the record says. */
  predicate InTime(e: Event) {
    match e
    case Acquire(_, _, late) => late >= 0
    case Extend(_, _, late) => late >= 0
    case _ => true
  }

  predicate Disciplined(run: Run)
    decreases run
  {
    match run
    case Start(_) => true
    case Then(before, event) =>
      && Disciplined(before)
      && Enabled(StateOf(before), event)
      && ByOwner(StateOf(before), event)
      && InTime(event)
  }

  lemma {:induction false} SafeAlways(run: Run)
    requires Disciplined(run)
    ensures Safe(StateOf(run))
    decreases run
  {
    match run
    case Start(_) =>
    case Then(before, event) =>
      var s := StateOf(before);
      SafeAlways(before);
      forall t | Unexpired(s, t) ensures Recorded(s, t) {
      }
      StepKeepsSafeExactlyWhen(s, event);
  }

  /** In every run in which owners release and rows last long enough, no two handles are unexpired at one time. */
  lemma LockIsExclusive(run: Run, t: Token, u: Token)
    requires Disciplined(run) && Unexpired(StateOf(run), t) && Unexpired(StateOf(run), u)
    ensures t == u
  {
    SafeAlways(run);
    OneHolder(StateOf(run), t, u);
  }

  /** Nobody acquires while a handle is unexpired, and a handle whose lock was taken over cannot extend: the
      attempt fails for good and leaves the new owner's record as it is. */
  lemma OwnershipIsRespected(run: Run, t: Token, other: Token, ttl: int, late: int)
    requires Disciplined(run) && Unexpired(StateOf(run), t) && other != t
    ensures other !in StateOf(run).handles ==> Next(StateOf(run), Acquire(other, ttl, late)) == StateOf(run)
    ensures other in StateOf(run).handles ==>
              var n := Next(StateOf(run), Extend(other, ttl, late));
              n.row == StateOf(run).row && !n.handles[other].active && Unexpired(n, t)
  {
    SafeAlways(run);
    assert Recorded(StateOf(run), t);
  }

  /** A holder whose time has run out, releasing late, cuts the new owner's record to a millisecond; a third
      client then acquires beside it. */
  lemma LateReleaseBreaksTheLock() returns (run: Run)
    ensures StateOf(run).handles.Keys == {0, 1, 2}
    ensures Unexpired(StateOf(run), 1) && Unexpired(StateOf(run), 2)
    ensures !Disciplined(run)
  {
    var r3 := Then(Then(Then(Start(0), Acquire(0, 10, 0)), Tick(10)), Acquire(1, 100, 0));
    var s3 := State(10, Some(Record(1, 10, 110, 110)), map[0 := Handle(10, true), 1 := Handle(110, true)]);
    assert StateOf(Then(Start(0), Acquire(0, 10, 0))) == State(0, Some(Record(0, 0, 10, 10)), map[0 := Handle(10, true)]);
    assert StateOf(r3) == s3;
    var r5 := Then(Then(r3, Release(0, 10)), Tick(1));
    var s4 := State(10, Some(Record(1, 10, 110, 11)), map[0 := Handle(10, false), 1 := Handle(110, true)]);
    assert StateOf(Then(r3, Release(0, 10))) == s4;
    assert StateOf(r5) == s4.(now := 11);
    run := Then(r5, Acquire(2, 100, 0));
    assert StateOf(run) == State(11, Some(Record(2, 11, 111, 111)), s4.handles[2 := Handle(111, true)]);
    assert !ByOwner(s3, Release(0, 10));
    assert !Disciplined(Then(r3, Release(0, 10)));
  }

  /** A driver that reads the clock for the row's limit before the record's does: the row is gone one millisecond
      before its owner's time is over, and another client acquires beside it. */
  lemma EarlyLimitBreaksTheLock() returns (run: Run)
    ensures StateOf(run).handles.Keys == {0, 1}
    ensures Unexpired(StateOf(run), 0) && Unexpired(StateOf(run), 1)
    ensures !InTime(Acquire(0, 10, -1))
  {
    var r2 := Then(Then(Start(0), Acquire(0, 10, -1)), Tick(9));
    assert StateOf(Then(Start(0), Acquire(0, 10, -1))) == State(0, Some(Record(0, 0, 10, 9)), map[0 := Handle(10, true)]);
    assert StateOf(r2) == State(9, Some(Record(0, 0, 10, 9)), map[0 := Handle(10, true)]);
    run := Then(r2, Acquire(1, 10, 0));
    assert StateOf(run) == State(9, Some(Record(1, 9, 19, 19)), map[0 := Handle(10, true), 1 := Handle(19, true)]);
  }

  /* ---------- the calls, with the rest of the world moving between their commands ---------- */

  /** The row and the clock when an update runs, the clock from which the row's limit counts, and the clock when
      the caller looks at it again. */
  datatype Moment = Moment(row: Option<Record>, now: int, limit: int, after: int)

  datatype Attempt = Acquired(attempt: nat, expiresAt: int) | TimedOut(attempt: nat) | StillWaiting

  class LockManager {
    var row: Option<Record>

    constructor ()
      ensures row == None
    {
      row := None;
    }

    /** Tries again and again until the lock is free or the time to wait is over: attempt i finds the row
        as `moments[i]` has it. It takes the first that is not locked, and gives up only after the limit. */
    method AcquireLock(token: Token, ttl: int, waitTimeout: int, start: int, moments: seq<Moment>) returns (r: Attempt)
      modifies this
      ensures match r
              case Acquired(k, expiresAt) =>
                && k < |moments|
                && !Locked(moments[k].row, moments[k].now)
                && row == Some(Taken(token, moments[k].now, ttl, moments[k].limit - moments[k].now))
                && expiresAt == moments[k].now + ttl
                && forall i :: 0 <= i < k ==> Locked(moments[i].row, moments[i].now) && moments[i].after - start < waitTimeout
              case TimedOut(k) =>
                && k < |moments|
                && row == moments[k].row
                && waitTimeout <= moments[k].after - start
                && (forall i :: 0 <= i <= k ==> Locked(moments[i].row, moments[i].now))
                && forall i :: 0 <= i < k ==> moments[i].after - start < waitTimeout
              case StillWaiting =>
                forall i :: 0 <= i < |moments| ==> Locked(moments[i].row, moments[i].now) && moments[i].after - start < waitTimeout
    {
      for i := 0 to |moments|
        invariant forall k :: 0 <= k < i ==> Locked(moments[k].row, moments[k].now) && moments[k].after - start < waitTimeout
      {
        var m := moments[i];
        row := m.row;
        var curr := Current(row, m.now);
        if !(curr.Some? && curr.value.expiresAt > m.now) {
          var expiresAt := m.now + ttl;
          row := Some(Record(token, m.now, expiresAt, m.limit + ttl));
          return Acquired(i, expiresAt);
        }
        var elapsed := m.after - start;
        if elapsed >= waitTimeout {
          return TimedOut(i);
        }
      }
      return StillWaiting;
    }
  }

  class LockHandle {
    const token: Token
    var active: bool
    var expiresAt: int

    constructor (token: Token, expiresAt: int)
      ensures this.token == token && active && this.expiresAt == expiresAt
    {
      this.token, this.active, this.expiresAt := token, true, expiresAt;
    }

    /** True unless the handle was released before or the row is gone. */
    method Release(lock: LockManager, now: int, clock: int) returns (ok: bool)
      modifies this`active, lock
      ensures !active
      ensures lock.row == if old(active) then Released(old(lock.row), now, clock, token) else old(lock.row)
      ensures ok <==> old(active) && Current(old(lock.row), now).Some?
    {
      if !active {
        return false;
      }
      active := false;
      var curr := Current(lock.row, now);
      if curr.None? {
        return false;
      }
      var next := if curr.value.token == token then curr.value.(expiresAt := 0) else curr.value;
      lock.row := Some(next.(deadline := clock + 1));
      return true;
    }

    method Extend(lock: LockManager, now: int, limit: int, extra: int) returns (ok: bool)
      modifies this, lock
      ensures ok <==> old(active) && Owns(old(lock.row), now, token)
      ensures active == ok
      ensures expiresAt == if ok then now + extra else old(expiresAt)
      ensures lock.row == if ok then Extended(old(lock.row), now, token, extra, limit - now) else old(lock.row)
    {
      if !active {
        return false;
      }
      var curr := Current(lock.row, now);
      if curr.Some? && curr.value.token == token {
        expiresAt := now + extra;
        lock.row := Some(curr.value.(expiresAt := now + extra, deadline := limit + extra));
        return true;
      }
      active := false;
      return false;
    }
  }
}
