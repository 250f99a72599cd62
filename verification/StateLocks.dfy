/** The token locks of src/state-sqlite.ts: rows that expire but stay until somebody deletes them. */
module Locks {
  type Thread = string

  /** Tokens are issued in order; that random ones never repeat is assumed. */
  type Token = nat

  datatype Row = Row(token: Token, expiresAt: nat)

  /** What the holder of a token knows: the lock object, and whether it has called releaseLock on it. */
  datatype Lease = Lease(thread: Thread, expiresAt: nat, released: bool)

  datatype State = State(now: nat, rows: map<Thread, Row>, leases: map<Token, Lease>, nextToken: Token)

  function Init(): State {
    State(0, map[], map[], 0)
  }

  function DropExpired(rows: map<Thread, Row>, now: nat): map<Thread, Row> {
    map t | t in rows && rows[t].expiresAt >= now :: rows[t]
  }

  /** DELETE ... WHERE thread_id = ? AND expires_at < ? */
  function DropExpiredOf(rows: map<Thread, Row>, thread: Thread, now: nat): map<Thread, Row> {
    if thread in rows && rows[thread].expiresAt < now then rows - {thread} else rows
  }

  predicate Acquirable(s: State, thread: Thread) {
    thread !in DropExpiredOf(s.rows, thread, s.now)
  }

  function Acquire(s: State, thread: Thread, ttl: nat): State {
    var rows := DropExpiredOf(s.rows, thread, s.now);
    if thread in rows then s.(rows := rows)
    else s.(rows := rows[thread := Row(s.nextToken, s.now + ttl)],
            leases := s.leases[s.nextToken := Lease(thread, s.now + ttl, false)],
            nextToken := s.nextToken + 1)
  }

  /** The row of the thread of `token` carries `token`. */
  predicate Holds(s: State, token: Token) {
    token in s.leases && s.leases[token].thread in s.rows && s.rows[s.leases[token].thread].token == token
  }

  function Release(s: State, token: Token): State
    requires token in s.leases
  {
    s.(rows := if Holds(s, token) then s.rows - {s.leases[token].thread} else s.rows,
       leases := s.leases[token := s.leases[token].(released := true)])
  }

  function Extend(s: State, token: Token, ttl: nat): State
    requires token in s.leases
  {
    if !Holds(s, token) then s
    else
      s.(rows := s.rows[s.leases[token].thread := Row(token, s.now + ttl)],
         leases := s.leases[token := s.leases[token].(expiresAt := s.now + ttl)])
  }

  datatype Event =
    | AcquireLock(thread: Thread, ttl: nat)
    | ReleaseLock(token: Token)
    | ExtendLock(token: Token, ttl: nat)
    | ForceRelease(thread: Thread)
    | Cleanup
    | Tick(elapsed: nat)

  function Step(s: State, e: Event): State {
    match e
    case AcquireLock(thread, ttl) => Acquire(s, thread, ttl)
    case ReleaseLock(token) => if token in s.leases then Release(s, token) else s
    case ExtendLock(token, ttl) => if token in s.leases then Extend(s, token, ttl) else s
    case ForceRelease(thread) => s.(rows := s.rows - {thread})
    case Cleanup => s.(rows := DropExpired(s.rows, s.now))
    case Tick(d) => s.(now := s.now + d)
  }

  function Run(s: State, es: seq<Event>): State
    decreases |es|
  {
    if es == [] then s else Run(Step(s, es[0]), es[1..])
  }

  predicate Live(s: State, token: Token) {
    token in s.leases && !s.leases[token].released && s.leases[token].expiresAt >= s.now
  }

  /** A later token was issued for the same thread. */
  ghost predicate Superseded(s: State, token: Token) {
    token in s.leases && exists later :: later in s.leases && later > token && s.leases[later].thread == s.leases[token].thread
  }

  ghost predicate AtMostOneHolder(s: State) {
    forall a, b :: Live(s, a) && Live(s, b) && s.leases[a].thread == s.leases[b].thread ==> a == b
  }

  /** Every row carries the newest token of its thread, unreleased.  This holds whatever is forced. */
  ghost predicate Newest(s: State) {
    && (forall token :: token in s.leases ==> token < s.nextToken)
    && (forall t :: t in s.rows ==>
          var token := s.rows[t].token;
          token in s.leases && s.leases[token] == Lease(t, s.rows[t].expiresAt, false))
    && (forall t, token :: t in s.rows && token in s.leases && s.leases[token].thread == t ==> token <= s.rows[t].token)
  }

  ghost predicate LiveHold(s: State) {
    forall token :: Live(s, token) ==> Holds(s, token)
  }

  ghost predicate Inv(s: State) {
    Newest(s) && LiveHold(s)
  }

  lemma StepKeepsNewest(s: State, e: Event)
    requires Newest(s)
    ensures Newest(Step(s, e))
  {
  }

  lemma {:induction false} RunKeepsNewest(s: State, es: seq<Event>)
    requires Newest(s)
    ensures Newest(Run(s, es))
    decreases |es|
  {
    hide Newest, Step;
    if es != [] {
      StepKeepsNewest(s, es[0]);
      RunKeepsNewest(Step(s, es[0]), es[1..]);
    }
  }

  /** A forced release of a thread somebody holds a live token of. */
  ghost predicate ForcesHolder(s: State, e: Event) {
    e.ForceRelease? && exists token :: Live(s, token) && s.leases[token].thread == e.thread
  }

  /** Every live token keeps its row in a step if and only if the step is not such a forced release. */
  lemma HoldSurvives(s: State, e: Event)
    requires Inv(s)
    ensures Inv(Step(s, e)) <==> !ForcesHolder(s, e)
  {
    hide Newest;
    var s' := Step(s, e);
    StepKeepsNewest(s, e);
    if ForcesHolder(s, e) {
      var token :| Live(s, token) && s.leases[token].thread == e.thread;
      assert Live(s', token) && !Holds(s', token);
    } else {
      forall other | Live(s', other) ensures Holds(s', other) {
        HoldKept(s, e, other);
      }
    }
  }

  lemma HoldKept(s: State, e: Event, token: Token)
    requires Inv(s) && !ForcesHolder(s, e) && Live(Step(s, e), token)
    ensures Holds(Step(s, e), token)
  {
    if token in s.leases && !(e.ExtendLock? && e.token == token && Holds(s, token)) {
      assert Live(s, token);
    }
  }

  /** No step of the run forces the release of a held lock. */
  ghost predicate SparesHolders(s: State, es: seq<Event>)
    decreases |es|
  {
    es != [] ==> !ForcesHolder(s, es[0]) && SparesHolders(Step(s, es[0]), es[1..])
  }

  lemma {:induction false} RunKeepsInv(s: State, es: seq<Event>)
    requires Inv(s) && SparesHolders(s, es)
    ensures Inv(Run(s, es))
    decreases |es|
  {
    hide Inv, Step;
    if es != [] {
      HoldSurvives(s, es[0]);
      RunKeepsInv(Step(s, es[0]), es[1..]);
    }
  }

  /**
   Main result: while no forced release hits a thread somebody holds, a thread never has two tokens
   that are both unreleased and unexpired.
   */
  lemma MutualExclusion(es: seq<Event>)
    requires SparesHolders(Init(), es)
    ensures AtMostOneHolder(Run(Init(), es))
  {
    RunKeepsInv(Init(), es);
  }

  /** Whatever happens next, without further forced releases, exclusion holds. */
  ghost predicate SafeFrom(s: State) {
    forall es: seq<Event> :: SparesHolders(s, es) ==> AtMostOneHolder(Run(s, es))
  }

  /** A forced release is safe for everything that may follow if and only if nobody holds a live token of the thread. */
  lemma ForcedReleaseIsSafeExactlyWhen(s: State, thread: Thread)
    requires Inv(s)
    ensures SafeFrom(Step(s, ForceRelease(thread))) <==> !exists token :: Live(s, token) && s.leases[token].thread == thread
  {
    hide Inv;
    var e := ForceRelease(thread);
    var s' := Step(s, e);
    HoldSurvives(s, e);
    if ForcesHolder(s, e) {
      var token :| Live(s, token) && s.leases[token].thread == thread;
      TakenOver(s, thread, token);
    } else {
      forall es: seq<Event> | SparesHolders(s', es) ensures AtMostOneHolder(Run(s', es)) {
        RunKeepsInv(s', es);
        OneHolder(Run(s', es));
      }
    }
  }

  lemma OneHolder(s: State)
    requires Inv(s)
    ensures AtMostOneHolder(s)
  {
  }

  /** After a forced release of a held lock the next acquire makes a second live token. */
  lemma TakenOver(s: State, thread: Thread, token: Token)
    requires Inv(s) && Live(s, token) && s.leases[token].thread == thread
    ensures !SafeFrom(Step(s, ForceRelease(thread)))
  {
    var s1 := Step(s, ForceRelease(thread));
    var es := [AcquireLock(thread, 0)];
    var s2 := Step(s1, es[0]);
    assert es[1..] == [] && Run(s1, es) == Run(s2, es[1..]) == s2;
    assert SparesHolders(s2, es[1..]) && SparesHolders(s1, es);
    assert Live(s2, token) && Live(s2, s.nextToken);
  }

  /**
   A superseded token can neither release nor extend anything, in any run, forced releases included:
   the rows stay as they are, and it stays superseded.
   */
  lemma SupersededIsPowerless(es: seq<Event>, token: Token, ttl: nat)
    requires Superseded(Run(Init(), es), token)
    ensures
      var s := Run(Init(), es);
      && !Holds(s, token)
      && Step(s, ReleaseLock(token)).rows == s.rows
      && Step(s, ExtendLock(token, ttl)) == s
    ensures forall e :: Superseded(Step(Run(Init(), es), e), token)
  {
    RunKeepsNewest(Init(), es);
    var s := Run(Init(), es);
    var later :| later in s.leases && later > token && s.leases[later].thread == s.leases[token].thread;
    forall e ensures Superseded(Step(s, e), token) {
      var s' := Step(s, e);
      assert later in s'.leases && s'.leases[later].thread == s'.leases[token].thread;
    }
  }

  /** An acquire succeeds exactly when nobody holds a live token of the thread. */
  lemma AcquiredExactlyWhenFree(es: seq<Event>, thread: Thread)
    requires SparesHolders(Init(), es)
    ensures
      var s := Run(Init(), es);
      Acquirable(s, thread) <==> !exists token :: Live(s, token) && s.leases[token].thread == thread
  {
    RunKeepsInv(Init(), es);
    var s := Run(Init(), es);
    if thread in s.rows && s.rows[thread].expiresAt >= s.now {
      assert Live(s, s.rows[thread].token);
    }
  }

  // ---------- How long a lock lasts ----------

  /** The row of `thread` carries `token` and lasts until `until`, as its holder knows. */
  ghost predicate LockedUntil(s: State, thread: Thread, token: Token, until: nat) {
    thread in s.rows && s.rows[thread] == Row(token, until) && token in s.leases && s.leases[token] == Lease(thread, until, false)
  }

  /** An acquire with no unexpired row in its way locks the thread with a new token for `ttl`; any other is refused. */
  lemma AcquireLocks(s: State, thread: Thread, ttl: nat)
    ensures
      var s' := Step(s, AcquireLock(thread, ttl));
      if thread in s.rows && s.rows[thread].expiresAt >= s.now then s' == s
      else LockedUntil(s', thread, s.nextToken, s.now + ttl) && s'.nextToken == s.nextToken + 1 && s'.now == s.now
    ensures forall t :: t != thread && t in s.rows ==> t in Step(s, AcquireLock(thread, ttl)).rows
  {
  }

  /** An extend by the holder of the row locks it for `ttl` from now; any other changes nothing. */
  lemma ExtendLocks(s: State, token: Token, ttl: nat)
    requires token in s.leases && !s.leases[token].released
    ensures
      var thread, s' := s.leases[token].thread, Step(s, ExtendLock(token, ttl));
      if thread in s.rows && s.rows[thread].token == token
      then LockedUntil(s', thread, token, s.now + ttl) && s'.nextToken == s.nextToken && s'.now == s.now
      else s' == s
  {
  }

  /** A lock is live, and keeps others out, for exactly its time: until `until` and not a moment longer. */
  lemma LastsExactly(s: State, thread: Thread, token: Token, until: nat, elapsed: nat, ttl: nat)
    requires LockedUntil(s, thread, token, until)
    ensures
      var later := Step(s, Tick(elapsed));
      var tried := Step(later, AcquireLock(thread, ttl));
      && (Live(later, token) <==> s.now + elapsed <= until)
      && (tried.nextToken == s.nextToken <==> s.now + elapsed <= until)
      && (thread in Step(later, Cleanup).rows <==> s.now + elapsed <= until)
  {
  }

  function Elapsed(es: seq<Event>): nat {
    if es == [] then 0 else (if es[0].Tick? then es[0].elapsed else 0) + Elapsed(es[1..])
  }

  /** Nobody releases or extends this token or forces its thread. */
  predicate LeavesAlone(e: Event, thread: Thread, token: Token) {
    match e
    case ReleaseLock(t) => t != token
    case ExtendLock(t, _) => t != token
    case ForceRelease(t) => t != thread
    case _ => true
  }

  lemma StepKeepsLocked(s: State, e: Event, thread: Thread, token: Token, until: nat)
    requires LockedUntil(s, thread, token, until) && Newest(s) && LeavesAlone(e, thread, token) && Step(s, e).now <= until
    ensures LockedUntil(Step(s, e), thread, token, until)
    ensures forall t :: t in Step(s, e).leases && Step(s, e).leases[t].thread == thread ==> t in s.leases
    ensures forall t :: t in s.leases ==> t in Step(s, e).leases && Step(s, e).leases[t].thread == s.leases[t].thread
  {
  }

  /**
   Main result: for as long as it was asked for, a lock stays with its holder, and every acquire of the
   thread is refused, whatever else happens; unless the holder releases or extends it, or it is forced.
   */
  lemma {:induction false} KeepsOthersOut(s: State, es: seq<Event>, thread: Thread, token: Token, until: nat)
    requires LockedUntil(s, thread, token, until) && Newest(s) && s.now + Elapsed(es) <= until
    requires forall i :: 0 <= i < |es| ==> LeavesAlone(es[i], thread, token)
    ensures LockedUntil(Run(s, es), thread, token, until)
    ensures forall t :: t in Run(s, es).leases && Run(s, es).leases[t].thread == thread ==> t in s.leases
    ensures forall t :: t in s.leases ==> t in Run(s, es).leases && Run(s, es).leases[t].thread == s.leases[t].thread
    decreases |es|
  {
    hide LockedUntil, Newest, LeavesAlone, Acquire, Release, Extend;
    if es != [] {
      assert LeavesAlone(es[0], thread, token);
      StepTime(s, es[0]);
      StepKeepsLocked(s, es[0], thread, token, until);
      StepKeepsNewest(s, es[0]);
      KeepsOthersOut(Step(s, es[0]), es[1..], thread, token, until);
    }
  }

  lemma StepTime(s: State, e: Event)
    ensures Step(s, e).now == s.now + if e.Tick? then e.elapsed else 0
  {
  }

  /** A cleanup deletes exactly the rows whose time is over, and a release exactly the row of its own token. */
  lemma RowsLeft(s: State, token: Token)
    requires token in s.leases
    ensures forall t :: t in Step(s, Cleanup).rows <==> t in s.rows && s.rows[t].expiresAt >= s.now
    ensures forall t :: t in Step(s, ReleaseLock(token)).rows <==> t in s.rows && !(t == s.leases[token].thread && s.rows[t].token == token)
    ensures forall t :: t in Step(s, Cleanup).rows ==> Step(s, Cleanup).rows[t] == s.rows[t]
    ensures forall t :: t in Step(s, ReleaseLock(token)).rows ==> Step(s, ReleaseLock(token)).rows[t] == s.rows[t]
  {
  }

  /**
   Extending brings a lock back, or keeps it, exactly when its row is still there: an expired lock
   nobody cleaned up or took over comes back to life.
   */
  lemma ExtendRevivesExactlyWhen(es: seq<Event>, token: Token, ttl: nat)
    requires SparesHolders(Init(), es)
    requires var s := Run(Init(), es); token in s.leases && !s.leases[token].released
    ensures var s := Run(Init(), es); Live(Step(s, ExtendLock(token, ttl)), token) <==> Holds(s, token)
  {
    RunKeepsInv(Init(), es);
  }

  /** Such a lock can be reached. */
  lemma ExpiredLockRevives(thread: Thread)
    ensures exists es: seq<Event> ::
              var s := Run(Init(), es);
              SparesHolders(Init(), es) && 0 in s.leases && !Live(s, 0) && Live(Step(s, ExtendLock(0, 5)), 0)
  {
    var es := [AcquireLock(thread, 1), Tick(2)];
    var s1 := Step(Init(), es[0]);
    var s2 := Step(s1, es[1]);
    assert es[1..] == [Tick(2)] && es[1..][1..] == [];
    assert Run(Init(), es) == Run(s1, es[1..]) == s2;
    assert SparesHolders(s1, es[1..]) && SparesHolders(Init(), es);
    assert Live(Step(s2, ExtendLock(0, 5)), 0);
  }

  /** And a forced release can break exclusion. */
  lemma ForceReleaseBreaksExclusion(thread: Thread)
    ensures exists es: seq<Event> :: !AtMostOneHolder(Run(Init(), es))
  {
    var es := [AcquireLock(thread, 5), ForceRelease(thread), AcquireLock(thread, 5)];
    var s1 := Step(Init(), es[0]);
    var s2 := Step(s1, es[1]);
    var s3 := Step(s2, es[2]);
    assert es[1..] == [ForceRelease(thread), AcquireLock(thread, 5)] && es[1..][1..] == [AcquireLock(thread, 5)];
    assert es[1..][1..][1..] == [];
    assert Run(Init(), es) == Run(s1, es[1..]) == Run(s2, es[1..][1..]) == s3;
    assert Live(s3, 0) && Live(s3, 1);
  }
}
