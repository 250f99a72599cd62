/**
 The sliding-window limiter of src/cloud/rate-limiter.ts.

 One call of `checkAndRecord` is two Redis transactions with a suspension between them:
 a check (prune, count, decide) and a record.  Each transaction is one atomic step here,
 and any number of calls may be suspended between their two steps.  The clock is read in
 the same step as the check.
 */
module RateLimiting {

  const USER_WINDOW := 60_000
  const GLOBAL_WINDOW := 3_600_000
  const USER_KEY_TTL := 3_600_000
  const GLOBAL_KEY_TTL := 7_200_000

  /** A call that passed its check: `at` is the score its entries carry, `id` makes its members unique. */
  datatype Call = Call(id: nat, user: string, at: nat)

  datatype Limits = Limits(user: nat, global: nat)

  datatype Verdict = Allowed | Refused(retryAfterMs: nat)

  /**
   `users`, `all` and the deadlines are what Redis stores.  `pending` holds the calls between
   check and record, `accepted` is the history of every recorded call.
   */
  datatype State = State(
    clock: nat,
    users: map<string, set<Call>>,
    all: set<Call>,
    userDeadline: map<string, nat>,
    globalDeadline: nat,
    pending: set<Call>,
    accepted: set<Call>,
    nextId: nat)

  function Init(): State {
    State(0, map[], {}, map[], 0, {}, {}, 0)
  }

  function UserSet(users: map<string, set<Call>>, user: string): set<Call> {
    if user in users then users[user] else {}
  }

  /** ZREMRANGEBYSCORE key 0 (now - width). */
  function Prune(calls: set<Call>, now: nat, width: nat): set<Call> {
    set c | c in calls && c.at > now - width
  }

  function Decide(limits: Limits, userCount: nat, globalCount: nat): Verdict {
    if userCount >= limits.user then Refused(USER_WINDOW)
    else if globalCount >= limits.global then Refused(GLOBAL_WINDOW)
    else Allowed
  }

  /** The verdict of a check made now. */
  function VerdictOf(limits: Limits, s: State, user: string): Verdict {
    Decide(limits, |Prune(UserSet(s.users, user), s.clock, USER_WINDOW)|, |Prune(s.all, s.clock, GLOBAL_WINDOW)|)
  }

  function Check(limits: Limits, s: State, user: string): State {
    var mine := Prune(UserSet(s.users, user), s.clock, USER_WINDOW);
    var pruned := s.(users := s.users[user := mine], all := Prune(s.all, s.clock, GLOBAL_WINDOW));
    if VerdictOf(limits, s, user).Allowed? then
      pruned.(pending := s.pending + {Call(s.nextId, user, s.clock)}, nextId := s.nextId + 1)
    else pruned
  }

  function Record(s: State, c: Call): State {
    s.(users := s.users[c.user := UserSet(s.users, c.user) + {c}],
       all := s.all + {c},
       userDeadline := s.userDeadline[c.user := s.clock + USER_KEY_TTL],
       globalDeadline := s.clock + GLOBAL_KEY_TTL,
       pending := s.pending - {c},
       accepted := s.accepted + {c})
  }

  /** What can happen next; an event whose guard fails changes nothing. */
  datatype Event =
    | CheckNow(user: string)
    | RecordCall(call: Call)
    | LoseCall(call: Call)        // the record transaction throws
    | ExpireUser(user: string)    // Redis drops the key once its deadline has passed
    | ExpireGlobal
    | Tick(elapsed: nat)

  function Step(limits: Limits, s: State, e: Event): State {
    match e
    case CheckNow(user) => Check(limits, s, user)
    case RecordCall(c) => if c in s.pending then Record(s, c) else s
    case LoseCall(c) => s.(pending := s.pending - {c})
    case ExpireUser(user) =>
      if user in s.userDeadline && s.userDeadline[user] <= s.clock then s.(users := s.users - {user}) else s
    case ExpireGlobal => if s.globalDeadline <= s.clock then s.(all := {}) else s
    case Tick(d) => s.(clock := s.clock + d)
  }

  function Run(limits: Limits, s: State, es: seq<Event>): State
    decreases |es|
  {
    if es == [] then s else Run(limits, Step(limits, s, es[0]), es[1..])
  }

  /** The calls of one user (`Some`) or of everybody (`None`). */
  datatype Scope = One(user: string) | Everybody

  predicate InScope(scope: Scope, c: Call) {
    scope.Everybody? || c.user == scope.user
  }

  function Within(scope: Scope, calls: set<Call>): set<Call> {
    set c | c in calls && InScope(scope, c)
  }

  function Width(scope: Scope): nat {
    if scope.One? then USER_WINDOW else GLOBAL_WINDOW
  }

  /** One user's calls also count against the global limit. */
  function Limit(limits: Limits, scope: Scope): nat {
    if scope.One? && limits.user <= limits.global then limits.user else limits.global
  }

  /** The most calls a window can hold while at most `k` calls are between check and record. */
  function Most(limits: Limits, scope: Scope, k: nat): nat
    requires 1 <= k
  {
    if limits.user == 0 || limits.global == 0 then 0 else Limit(limits, scope) + k - 1
  }

  function Stored(s: State, scope: Scope): set<Call> {
    if scope.One? then UserSet(s.users, scope.user) else s.all
  }

  function KeyTtl(scope: Scope): nat {
    if scope.One? then USER_KEY_TTL else GLOBAL_KEY_TTL
  }

  /** When Redis drops the key of `scope`; -1 when the key was never written. */
  function Deadline(s: State, scope: Scope): int {
    if scope.Everybody? then s.globalDeadline
    else if scope.user in s.userDeadline then s.userDeadline[scope.user]
    else -1
  }

  /** The calls of `scope` whose time lies in the window (t - width, t]. */
  function InWindow(scope: Scope, calls: set<Call>, t: int): set<Call> {
    set c | c in calls && InScope(scope, c) && t - Width(scope) < c.at <= t
  }

  /** In every state of the run at most `k` calls of `scope` are between check and record. */
  ghost predicate AtMostBetween(limits: Limits, s: State, es: seq<Event>, scope: Scope, k: nat)
    decreases |es|
  {
    && |Within(scope, s.pending)| <= k
    && (es != [] ==> AtMostBetween(limits, Step(limits, s, es[0]), es[1..], scope, k))
  }

  ghost predicate Inv(s: State) {
    && s.pending !! s.accepted
    && (forall c :: c in s.pending || c in s.accepted ==> c.at <= s.clock && c.id < s.nextId)
    && (forall scope: Scope, c :: c in Stored(s, scope) ==> c in s.accepted && InScope(scope, c))
    && (forall scope: Scope, c :: c in s.accepted && InScope(scope, c) && c.at > s.clock - Width(scope) ==>
          c in Stored(s, scope))
    && (forall scope: Scope, c :: c in Stored(s, scope) ==> c.at + KeyTtl(scope) <= Deadline(s, scope))
  }

  /** No window of `scope` holds more than `bound` calls, whether already recorded or about to be. */
  ghost predicate Bounded(s: State, scope: Scope, bound: int) {
    forall t: int :: |InWindow(scope, s.accepted + s.pending, t)| <= bound
  }

  lemma SubsetSize<T>(a: set<T>, b: set<T>)
    requires a <= b
    ensures |a| <= |b|
  {
    assert b == a + (b - a);
  }

  lemma RecordKeepsInv(s: State, c: Call)
    requires Inv(s) && c in s.pending
    ensures Inv(Record(s, c))
  {
    var s' := Record(s, c);
    forall scope: Scope
      ensures Stored(s', scope) == Stored(s, scope) + if InScope(scope, c) then {c} else {}
      ensures Deadline(s', scope) == if InScope(scope, c) then s.clock + KeyTtl(scope) else Deadline(s, scope)
    {
    }
    forall scope: Scope, d | d in Stored(s', scope)
      ensures d in s'.accepted && InScope(scope, d) && d.at + KeyTtl(scope) <= Deadline(s', scope)
    {
      assert d in Stored(s, scope) || d == c;
    }
  }

  /** Anything that only drops stored calls which no later check can count, or only moves time on, is harmless. */
  lemma ShrinkKeepsInv(s: State, s': State)
    requires Inv(s)
    requires s'.clock >= s.clock && s'.nextId >= s.nextId && s'.accepted == s.accepted
    requires s'.userDeadline == s.userDeadline && s'.globalDeadline == s.globalDeadline
    requires forall c :: c in s'.pending ==> c in s.pending || (c.id == s.nextId < s'.nextId && c.at <= s'.clock)
    requires forall scope: Scope, c :: c in Stored(s', scope) ==> c in Stored(s, scope)
    requires forall scope: Scope, c :: c in Stored(s, scope) && c.at > s'.clock - Width(scope) ==> c in Stored(s', scope)
    ensures Inv(s')
  {
    forall scope: Scope, c | c in Stored(s', scope)
      ensures c in s'.accepted && InScope(scope, c) && c.at + KeyTtl(scope) <= Deadline(s', scope)
    {
      assert c in Stored(s, scope);
      assert Deadline(s', scope) == Deadline(s, scope);
    }
    forall scope: Scope, c | c in s'.accepted && InScope(scope, c) && c.at > s'.clock - Width(scope)
      ensures c in Stored(s', scope)
    {
      assert c in Stored(s, scope);
    }
  }

  lemma StepKeepsInv(limits: Limits, s: State, e: Event)
    requires Inv(s)
    ensures Inv(Step(limits, s, e))
  {
    if e.RecordCall? && e.call in s.pending {
      RecordKeepsInv(s, e.call);
    } else {
      var s' := Step(limits, s, e);
      forall scope: Scope, c | c in Stored(s, scope) && c.at > s'.clock - Width(scope)
        ensures c in Stored(s', scope)
      {
        assert c.at + KeyTtl(scope) <= Deadline(s, scope);
      }
      ShrinkKeepsInv(s, s');
    }
  }

  /**
   Pruning and key expiry never lose a call that a later check must count: the number a check
   counts is exactly the number of accepted calls in the window that ends now.
   */
  lemma CheckCountsTheWindow(s: State, scope: Scope)
    requires Inv(s)
    ensures Prune(Stored(s, scope), s.clock, Width(scope)) == InWindow(scope, s.accepted, s.clock)
  {
    forall c ensures c in Prune(Stored(s, scope), s.clock, Width(scope)) <==> c in InWindow(scope, s.accepted, s.clock)
    {
      if c in s.accepted && InScope(scope, c) && c.at > s.clock - Width(scope) {
        assert c in Stored(s, scope);
      }
    }
  }

  /** What a passing check has counted for `scope` is below the limit. */
  lemma CountedBelowLimit(limits: Limits, s: State, user: string, scope: Scope)
    requires Inv(s) && VerdictOf(limits, s, user).Allowed? && (scope.One? ==> scope.user == user)
    ensures |InWindow(scope, s.accepted, s.clock)| < Limit(limits, scope)
    ensures 0 < limits.user && 0 < limits.global
  {
    CheckCountsTheWindow(s, One(user));
    CheckCountsTheWindow(s, Everybody);
    assert UserSet(s.users, user) == Stored(s, One(user));
    SubsetSize(InWindow(One(user), s.accepted, s.clock), InWindow(Everybody, s.accepted, s.clock));
  }

  lemma CheckKeepsBound(limits: Limits, s: State, user: string, scope: Scope, k: nat)
    requires Inv(s) && 1 <= k && Bounded(s, scope, Most(limits, scope, k))
    requires |Within(scope, Check(limits, s, user).pending)| <= k
    ensures Bounded(Check(limits, s, user), scope, Most(limits, scope, k))
  {
    var s' := Check(limits, s, user);
    var fresh_ := Call(s.nextId, user, s.clock);
    forall t: int ensures |InWindow(scope, s'.accepted + s'.pending, t)| <= Most(limits, scope, k) {
      if VerdictOf(limits, s, user).Allowed? && InScope(scope, fresh_) && t >= s.clock {
        // Everything in the window was counted by this check or is still between check and record.
        var counted := InWindow(scope, s.accepted, s.clock);
        var waiting := Within(scope, s'.pending);
        CountedBelowLimit(limits, s, user, scope);
        SubsetSize(InWindow(scope, s'.accepted + s'.pending, t), counted + waiting);
        assert |counted + waiting| <= |counted| + |waiting|;
      } else {
        assert InWindow(scope, s'.accepted + s'.pending, t) == InWindow(scope, s.accepted + s.pending, t);
      }
    }
  }

  lemma StepKeepsBound(limits: Limits, s: State, e: Event, scope: Scope, k: nat)
    requires Inv(s) && 1 <= k && Bounded(s, scope, Most(limits, scope, k))
    requires |Within(scope, Step(limits, s, e).pending)| <= k
    ensures Bounded(Step(limits, s, e), scope, Most(limits, scope, k))
  {
    if e.CheckNow? {
      CheckKeepsBound(limits, s, e.user, scope, k);
    } else {
      var s' := Step(limits, s, e);
      forall t: int ensures |InWindow(scope, s'.accepted + s'.pending, t)| <= Most(limits, scope, k) {
        SubsetSize(InWindow(scope, s'.accepted + s'.pending, t), InWindow(scope, s.accepted + s.pending, t));
      }
    }
  }

  lemma {:induction false} RunKeepsBound(limits: Limits, s: State, es: seq<Event>, scope: Scope, k: nat)
    requires Inv(s) && 1 <= k && Bounded(s, scope, Most(limits, scope, k))
    requires AtMostBetween(limits, s, es, scope, k)
    ensures Inv(Run(limits, s, es)) && Bounded(Run(limits, s, es), scope, Most(limits, scope, k))
    decreases |es|
  {
    if es != [] {
      var s' := Step(limits, s, es[0]);
      assert AtMostBetween(limits, s', es[1..], scope, k);
      StepKeepsInv(limits, s, es[0]);
      StepKeepsBound(limits, s, es[0], scope, k);
      RunKeepsBound(limits, s', es[1..], scope, k);
    }
  }

  /**
   Main result: while at most `k` calls of a user (or of everybody) are ever between check and
   record, every window holds at most limit + k - 1 accepted calls; with `k` = 1, at most the limit.
   */
  lemma WindowsAreBounded(limits: Limits, es: seq<Event>, scope: Scope, k: nat, t: int)
    requires 1 <= k && AtMostBetween(limits, Init(), es, scope, k)
    ensures |InWindow(scope, Run(limits, Init(), es).accepted, t)| <= Most(limits, scope, k)
  {
    var s := Run(limits, Init(), es);
    RunKeepsBound(limits, Init(), es, scope, k);
    SubsetSize(InWindow(scope, s.accepted, t), InWindow(scope, s.accepted + s.pending, t));
  }

  /** A call is refused for its user's sake only when the user's window really is full, and likewise overall. */
  lemma RefusedExactlyWhenFull(limits: Limits, es: seq<Event>, user: string)
    ensures
      var s := Run(limits, Init(), es);
      var mine := |InWindow(One(user), s.accepted, s.clock)|;
      var all := |InWindow(Everybody, s.accepted, s.clock)|;
      VerdictOf(limits, s, user) ==
      if mine >= limits.user then Refused(60_000) else if all >= limits.global then Refused(3_600_000) else Allowed
  {
    var s := Run(limits, Init(), es);
    RunKeepsInv(limits, Init(), es);
    CheckCountsTheWindow(s, One(user));
    CheckCountsTheWindow(s, Everybody);
    assert UserSet(s.users, user) == Stored(s, One(user));
  }

  lemma {:induction false} RunKeepsInv(limits: Limits, s: State, es: seq<Event>)
    requires Inv(s)
    ensures Inv(Run(limits, s, es))
    decreases |es|
  {
    if es != [] {
      StepKeepsInv(limits, s, es[0]);
      RunKeepsInv(limits, Step(limits, s, es[0]), es[1..]);
    }
  }

  // ---------- What is stored ----------

  /**
   A check removes from its user's set exactly what is 60 seconds old or older, from the global one what is
   an hour old or older, and touches nobody else's.
   */
  lemma CheckPrunes(limits: Limits, s: State, user: string)
    ensures
      var s' := Step(limits, s, CheckNow(user));
      && user in s'.users && s'.accepted == s.accepted && s'.clock == s.clock
      && (forall c :: c in s'.users[user] <==> user in s.users && c in s.users[user] && c.at > s.clock - 60_000)
      && (forall c :: c in s'.all <==> c in s.all && c.at > s.clock - 3_600_000)
      && (forall u :: u != user ==> (u in s'.users <==> u in s.users))
      && (forall u :: u != user && u in s.users ==> s'.users[u] == s.users[u])
      && (VerdictOf(limits, s, user).Refused? ==> s'.pending == s.pending)
      && (VerdictOf(limits, s, user).Allowed? ==> s'.pending == s.pending + {Call(s.nextId, user, s.clock)})
  {
  }

  /** A call whose record fails is forgotten and never counted; Redis drops a key only once its deadline has passed. */
  lemma LostAndExpired(limits: Limits, s: State, c: Call, user: string)
    ensures var lost := Step(limits, s, LoseCall(c));
            lost == s.(pending := lost.pending) && forall d :: d in lost.pending <==> d in s.pending && d != c
    ensures var expired := Step(limits, s, ExpireUser(user));
            && expired == s.(users := expired.users)
            && (user in expired.users <==> user in s.users && (user in s.userDeadline ==> s.clock < s.userDeadline[user]))
            && forall u :: u != user ==> (u in expired.users <==> u in s.users) && (u in s.users ==> expired.users[u] == s.users[u])
    ensures Step(limits, s, ExpireGlobal) == if s.clock < s.globalDeadline then s else s.(all := {})
  {
  }

  /**
   A record adds its call to its user's set and to the global one, and lets each live on for an hour and two
   hours: Redis drops them then, and not before.
   */
  lemma RecordedForItsTime(limits: Limits, s: State, c: Call, elapsed: nat)
    requires c in s.pending
    ensures
      var s1 := Step(limits, s, RecordCall(c));
      var s2 := Step(limits, s1, Tick(elapsed));
      && c.user in s1.users && s1.users[c.user] == (if c.user in s.users then s.users[c.user] else {}) + {c}
      && s1.all == s.all + {c} && (forall u :: u != c.user && u in s.users ==> u in s1.users && s1.users[u] == s.users[u])
      && (c.user !in Step(limits, s2, ExpireUser(c.user)).users <==> elapsed >= 3_600_000)
      && (c !in Step(limits, s2, ExpireGlobal).all <==> elapsed >= 7_200_000)
  {
  }

  // ---------- The bound is exact ----------

  function Name(n: nat): string {
    seq(n, _ => 'u')
  }

  lemma NamesDiffer(m: nat, n: nat)
    requires m != n
    ensures Name(m) != Name(n)
  {
    assert |Name(m)| == m && |Name(n)| == n;
  }

  /** Who makes call number `id` of a burst: always the same user, or a new one every time. */
  function Caller(scope: Scope, id: nat): string {
    if scope.One? then scope.user else Name(id)
  }

  /** All calls so far are at the present moment, each by its caller. */
  ghost predicate Burst(s: State, scope: Scope) {
    Inv(s) && forall c :: c in s.accepted || c in s.pending ==> c.user == Caller(scope, c.id) && c.at == s.clock
  }

  ghost predicate Room(limits: Limits, s: State, scope: Scope) {
    |s.accepted| < Limit(limits, scope) && 0 < limits.user
  }

  function NextCall(s: State, scope: Scope): Call {
    Call(s.nextId, Caller(scope, s.nextId), s.clock)
  }

  lemma BurstCheckPasses(limits: Limits, s: State, scope: Scope)
    requires Burst(s, scope) && Room(limits, s, scope)
    ensures
      var s', c := Check(limits, s, Caller(scope, s.nextId)), NextCall(s, scope);
      && s'.pending == s.pending + {c} && c !in s.pending && c !in s.accepted
      && s'.accepted == s.accepted && s'.clock == s.clock && Burst(s', scope)
  {
    var user := Caller(scope, s.nextId);
    CheckCountsTheWindow(s, One(user));
    CheckCountsTheWindow(s, Everybody);
    assert UserSet(s.users, user) == Stored(s, One(user));
    assert InWindow(Everybody, s.accepted, s.clock) == s.accepted;
    if scope.One? {
      assert InWindow(One(user), s.accepted, s.clock) == s.accepted;
    } else {
      forall c | c in s.accepted ensures c.user != user { NamesDiffer(c.id, s.nextId); }
      assert InWindow(One(user), s.accepted, s.clock) == {};
    }
    StepKeepsInv(limits, s, CheckNow(user));
  }

  lemma Prepend(limits: Limits, s: State, e: Event, es: seq<Event>, scope: Scope, k: nat)
    requires |s.pending| <= k && AtMostBetween(limits, Step(limits, s, e), es, scope, k)
    ensures AtMostBetween(limits, s, [e] + es, scope, k)
    ensures Run(limits, s, [e] + es) == Run(limits, Step(limits, s, e), es)
  {
    SubsetSize(Within(scope, s.pending), s.pending);
    assert ([e] + es)[1..] == es;
  }

  lemma BurstRecord(limits: Limits, s: State, scope: Scope, c: Call)
    requires Burst(s, scope) && c in s.pending
    ensures Burst(Step(limits, s, RecordCall(c)), scope)
    ensures Step(limits, s, RecordCall(c)).clock == s.clock
    ensures Step(limits, s, RecordCall(c)).pending == s.pending - {c}
    ensures Step(limits, s, RecordCall(c)).accepted == s.accepted + {c}
    ensures s.accepted + s.pending == (s.accepted + {c}) + (s.pending - {c})
    ensures |s.pending - {c}| == |s.pending| - 1
  {
    StepKeepsInv(limits, s, RecordCall(c));
  }

  lemma {:induction false} RecordEverything(limits: Limits, s: State, scope: Scope, k: nat) returns (es: seq<Event>)
    requires Burst(s, scope) && |s.pending| <= k
    ensures AtMostBetween(limits, s, es, scope, k)
    ensures Run(limits, s, es).accepted == s.accepted + s.pending && Run(limits, s, es).clock == s.clock
    decreases |s.pending|
  {
    if s.pending == {} {
      es := [];
      assert Within(scope, s.pending) == {};
    } else {
      var c :| c in s.pending;
      BurstRecord(limits, s, scope, c);
      es := RecordEverything(limits, Step(limits, s, RecordCall(c)), scope, k);
      Prepend(limits, s, RecordCall(c), es, scope, k);
      es := [RecordCall(c)] + es;
    }
  }

  /** From one call below the limit, `k` checks in a row all pass before any of them is recorded. */
  lemma {:induction false} CheckInParallel(limits: Limits, s: State, scope: Scope, k: nat) returns (es: seq<Event>)
    requires Burst(s, scope) && |s.pending| <= k && Room(limits, s, scope)
    ensures AtMostBetween(limits, s, es, scope, k)
    ensures |Run(limits, s, es).accepted| == |s.accepted| + k && Run(limits, s, es).clock == s.clock
    ensures forall c :: c in Run(limits, s, es).accepted ==> InScope(scope, c) && c.at == s.clock
    decreases k - |s.pending|
  {
    if |s.pending| == k {
      es := RecordEverything(limits, s, scope, k);
    } else {
      var e := CheckNow(Caller(scope, s.nextId));
      BurstCheckPasses(limits, s, scope);
      es := CheckInParallel(limits, Step(limits, s, e), scope, k);
      Prepend(limits, s, e, es, scope, k);
      es := [e] + es;
    }
  }

  lemma {:induction false} CheckOneByOne(limits: Limits, s: State, scope: Scope, k: nat) returns (es: seq<Event>)
    requires Burst(s, scope) && s.pending == {} && Room(limits, s, scope) && 1 <= k
    ensures AtMostBetween(limits, s, es, scope, k)
    ensures |Run(limits, s, es).accepted| == Limit(limits, scope) + k - 1 && Run(limits, s, es).clock == s.clock
    ensures forall c :: c in Run(limits, s, es).accepted ==> InScope(scope, c) && c.at == s.clock
    decreases Limit(limits, scope) - |s.accepted|
  {
    if |s.accepted| == Limit(limits, scope) - 1 {
      es := CheckInParallel(limits, s, scope, k);
    } else {
      var e, c := CheckNow(Caller(scope, s.nextId)), NextCall(s, scope);
      BurstCheckPasses(limits, s, scope);
      var s1 := Step(limits, s, e);
      BurstRecord(limits, s1, scope, c);
      var s2 := Step(limits, s1, RecordCall(c));
      es := CheckOneByOne(limits, s2, scope, k);
      Prepend(limits, s1, RecordCall(c), es, scope, k);
      Prepend(limits, s, e, [RecordCall(c)] + es, scope, k);
      es := [e] + ([RecordCall(c)] + es);
    }
  }

  /**
   Main result: the bound is exact, for every pair of limits, for a user's windows and the global ones.
   Some run with at most `k` calls in between fills a window that far.
   */
  lemma OvershootIsReached(limits: Limits, scope: Scope, k: nat)
    requires 1 <= k
    ensures exists es: seq<Event> ::
              && AtMostBetween(limits, Init(), es, scope, k)
              && |InWindow(scope, Run(limits, Init(), es).accepted, 0)| == Most(limits, scope, k)
  {
    if limits.user == 0 || limits.global == 0 {
      var es: seq<Event> := [];
      assert Within(scope, Init().pending) == {} && AtMostBetween(limits, Init(), es, scope, k);
      assert InWindow(scope, Run(limits, Init(), es).accepted, 0) == {};
    } else {
      var es := CheckOneByOne(limits, Init(), scope, k);
      var s := Run(limits, Init(), es);
      assert InWindow(scope, s.accepted, 0) == s.accepted;
    }
  }

  /** The limiter over its two sorted-set families; `pending` stands for the suspended calls. */
  class RateLimiter {
    const limits: Limits
    var clock: nat
    var users: map<string, set<Call>>
    var all: set<Call>
    var userDeadline: map<string, nat>
    var globalDeadline: nat
    var pending: set<Call>
    var nextId: nat
    ghost var accepted: set<Call>

    ghost function View(): State
      reads this
    {
      State(clock, users, all, userDeadline, globalDeadline, pending, accepted, nextId)
    }

    constructor (limits: Limits)
      ensures this.limits == limits && View() == Init()
    {
      this.limits := limits;
      clock, users, all, userDeadline, globalDeadline := 0, map[], {}, map[], 0;
      pending, nextId, accepted := {}, 0, {};
    }

    /** The part of checkAndRecord up to its second await; `call` is what it will record if allowed. */
    method CheckTransaction(user: string) returns (verdict: Verdict, call: Call)
      modifies this
      ensures View() == Step(limits, old(View()), CheckNow(user))
      ensures verdict == VerdictOf(limits, old(View()), user)
      ensures verdict.Allowed? ==> call in pending && call.user == user && call.at == clock
    {
      var mine := Prune(UserSet(users, user), clock, USER_WINDOW);
      users := users[user := mine];
      all := Prune(all, clock, GLOBAL_WINDOW);
      var userCount, globalCount := |mine|, |all|;
      call := Call(nextId, user, clock);
      if userCount >= limits.user {
        return Refused(60_000), call;
      }
      if globalCount >= limits.global {
        return Refused(3_600_000), call;
      }
      pending, nextId := pending + {call}, nextId + 1;
      verdict := Allowed;
    }

    method RecordTransaction(call: Call)
      requires call in pending
      modifies this
      ensures View() == Step(limits, old(View()), RecordCall(call))
    {
      users := users[call.user := UserSet(users, call.user) + {call}];
      userDeadline := userDeadline[call.user := clock + USER_KEY_TTL];
      all := all + {call};
      globalDeadline := clock + GLOBAL_KEY_TTL;
      pending, accepted := pending - {call}, accepted + {call};
    }
  }
}
