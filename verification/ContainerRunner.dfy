/**
 Container lifecycle (src/container-runner.ts, src/container-restart.ts).

 A wake runs up to its first await, is suspended in its setup, and either fails or spawns; its
 promise leaves the wake map a few microtasks later.  A process that ends raises `close`, or `error`
 and perhaps a `close` later.  Each of these is one atomic step, in any order the event loop allows: process events are
 delivered only when no finished wake is still waiting for its microtasks.
 */
module Containers {

  type SessionId = string
  type Pid = nat

  /** A process that failed has ended with `error`; its `close` may still come.  One that is gone raises nothing more. */
  datatype Life = Alive | Failed | Gone

  /** `onExit` counts the wake callbacks registered for `close`. */
  datatype Process = Process(session: SessionId, life: Life, onExit: nat) {
    predicate Live() {
      life == Alive
    }
  }

  datatype Phase = SettingUp | Finishing

  /** `starts` and `spawns` count, over the whole run, the setups begun and the processes spawned per session. */
  datatype State = State(
    active: map<SessionId, Pid>,
    wakes: map<SessionId, Phase>,
    processes: map<Pid, Process>,
    nextPid: Pid,
    starts: map<SessionId, nat>,
    spawns: map<SessionId, nat>)

  function Init(): State {
    State(map[], map[], map[], 0, map[], map[])
  }

  function Count(m: map<SessionId, nat>, session: SessionId): nat {
    if session in m then m[session] else 0
  }

  /** wakeContainer: nothing to do when running, join when a wake is in flight, else begin a setup. */
  function Wake(s: State, session: SessionId): State {
    if session in s.active || session in s.wakes then s
    else s.(wakes := s.wakes[session := SettingUp], starts := s.starts[session := Count(s.starts, session) + 1])
  }

  function WakeTimes(s: State, session: SessionId, n: nat): State
    decreases n
  {
    if n == 0 then s else WakeTimes(Wake(s, session), session, n - 1)
  }

  /** The setup of `session` is over: with a container process, or with an exception or a missing agent group. */
  function FinishSetup(s: State, session: SessionId, spawned: bool): State {
    var done := s.(wakes := s.wakes[session := Finishing]);
    if !spawned then done
    else done.(active := s.active[session := s.nextPid],
               processes := s.processes[s.nextPid := Process(session, Alive, 0)],
               nextPid := s.nextPid + 1,
               spawns := s.spawns[session := Count(s.spawns, session) + 1])
  }

  function Kill(s: State, session: SessionId, withWake: bool): State {
    if session !in s.active || s.active[session] !in s.processes || !withWake then s
    else
      var p := s.processes[s.active[session]];
      s.(processes := s.processes[s.active[session] := p.(onExit := p.onExit + 1)])
  }

  /** The handler of both `close` and `error`: it removes the entry of the session, whichever process that is. */
  function Untrack(s: State, pid: Pid): State
    requires pid in s.processes
  {
    s.(active := s.active - {s.processes[pid].session})
  }

  /** The process ends, with `error` (and is then Failed) or with `close` (and is then Gone). */
  function End(s: State, pid: Pid, life: Life): State
    requires pid in s.processes
  {
    Untrack(s, pid).(processes := s.processes[pid := s.processes[pid].(life := life)])
  }

  datatype Event =
    | WakeUp(session: SessionId)
    | SetupOver(session: SessionId, spawned: bool)
    | WakeSettled(session: SessionId)
    | KillNow(session: SessionId, withWake: bool)
    | Close(pid: Pid, sessionExists: bool)   // of a running process, or late, of one that has failed
    | SpawnError(pid: Pid)   // the process ends with `error`
    | StrayError(pid: Pid)   // `error` from a process that stays alive, e.g. because it could not be killed

  predicate MicrotasksDone(s: State) {
    forall session :: session in s.wakes ==> s.wakes[session] != Finishing
  }

  predicate Ends(s: State, pid: Pid) {
    pid in s.processes && s.processes[pid].Live() && MicrotasksDone(s)
  }

  predicate CanClose(s: State, pid: Pid) {
    pid in s.processes && s.processes[pid].life != Gone && MicrotasksDone(s)
  }

  /** The wake callbacks a close runs: none without a session to wake. */
  function Callbacks(s: State, pid: Pid, sessionExists: bool): nat
    requires pid in s.processes
  {
    if sessionExists then s.processes[pid].onExit else 0
  }

  function Step(s: State, e: Event): State {
    match e
    case WakeUp(session) => Wake(s, session)
    case SetupOver(session, spawned) =>
      if session in s.wakes && s.wakes[session] == SettingUp then FinishSetup(s, session, spawned) else s
    case WakeSettled(session) =>
      if session in s.wakes && s.wakes[session] == Finishing then s.(wakes := s.wakes - {session}) else s
    case KillNow(session, withWake) => Kill(s, session, withWake)
    case Close(pid, sessionExists) =>
      if !CanClose(s, pid) then s
      else WakeTimes(End(s, pid, Gone), s.processes[pid].session, Callbacks(s, pid, sessionExists))
    case SpawnError(pid) => if Ends(s, pid) then End(s, pid, Failed) else s
    case StrayError(pid) => if Ends(s, pid) then Untrack(s, pid) else s
  }

  function Run(s: State, es: seq<Event>): State
    decreases |es|
  {
    if es == [] then s else Run(Step(s, es[0]), es[1..])
  }

  ghost predicate Tracked(s: State) {
    && (forall a :: a in s.active ==>
          s.active[a] in s.processes && s.processes[s.active[a]].Live() && s.processes[s.active[a]].session == a)
    && (forall p :: p in s.processes && s.processes[p].Live() ==>
          s.processes[p].session in s.active && s.active[s.processes[p].session] == p)
    && (forall p :: p in s.processes ==> p < s.nextPid)
    && (forall a :: a in s.wakes && s.wakes[a] == SettingUp ==> a !in s.active)
  }

  ghost predicate AtMostOneLive(s: State) {
    forall p, q ::
      && p in s.processes && s.processes[p].Live()
      && q in s.processes && s.processes[q].Live()
      && s.processes[p].session == s.processes[q].session
      ==> p == q
  }

  /** Joining wakes: however often it is repeated, only the first one can begin a setup. */
  lemma {:induction false} WakesJoin(s: State, session: SessionId, n: nat)
    ensures WakeTimes(s, session, n) == if n == 0 then s else Wake(s, session)
    decreases n
  {
    if n > 0 {
      WakesJoin(Wake(s, session), session, n - 1);
      assert Wake(Wake(s, session), session) == Wake(s, session);
    }
  }

  lemma EndKeepsTracked(s: State, pid: Pid, life: Life)
    requires Tracked(s) && Ends(s, pid) && life != Alive
    ensures Tracked(End(s, pid, life)) && s.processes[pid].session !in s.wakes
  {
  }

  /**
   A step that frees the entry of a live process: an `error` from a process that lives on, or the late
   `close` of a failed one whose session has a new container by then.
   */
  predicate FreesLive(s: State, e: Event) {
    match e
    case StrayError(pid) => Ends(s, pid)
    case Close(pid, _) => CanClose(s, pid) && !s.processes[pid].Live() && s.processes[pid].session in s.active
    case _ => false
  }

  /** A late close that finds no entry to free changes nothing the invariant speaks of. */
  lemma LateEndKeepsTracked(s: State, pid: Pid)
    requires Tracked(s) && CanClose(s, pid) && !s.processes[pid].Live() && s.processes[pid].session !in s.active
    ensures Tracked(End(s, pid, Gone))
  {
  }

  lemma WakeKeepsTracked(s: State, session: SessionId)
    requires Tracked(s)
    ensures Tracked(Wake(s, session))
  {
  }

  lemma CloseKeepsTracked(s: State, pid: Pid, sessionExists: bool)
    requires Tracked(s) && CanClose(s, pid) && !FreesLive(s, Close(pid, sessionExists))
    ensures Tracked(Step(s, Close(pid, sessionExists)))
  {
    hide Tracked, Wake, End, MicrotasksDone;
    var session := s.processes[pid].session;
    if s.processes[pid].Live() {
      EndKeepsTracked(s, pid, Gone);
    } else {
      LateEndKeepsTracked(s, pid);
    }
    WakesJoin(End(s, pid, Gone), session, Callbacks(s, pid, sessionExists));
    WakeKeepsTracked(End(s, pid, Gone), session);
  }

  lemma FreedIsUntracked(s: State, e: Event)
    requires Tracked(s) && FreesLive(s, e)
    ensures !Tracked(Step(s, e))
  {
    var s' := Step(s, e);
    match e
    case StrayError(pid) =>
      assert pid in s'.processes && s'.processes[pid].Live() && s'.processes[pid].session !in s'.active;
    case Close(pid, sessionExists) =>
      var session := s.processes[pid].session;
      var q := s.active[session];
      WakesJoin(End(s, pid, Gone), session, Callbacks(s, pid, sessionExists));
      assert q in s'.processes && s'.processes[q].Live() && s'.processes[q].session == session && session !in s'.active;
  }

  /** The invariant survives a step if and only if the step does not free the entry of a live process. */
  lemma TrackingSurvives(s: State, e: Event)
    requires Tracked(s)
    ensures Tracked(Step(s, e)) <==> !FreesLive(s, e)
  {
    if FreesLive(s, e) {
      FreedIsUntracked(s, e);
    } else {
      match e
      case Close(pid, sessionExists) => if CanClose(s, pid) { CloseKeepsTracked(s, pid, sessionExists); }
      case SpawnError(pid) => if Ends(s, pid) { EndKeepsTracked(s, pid, Failed); }
      case _ =>
    }
  }

  ghost predicate AlwaysTracked(s: State, es: seq<Event>)
    decreases |es|
  {
    Tracked(s) && (es != [] ==> AlwaysTracked(Step(s, es[0]), es[1..]))
  }

  ghost predicate NeverFreesLive(s: State, es: seq<Event>)
    decreases |es|
  {
    es != [] ==> !FreesLive(s, es[0]) && NeverFreesLive(Step(s, es[0]), es[1..])
  }

  /** Over a whole run the invariant holds throughout if and only if no step frees the entry of a live process. */
  lemma {:induction false} AlwaysTrackedExactlyWhen(s: State, es: seq<Event>)
    requires Tracked(s)
    ensures AlwaysTracked(s, es) <==> NeverFreesLive(s, es)
    ensures NeverFreesLive(s, es) ==> Tracked(Run(s, es))
    decreases |es|
  {
    hide Step, Tracked, FreesLive;
    if es != [] {
      TrackingSurvives(s, es[0]);
      if !FreesLive(s, es[0]) {
        AlwaysTrackedExactlyWhen(Step(s, es[0]), es[1..]);
      }
    }
  }

  /**
   Main result: in every run in which no step frees the entry of a live process, no session ever has
   two live containers, and the active map lists exactly the live ones.
   */
  lemma OneContainerPerSession(es: seq<Event>)
    requires NeverFreesLive(Init(), es)
    ensures
      var s := Run(Init(), es);
      && AtMostOneLive(s)
      && (forall a :: a in s.active ==>
            s.active[a] in s.processes && s.processes[s.active[a]].Live() && s.processes[s.active[a]].session == a)
      && (forall p :: p in s.processes ==>
            (s.processes[p].Live() <==> s.processes[p].session in s.active && s.active[s.processes[p].session] == p))
  {
    AlwaysTrackedExactlyWhen(Init(), es);
  }

  lemma {:induction false} RunConcat(s: State, a: seq<Event>, b: seq<Event>)
    ensures Run(s, a + b) == Run(Run(s, a), b)
    decreases |a|
  {
    hide Step;
    if a == [] {
      assert a + b == b;
    } else {
      assert (a + b)[1..] == a[1..] + b;
      RunConcat(Step(s, a[0]), a[1..], b);
    }
  }

  lemma RunOne(s: State, a: Event)
    ensures Run(s, [a]) == Step(s, a)
  {
    hide Step;
    assert [a][1..] == [];
  }

  lemma RunTwo(s: State, a: Event, b: Event)
    ensures Run(s, [a, b]) == Step(Step(s, a), b)
  {
    hide Step;
    assert [a, b][1..] == [b];
    RunOne(Step(s, a), b);
  }

  lemma RunThree(s: State, a: Event, b: Event, c: Event)
    ensures Run(s, [a, b, c]) == Step(Step(Step(s, a), b), c)
  {
    hide Step;
    assert [a, b, c][1..] == [b, c];
    RunTwo(Step(s, a), b, c);
  }

  function SpawnOne(session: SessionId): seq<Event> {
    [WakeUp(session), SetupOver(session, true), WakeSettled(session)]
  }

  lemma OneSpawned(s: State, session: SessionId)
    requires session !in s.active && session !in s.wakes
    ensures
      var s' := Run(s, SpawnOne(session));
      && s'.active == s.active[session := s.nextPid] && s'.wakes == s.wakes && s'.nextPid == s.nextPid + 1
      && s'.processes == s.processes[s.nextPid := Process(session, Alive, 0)]
  {
    RunThree(s, WakeUp(session), SetupOver(session, true), WakeSettled(session));
  }

  /** A stray error frees the entry, and the next wake spawns a second container. */
  lemma StrayErrorDuplicates(session: SessionId)
    ensures exists es: seq<Event> :: !AtMostOneLive(Run(Init(), es))
  {
    hide Run, SpawnOne;
    OneSpawned(Init(), session);
    var s1 := Run(Init(), SpawnOne(session));
    var s2 := Step(s1, StrayError(0));
    assert s2.processes[0].Live() && s2.nextPid == 1;
    OneSpawned(s2, session);
    RunOne(s1, StrayError(0));
    RunConcat(Init(), SpawnOne(session), [StrayError(0)]);
    var es := SpawnOne(session) + [StrayError(0)];
    RunConcat(Init(), es, SpawnOne(session));
    var s3 := Run(s2, SpawnOne(session));
    assert s3.processes[0].Live() && s3.processes[1].Live();
    assert !AtMostOneLive(Run(Init(), es + SpawnOne(session)));
  }

  /** So does the late close of a failed spawn, when the session has a new container by then. */
  lemma LateCloseDuplicates(session: SessionId)
    ensures !AtMostOneLive(Run(Init(),
      SpawnOne(session) + [SpawnError(0)] + SpawnOne(session) + [Close(0, true)] + SpawnOne(session)))
  {
    hide Run, SpawnOne;
    OneSpawned(Init(), session);
    var s1 := Run(Init(), SpawnOne(session));
    var s2 := Step(s1, SpawnError(0));
    assert s2.processes == map[0 := Process(session, Failed, 0)] && s2.active == map[] && s2.wakes == map[] && s2.nextPid == 1;
    OneSpawned(s2, session);
    var s3 := Run(s2, SpawnOne(session));
    var s4 := Step(s3, Close(0, true));
    assert s4.processes[1] == Process(session, Alive, 0) && s4.active == map[] && s4.wakes == map[] && s4.nextPid == 2;
    OneSpawned(s4, session);
    var s5 := Run(s4, SpawnOne(session));
    assert s5.processes[1].Live() && s5.processes[2].Live() && s5.processes[1].session == s5.processes[2].session;
    RunOne(s1, SpawnError(0));
    RunOne(s3, Close(0, true));
    RunConcat(Init(), SpawnOne(session), [SpawnError(0)]);
    var es := SpawnOne(session) + [SpawnError(0)];
    RunConcat(Init(), es, SpawnOne(session));
    RunConcat(Init(), es + SpawnOne(session), [Close(0, true)]);
    RunConcat(Init(), es + SpawnOne(session) + [Close(0, true)], SpawnOne(session));
  }

  /**
   Main result: when a process closes, its kill-with-wake requests, however many, begin exactly one
   fresh setup, provided the session still exists and no setup of it is under way; ending by `error`
   answers none, but the close that may follow does.
   */
  lemma KillsWithWakeRestartOnce(s: State, pid: Pid, sessionExists: bool)
    requires Tracked(s) && CanClose(s, pid) && !FreesLive(s, Close(pid, sessionExists))
    ensures
      var session := s.processes[pid].session;
      var s' := Step(s, Close(pid, sessionExists));
      var again := sessionExists && s.processes[pid].onExit > 0;
      && session !in s'.active
      && (session in s'.wakes <==> again || session in s.wakes)
      && Count(s'.starts, session) == Count(s.starts, session) + (if again && session !in s.wakes then 1 else 0)
      && s'.spawns == s.spawns
      && (s.processes[pid].Live() ==> session !in s.wakes)
      && !CanClose(s', pid)
    ensures Step(s, SpawnError(pid)).starts == s.starts && Step(s, SpawnError(pid)).wakes == s.wakes
  {
    if s.processes[pid].Live() { EndKeepsTracked(s, pid, Gone); }
    WakesJoin(End(s, pid, Gone), s.processes[pid].session, Callbacks(s, pid, sessionExists));
  }

  /** Whether a step can begin a setup of `session`: a wake, or the close of a process with callbacks. */
  predicate Requests(s: State, e: Event, session: SessionId) {
    match e
    case WakeUp(a) => a == session
    case Close(pid, exists_) =>
      exists_ && CanClose(s, pid) && s.processes[pid].session == session && s.processes[pid].onExit > 0
    case _ => false
  }

  function RequestCount(s: State, es: seq<Event>, session: SessionId): nat
    decreases |es|
  {
    if es == [] then 0
    else (if Requests(s, es[0], session) then 1 else 0) + RequestCount(Step(s, es[0]), es[1..], session)
  }

  ghost predicate SpawnsFollowStarts(s: State, session: SessionId) {
    Count(s.spawns, session) + (if session in s.wakes && s.wakes[session] == SettingUp then 1 else 0)
      <= Count(s.starts, session)
  }

  lemma StepStarts(s: State, e: Event, session: SessionId)
    requires SpawnsFollowStarts(s, session)
    ensures SpawnsFollowStarts(Step(s, e), session)
    ensures Count(Step(s, e).starts, session) <= Count(s.starts, session) + if Requests(s, e, session) then 1 else 0
  {
    if e.Close? && CanClose(s, e.pid) {
      WakesJoin(End(s, e.pid, Gone), s.processes[e.pid].session, Callbacks(s, e.pid, e.sessionExists));
    }
  }

  lemma {:induction false} StartsAreRequested(s: State, es: seq<Event>, session: SessionId)
    requires SpawnsFollowStarts(s, session)
    ensures Count(Run(s, es).starts, session) <= Count(s.starts, session) + RequestCount(s, es, session)
    ensures SpawnsFollowStarts(Run(s, es), session)
    decreases |es|
  {
    hide Step, Requests;
    if es != [] {
      StepStarts(s, es[0], session);
      StartsAreRequested(Step(s, es[0]), es[1..], session);
    }
  }

  /** Over any run, no more containers are spawned for a session than there were wakes and closes that asked for one. */
  lemma SpawnsAreEarned(es: seq<Event>, session: SessionId)
    ensures Count(Run(Init(), es).spawns, session) <= RequestCount(Init(), es, session)
  {
    StartsAreRequested(Init(), es, session);
  }

  // ---------- The end of a setup ----------

  /**
   A failed setup leaves nothing behind: no container, no wake in flight, everything else as it was; and
   the next wake of the session begins a new setup.
   */
  lemma FailedSetupIsForgotten(s: State, session: SessionId)
    requires Tracked(s) && session in s.wakes && s.wakes[session] == SettingUp
    ensures
      var s1 := Run(s, [SetupOver(session, false), WakeSettled(session)]);
      var s2 := Step(s1, WakeUp(session));
      && session !in s1.active && s1.active == s.active && s1.processes == s.processes && s1.nextPid == s.nextPid
      && s1.wakes == s.wakes - {session} && s1.starts == s.starts && s1.spawns == s.spawns
      && session in s2.wakes && s2.wakes[session] == SettingUp && Count(s2.starts, session) == Count(s.starts, session) + 1
  {
    RunTwo(s, SetupOver(session, false), WakeSettled(session));
  }

  /** A setup that spawns leaves one live container in the active map, and further wakes change nothing. */
  lemma FinishedSetupRuns(s: State, session: SessionId)
    requires Tracked(s) && session in s.wakes && s.wakes[session] == SettingUp
    ensures
      var s1 := Run(s, [SetupOver(session, true), WakeSettled(session)]);
      && session in s1.active && s1.active[session] !in s.processes
      && s1.processes == s.processes[s1.active[session] := Process(session, Alive, 0)]
      && s1.active == s.active[session := s1.active[session]]
      && s1.wakes == s.wakes - {session} && s1.starts == s.starts
      && Count(s1.spawns, session) == Count(s.spawns, session) + 1
      && Step(s1, WakeUp(session)) == s1
  {
    RunTwo(s, SetupOver(session, true), WakeSettled(session));
  }

  /** A kill without a wake, or of a session that runs nothing, leaves every map as it is. */
  lemma KillsChangeNothing(s: State, session: SessionId, withWake: bool)
    requires !withWake || session !in s.active
    ensures Step(s, KillNow(session, withWake)) == s
  {
  }

  // ---------- Restarting an agent group ----------

  /** The kills of one restart; `sessions` are those that were active and running when it began. */
  function KillAll(s: State, sessions: seq<SessionId>, withWake: bool): State
    decreases |sessions|
  {
    if sessions == [] then s else KillAll(Kill(s, sessions[0], withWake), sessions[1..], withWake)
  }

  /** Without a message to deliver, a restart only ends the containers: nothing is woken afterwards on its account. */
  lemma {:induction false} PlainRestart(s: State, sessions: seq<SessionId>)
    ensures KillAll(s, sessions, false) == s
    decreases |sessions|
  {
    if sessions != [] { PlainRestart(s, sessions[1..]); }
  }

  ghost predicate OneMoreCallback(s: State, s': State, sessions: set<SessionId>) {
    && s' == s.(processes := s'.processes) && s'.processes.Keys == s.processes.Keys
    && forall p :: p in s.processes ==>
         var was := s.processes[p];
         s'.processes[p] == was.(onExit := was.onExit + if was.Live() && was.session in sessions then 1 else 0)
  }

  lemma KillRegistersOnce(s: State, session: SessionId)
    requires Tracked(s) && session in s.active
    ensures Tracked(Kill(s, session, true)) && OneMoreCallback(s, Kill(s, session, true), {session})
    ensures Kill(s, session, true).active == s.active
  {
  }

  lemma CallbacksAddUp(s: State, s1: State, s2: State, a: set<SessionId>, b: set<SessionId>)
    requires OneMoreCallback(s, s1, a) && OneMoreCallback(s1, s2, b) && a !! b
    ensures OneMoreCallback(s, s2, a + b)
  {
  }

  ghost predicate Distinct(sessions: seq<SessionId>) {
    forall i, j :: 0 <= i < j < |sessions| ==> sessions[i] != sessions[j]
  }

  function Members(sessions: seq<SessionId>): set<SessionId> {
    set a | a in sessions
  }

  lemma SplitHead(sessions: seq<SessionId>)
    requires sessions != [] && Distinct(sessions)
    ensures Members(sessions) == {sessions[0]} + Members(sessions[1..])
    ensures sessions[0] !in Members(sessions[1..]) && Distinct(sessions[1..])
  {
    assert sessions == [sessions[0]] + sessions[1..];
  }

  /** A restart only registers callbacks: exactly one more on the live process of every listed session. */
  lemma {:induction false} RestartRegistersOnce(s: State, sessions: seq<SessionId>)
    requires Tracked(s) && Distinct(sessions) && Members(sessions) <= s.active.Keys
    ensures OneMoreCallback(s, KillAll(s, sessions, true), Members(sessions))
    decreases |sessions|
  {
    if sessions == [] {
      assert Members(sessions) == {};
    } else {
      hide Tracked, Kill, OneMoreCallback, Members, Distinct;
      var s1 := Kill(s, sessions[0], true);
      var rest := sessions[1..];
      SplitHead(sessions);
      KillRegistersOnce(s, sessions[0]);
      RestartRegistersOnce(s1, rest);
      CallbacksAddUp(s, s1, KillAll(s1, rest, true), {sessions[0]}, Members(rest));
    }
  }

  class ContainerRunner {
    var activeContainers: map<SessionId, Pid>
    var wakePromises: map<SessionId, Phase>
    var processes: map<Pid, Process>
    var nextPid: Pid
    ghost var starts: map<SessionId, nat>
    ghost var spawns: map<SessionId, nat>
    /** The on-wake messages written, in order. */
    var onWakeMessages: seq<SessionId>

    ghost function View(): State
      reads this
    {
      State(activeContainers, wakePromises, processes, nextPid, starts, spawns)
    }

    method WakeContainer(session: SessionId)
      modifies this
      ensures View() == Wake(old(View()), session) && onWakeMessages == old(onWakeMessages)
    {
      if session in activeContainers {
        return;
      }
      if session in wakePromises {
        return;
      }
      wakePromises := wakePromises[session := SettingUp];
      starts := starts[session := Count(starts, session) + 1];
    }

    method SetupFinished(session: SessionId, spawned: bool)
      requires session in wakePromises && wakePromises[session] == SettingUp
      modifies this
      ensures View() == FinishSetup(old(View()), session, spawned) && onWakeMessages == old(onWakeMessages)
    {
      if spawned {
        activeContainers := activeContainers[session := nextPid];
        processes := processes[nextPid := Process(session, Alive, 0)];
        nextPid := nextPid + 1;
        spawns := spawns[session := Count(spawns, session) + 1];
      }
      wakePromises := wakePromises[session := Finishing];
    }

    /** The `error` handler; `livesOn` says whether the process is still alive. */
    method ProcessErrored(pid: Pid, livesOn: bool)
      requires Ends(View(), pid)
      modifies this
      ensures View() == Step(old(View()), if livesOn then StrayError(pid) else SpawnError(pid))
    {
      var Process(session, _, onExit) := processes[pid];
      activeContainers := activeContainers - {session};
      if !livesOn {
        processes := processes[pid := Process(session, Failed, onExit)];
      }
    }

    /** The `close` handler, then the callbacks that kills have registered. */
    method ProcessClosed(pid: Pid, sessionExists: bool)
      requires CanClose(View(), pid)
      modifies this
      ensures View() == Step(old(View()), Close(pid, sessionExists))
    {
      var Process(session, _, onExit) := processes[pid];
      activeContainers := activeContainers - {session};
      processes := processes[pid := Process(session, Gone, onExit)];
      ghost var ended := View();
      var callbacks := if sessionExists then onExit else 0;
      for i := 0 to callbacks
        invariant WakeTimes(ended, session, callbacks) == WakeTimes(View(), session, callbacks - i)
      {
        WakeContainer(session);
      }
    }

    method KillContainer(session: SessionId, withWake: bool)
      modifies this
      ensures View() == Kill(old(View()), session, withWake) && onWakeMessages == old(onWakeMessages)
    {
      if session !in activeContainers {
        return;
      }
      var pid := activeContainers[session];
      if withWake && pid in processes {
        processes := processes[pid := processes[pid].(onExit := processes[pid].onExit + 1)];
      }
    }

    /** `group` lists the sessions of the agent group that have status active. */
    method RestartAgentGroupContainers(group: seq<SessionId>, wakeMessage: bool) returns (count: nat)
      modifies this
      ensures var running := Running(old(activeContainers), group);
              && count == |running|
              && View() == KillAll(old(View()), running, wakeMessage)
              && onWakeMessages == old(onWakeMessages) + if wakeMessage then running else []
    {
      var running := Running(activeContainers, group);
      for i := 0 to |running|
        invariant KillAll(old(View()), running, wakeMessage) == KillAll(View(), running[i..], wakeMessage)
        invariant onWakeMessages == old(onWakeMessages) + if wakeMessage then running[..i] else []
      {
        if wakeMessage {
          onWakeMessages := onWakeMessages + [running[i]];
        }
        KillContainer(running[i], wakeMessage);
        assert running[i..][1..] == running[i + 1..] && running[..i + 1] == running[..i] + [running[i]];
      }
      count := |running|;
    }
  }

  function Running(active: map<SessionId, Pid>, group: seq<SessionId>): seq<SessionId> {
    if group == [] then []
    else if group[0] in active then [group[0]] + Running(active, group[1..])
    else Running(active, group[1..])
  }

  /** How many sessions of the group come before position `i` and run. */
  function RunningBefore(active: map<SessionId, Pid>, group: seq<SessionId>, i: nat): nat
    requires i <= |group|
  {
    if i == 0 then 0 else RunningBefore(active, group, i - 1) + if group[i - 1] in active then 1 else 0
  }

  /** A restart is about exactly the sessions of the group that run, in the order of the group. */
  lemma {:induction false} RunningIs(active: map<SessionId, Pid>, group: seq<SessionId>)
    ensures |Running(active, group)| == RunningBefore(active, group, |group|)
    ensures forall i :: 0 <= i < |group| && group[i] in active ==>
              RunningBefore(active, group, i) < |Running(active, group)| &&
              Running(active, group)[RunningBefore(active, group, i)] == group[i]
    decreases |group|
  {
    if group != [] {
      var front, last := group[..|group| - 1], group[|group| - 1];
      RunningIs(active, front);
      RunningAppend(active, front, last);
      assert group == front + [last];
      forall i | 0 <= i <= |front| ensures RunningBefore(active, group, i) == RunningBefore(active, front, i) {
        SameBefore(active, group, front, i);
      }
    }
  }

  lemma {:induction false} RunningAppend(active: map<SessionId, Pid>, group: seq<SessionId>, last: SessionId)
    ensures Running(active, group + [last]) == Running(active, group) + if last in active then [last] else []
    decreases |group|
  {
    if group == [] {
      assert [] + [last] == [last] && [last][1..] == [];
    } else {
      assert (group + [last])[1..] == group[1..] + [last];
      RunningAppend(active, group[1..], last);
    }
  }

  lemma {:induction false} SameBefore(active: map<SessionId, Pid>, a: seq<SessionId>, b: seq<SessionId>, i: nat)
    requires i <= |a| && i <= |b| && forall k :: 0 <= k < i ==> a[k] == b[k]
    ensures RunningBefore(active, a, i) == RunningBefore(active, b, i)
    decreases i
  {
    if i > 0 { SameBefore(active, a, b, i - 1); }
  }
}
