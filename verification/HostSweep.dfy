/**
 The host sweep (src/host-sweep.ts) with the session tables it works on (src/db/session-db.ts):
 stuck detection, and retry of abandoned messages with exponential backoff.  Times are in
 milliseconds; SQLite's datetime('now') keeps whole seconds.
 */
module Sweeping {
  import opened Options

  type MessageId = string

  const ABSOLUTE_CEILING_MS: nat := 1_800_000
  const CLAIM_STUCK_MS: nat := 60_000
  const MAX_TRIES: nat := 5
  const BACKOFF_BASE_MS: nat := 5000

  // ---------- Is the container stuck? ----------

  /** `changed` is None for a timestamp that does not parse. */
  datatype Claim = Claim(id: MessageId, changed: Option<nat>)

  datatype ContainerState = ContainerState(currentTool: string, declaredTimeout: Option<nat>)

  datatype Decision =
    | Ok
    | KillCeiling(heartbeatAge: int, ceiling: nat)
    | KillClaim(id: MessageId, claimAge: int, tolerance: nat)

  function BashTimeout(tool: Option<ContainerState>): Option<nat> {
    if tool.Some? && tool.value.currentTool == "Bash" then tool.value.declaredTimeout else None
  }

  /** The larger of a default and what a running Bash has declared. */
  function Widened(base: nat, tool: Option<ContainerState>): nat {
    var declared := BashTimeout(tool);
    if declared.Some? && declared.value > base then declared.value else base
  }

  /** The claim is older than tolerated and nothing was heard since it was made. */
  predicate Stuck(claim: Claim, now: nat, heartbeat: nat, tolerance: nat) {
    claim.changed.Some? && now - claim.changed.value > tolerance && heartbeat <= claim.changed.value
  }

  predicate Silent(now: nat, heartbeat: nat, ceiling: nat) {
    heartbeat != 0 && now - heartbeat > ceiling
  }

  /** `heartbeat` is 0 when the heartbeat file is absent. */
  method DecideStuckAction(now: nat, heartbeat: nat, tool: Option<ContainerState>, claims: seq<Claim>)
    returns (d: Decision)
    ensures d == Decide(now, heartbeat, tool, claims)
  {
    var declared := BashTimeout(tool);
    if heartbeat != 0 {
      var age := now - heartbeat;
      var ceiling := if declared.Some? && declared.value > ABSOLUTE_CEILING_MS then declared.value else ABSOLUTE_CEILING_MS;
      if age > ceiling {
        return KillCeiling(age, ceiling);
      }
    }
    var tolerance := if declared.Some? && declared.value > CLAIM_STUCK_MS then declared.value else CLAIM_STUCK_MS;
    for i := 0 to |claims|
      invariant FirstStuck(claims, now, heartbeat, tolerance) == FirstStuck(claims[i..], now, heartbeat, tolerance)
    {
      assert claims[i..][1..] == claims[i + 1..];
      if claims[i].changed.None? { continue; }
      var claimAge := now - claims[i].changed.value;
      if claimAge <= tolerance { continue; }
      if heartbeat > claims[i].changed.value { continue; }
      return KillClaim(claims[i].id, claimAge, tolerance);
    }
    d := Ok;
  }

  function FirstStuck(claims: seq<Claim>, now: nat, heartbeat: nat, tolerance: nat): (r: Option<Claim>)
    ensures r.Some? ==> Stuck(r.value, now, heartbeat, tolerance)
  {
    if claims == [] then None
    else if Stuck(claims[0], now, heartbeat, tolerance) then Some(claims[0])
    else FirstStuck(claims[1..], now, heartbeat, tolerance)
  }

  function Decide(now: nat, heartbeat: nat, tool: Option<ContainerState>, claims: seq<Claim>): Decision {
    var ceiling, tolerance := Widened(ABSOLUTE_CEILING_MS, tool), Widened(CLAIM_STUCK_MS, tool);
    if Silent(now, heartbeat, ceiling) then KillCeiling(now - heartbeat, ceiling)
    else
      var claim := FirstStuck(claims, now, heartbeat, tolerance);
      if claim.Some? then KillClaim(claim.value.id, now - claim.value.changed.value, tolerance) else Ok
  }

  lemma {:induction false} FirstStuckIs(claims: seq<Claim>, now: nat, heartbeat: nat, tolerance: nat)
    ensures FirstStuck(claims, now, heartbeat, tolerance) == None <==>
            forall c :: c in claims ==> !Stuck(c, now, heartbeat, tolerance)
    ensures var c := FirstStuck(claims, now, heartbeat, tolerance);
            c.Some? ==> c.value in claims && Stuck(c.value, now, heartbeat, tolerance)
  {
    if claims != [] {
      FirstStuckIs(claims[1..], now, heartbeat, tolerance);
      assert claims == [claims[0]] + claims[1..];
    }
  }

  /** A container is left alone if and only if it is not silent past the ceiling and no claim of it is stuck. */
  lemma LeftAloneExactlyWhen(now: nat, heartbeat: nat, tool: Option<ContainerState>, claims: seq<Claim>)
    ensures Decide(now, heartbeat, tool, claims) == Ok <==>
            && !Silent(now, heartbeat, Widened(ABSOLUTE_CEILING_MS, tool))
            && forall c :: c in claims ==> !Stuck(c, now, heartbeat, Widened(CLAIM_STUCK_MS, tool))
  {
    FirstStuckIs(claims, now, heartbeat, Widened(CLAIM_STUCK_MS, tool));
  }

  /** What is tolerated in milliseconds: at least `base`, and as long as a running Bash has declared. */
  ghost predicate Exceeds(age: int, base: nat, tool: Option<ContainerState>) {
    age > base && (tool.Some? && tool.value.currentTool == "Bash" && tool.value.declaredTimeout.Some? ==> age > tool.value.declaredTimeout.value)
  }

  /** A claim is stuck when it is older than 60 seconds, or than Bash has declared, and no heartbeat came after it. */
  ghost predicate Abandoned(c: Claim, now: nat, heartbeat: nat, tool: Option<ContainerState>) {
    c.changed.Some? && Exceeds(now - c.changed.value, 60_000, tool) && heartbeat <= c.changed.value
  }

  lemma {:induction false} FirstStuckIsFirst(claims: seq<Claim>, now: nat, heartbeat: nat, tolerance: nat) returns (i: nat)
    requires FirstStuck(claims, now, heartbeat, tolerance).Some?
    ensures i < |claims| && claims[i] == FirstStuck(claims, now, heartbeat, tolerance).value
    ensures Stuck(claims[i], now, heartbeat, tolerance) && forall j :: 0 <= j < i ==> !Stuck(claims[j], now, heartbeat, tolerance)
  {
    i := 0;
    if !Stuck(claims[0], now, heartbeat, tolerance) {
      var k := FirstStuckIsFirst(claims[1..], now, heartbeat, tolerance);
      i := k + 1;
      assert forall j :: 1 <= j < i ==> claims[j] == claims[1..][j - 1];
    }
  }

  /**
   The decision in full: a heartbeat that is there but older than 30 minutes, or than Bash has declared,
   comes first; then the first abandoned claim; else the container is left alone.
   */
  lemma DecisionIs(now: nat, heartbeat: nat, tool: Option<ContainerState>, claims: seq<Claim>)
    ensures
      match Decide(now, heartbeat, tool, claims)
      case KillCeiling(age, ceiling) =>
        heartbeat != 0 && age == now - heartbeat && Exceeds(age, 1_800_000, tool) && 1_800_000 <= ceiling < age
      case KillClaim(id, age, tolerance) =>
        && (heartbeat == 0 || !Exceeds(now - heartbeat, 1_800_000, tool)) && 60_000 <= tolerance < age
        && exists i :: 0 <= i < |claims| && claims[i].id == id && Abandoned(claims[i], now, heartbeat, tool) &&
             age == now - claims[i].changed.value && forall j :: 0 <= j < i ==> !Abandoned(claims[j], now, heartbeat, tool)
      case Ok =>
        && (heartbeat == 0 || !Exceeds(now - heartbeat, 1_800_000, tool))
        && forall i :: 0 <= i < |claims| ==> !Abandoned(claims[i], now, heartbeat, tool)
  {
    var tolerance := Widened(CLAIM_STUCK_MS, tool);
    FirstStuckIs(claims, now, heartbeat, tolerance);
    forall c: Claim ensures Stuck(c, now, heartbeat, tolerance) <==> Abandoned(c, now, heartbeat, tool) {
    }
    if FirstStuck(claims, now, heartbeat, tolerance).Some? {
      var i := FirstStuckIsFirst(claims, now, heartbeat, tolerance);
      assert Abandoned(claims[i], now, heartbeat, tool);
    }
  }

  // ---------- Messages and claims ----------

  datatype Status = Pending | Completed | Failed

  datatype Message = Message(status: Status, trigger: bool, tries: nat, processAfter: Option<nat>)

  datatype AckStatus = Processing | Done

  datatype Ack = Ack(status: AckStatus, changed: Option<nat>)

  /** `bumps` logs, per message, when its tries were raised; `clearedAt` is when the claims were last cleared. */
  datatype State = State(
    now: nat,
    messages: map<MessageId, Message>,
    acks: map<MessageId, Ack>,
    bumps: map<MessageId, seq<nat>>,
    clearedAt: nat)

  function Init(): State {
    State(0, map[], map[], map[], 0)
  }

  function Power(n: nat): nat {
    if n == 0 then 1 else 2 * Power(n - 1)
  }

  /** Math.floor(BACKOFF_BASE_MS * 2^tries / 1000) seconds. */
  function BackoffSeconds(tries: nat): nat {
    BACKOFF_BASE_MS * Power(tries) / 1000
  }

  function WholeSeconds(ms: nat): nat {
    ms / 1000 * 1000
  }

  /** datetime('now', '+N seconds') */
  function RetryTime(now: nat, tries: nat): nat {
    WholeSeconds(now) + BackoffSeconds(tries) * 1000
  }

  /** The message is pending and not already scheduled for a later retry. */
  predicate Retriable(m: Message, now: nat) {
    m.status == Pending && (m.processAfter.Some? ==> m.processAfter.value <= now)
  }

  /** One turn of the loop in resetStuckProcessingRows. */
  function Retry(m: Message, now: nat): Message {
    if !Retriable(m, now) then m
    else if m.tries >= MAX_TRIES then m.(status := Failed)
    else m.(tries := m.tries + 1, processAfter := Some(RetryTime(now, m.tries)))
  }

  predicate Claimed(acks: map<MessageId, Ack>, id: MessageId) {
    id in acks && acks[id].status == Processing
  }

  function Bumps(s: State, id: MessageId): seq<nat> {
    if id in s.bumps then s.bumps[id] else []
  }

  /** DELETE FROM processing_ack WHERE status = 'processing' */
  function ClearClaims(acks: map<MessageId, Ack>): map<MessageId, Ack> {
    map id | id in acks && acks[id].status != Processing :: acks[id]
  }

  /** resetStuckProcessingRows; `cleared` says whether the orphan claims could be deleted. */
  function Reset(s: State, cleared: bool): State {
    s.(messages := map id | id in s.messages :: if Claimed(s.acks, id) then Retry(s.messages[id], s.now) else s.messages[id],
       bumps := map id | id in s.messages :: if Claimed(s.acks, id) && Retry(s.messages[id], s.now).tries > s.messages[id].tries
                                             then Bumps(s, id) + [s.now] else Bumps(s, id),
       acks := if cleared then ClearClaims(s.acks) else s.acks,
       clearedAt := if cleared then s.now else s.clearedAt)
  }

  /** syncProcessingAcks: whatever the container is done with is completed. */
  function Sync(s: State): State {
    s.(messages := map id | id in s.messages ::
         if id in s.acks && s.acks[id].status == Done then s.messages[id].(status := Completed) else s.messages[id])
  }

  datatype Event =
    | NewMessage(id: MessageId, trigger: bool, processAfter: Option<nat>)
    | MarkProcessing(id: MessageId)
    | MarkDone(id: MessageId)
    | ContainerStarts          // clears its stale claims
    | SyncAcks
    | ResetStuck(cleared: bool)
    | Tick(elapsed: nat)

  function Step(s: State, e: Event): State {
    match e
    case NewMessage(id, trigger, processAfter) =>
      if id in s.messages then s
      else s.(messages := s.messages[id := Message(Pending, trigger, 0, processAfter)], bumps := s.bumps - {id})
    case MarkProcessing(id) => s.(acks := s.acks[id := Ack(Processing, Some(WholeSeconds(s.now)))])
    case MarkDone(id) => s.(acks := s.acks[id := Ack(Done, Some(WholeSeconds(s.now)))])
    case ContainerStarts => s.(acks := ClearClaims(s.acks))
    case SyncAcks => Sync(s)
    case ResetStuck(cleared) => Reset(s, cleared)
    case Tick(d) => s.(now := s.now + d)
  }

  function Run(s: State, es: seq<Event>): State
    decreases |es|
  {
    if es == [] then s else Run(Step(s, es[0]), es[1..])
  }

  // ---------- Backoff windows ----------

  /** Each bump comes no earlier than the retry time the one before it set. */
  ghost predicate Spaced(bumps: seq<nat>) {
    forall i :: 0 <= i < |bumps| - 1 ==> bumps[i + 1] >= RetryTime(bumps[i], i)
  }

  ghost predicate Paced(s: State, id: MessageId) {
    id in s.messages ==>
      var m, b := s.messages[id], Bumps(s, id);
      && |b| == m.tries <= MAX_TRIES
      && Spaced(b)
      && (m.tries > 0 ==> m.processAfter == Some(RetryTime(b[|b| - 1], m.tries - 1)))
      && (m.status == Failed ==> m.tries == MAX_TRIES)
  }

  lemma ResetOne(s: State, cleared: bool, id: MessageId)
    requires id in s.messages
    ensures
      var m, s' := s.messages[id], Reset(s, cleared);
      var bumped := Claimed(s.acks, id) && Retriable(m, s.now) && m.tries < MAX_TRIES;
      && id in s'.messages && s'.messages[id] == (if Claimed(s.acks, id) then Retry(m, s.now) else m)
      && Bumps(s', id) == Bumps(s, id) + if bumped then [s.now] else []
  {
    hide RetryTime;
    assert Bumps(s, id) + [] == Bumps(s, id);
  }

  lemma ResetPaced(s: State, cleared: bool, id: MessageId)
    requires Paced(s, id)
    ensures Paced(Reset(s, cleared), id)
  {
    hide RetryTime, Reset, Claimed;
    if id in s.messages {
      ResetOne(s, cleared, id);
    } else {
      ResetAddsNone(s, cleared, id);
    }
  }

  lemma ResetAddsNone(s: State, cleared: bool, id: MessageId)
    requires id !in s.messages
    ensures id !in Reset(s, cleared).messages
  {
  }

  lemma StepPaced(s: State, e: Event, id: MessageId)
    requires Paced(s, id)
    ensures Paced(Step(s, e), id)
  {
    hide RetryTime, Reset;
    if e.ResetStuck? {
      ResetPaced(s, e.cleared, id);
    } else {
      assert id in s.messages ==> Bumps(Step(s, e), id) == Bumps(s, id);
    }
  }

  lemma {:induction false} RunPaced(s: State, es: seq<Event>, id: MessageId)
    requires Paced(s, id)
    ensures Paced(Run(s, es), id)
    decreases |es|
  {
    hide Step, Paced;
    if es != [] {
      StepPaced(s, es[0], id);
      RunPaced(Step(s, es[0]), es[1..], id);
    }
  }

  lemma Backoffs()
    ensures BackoffSeconds(0) == 5 && BackoffSeconds(1) == 10 && BackoffSeconds(2) == 20
    ensures BackoffSeconds(3) == 40 && BackoffSeconds(4) == 80
  {
  }

  /**
   Main result: in every run, even when clearing the claims always fails, a message is bumped at most
   five times, each bump waits out the backoff of 5, 10, 20, 40 and 80 seconds the previous one set,
   and only a message that has used all five tries is given up.
   */
  lemma TriesAreBounded(es: seq<Event>, id: MessageId)
    requires id in Run(Init(), es).messages
    ensures
      var s := Run(Init(), es);
      var b := Bumps(s, id);
      && s.messages[id].tries == |b| <= 5
      && (forall i :: 0 <= i < |b| - 1 ==> b[i + 1] >= b[i] / 1000 * 1000 + [5, 10, 20, 40][i] * 1000)
      && (|b| == 5 ==> s.messages[id].processAfter == Some(b[4] / 1000 * 1000 + 80_000))
      && (s.messages[id].status == Failed ==> |b| == 5)
  {
    RunPaced(Init(), es, id);
    Backoffs();
    var b := Bumps(Run(Init(), es), id);
    forall i | 0 <= i < |b| - 1 ensures b[i + 1] >= b[i] / 1000 * 1000 + [5, 10, 20, 40][i] * 1000 {
      assert b[i + 1] >= RetryTime(b[i], i);
    }
  }

  // ---------- Exactly five retries ----------

  /** This step resets `id` after its claim was abandoned and its backoff has run out. */
  predicate Abandons(s: State, e: Event, id: MessageId) {
    e.ResetStuck? && id in s.messages && Claimed(s.acks, id) && Retriable(s.messages[id], s.now)
  }

  function AbandonCount(s: State, es: seq<Event>, id: MessageId): nat
    decreases |es|
  {
    if es == [] then 0
    else (if Abandons(s, es[0], id) then 1 else 0) + AbandonCount(Step(s, es[0]), es[1..], id)
  }

  /** How far a message that was abandoned `n` times has come. */
  ghost predicate AfterAbandons(m: Message, n: nat) {
    m.status != Completed ==>
      && m.tries == (if n <= MAX_TRIES then n else MAX_TRIES)
      && (m.status == Failed <==> n > MAX_TRIES)
      && n <= MAX_TRIES + 1
  }

  lemma StepAbandons(s: State, e: Event, id: MessageId, n: nat)
    requires id in s.messages && AfterAbandons(s.messages[id], n)
    ensures id in Step(s, e).messages
    ensures AfterAbandons(Step(s, e).messages[id], n + if Abandons(s, e, id) then 1 else 0)
  {
    hide RetryTime;
  }

  lemma {:induction false} RunAbandons(s: State, es: seq<Event>, id: MessageId, n: nat)
    requires id in s.messages && AfterAbandons(s.messages[id], n)
    ensures id in Run(s, es).messages
    ensures AfterAbandons(Run(s, es).messages[id], n + AbandonCount(s, es, id))
    decreases |es|
  {
    hide Step, Abandons, AfterAbandons;
    if es != [] {
      StepAbandons(s, es[0], id, n);
      RunAbandons(Step(s, es[0]), es[1..], id, n + if Abandons(s, es[0], id) then 1 else 0);
    }
  }

  /**
   Main result: a fresh message whose claims are abandoned `n` times without ever being completed has
   been retried min(n, 5) times, and it is failed exactly when it was abandoned a sixth time.
   */
  lemma RetriedFiveTimesThenFailed(s: State, es: seq<Event>, id: MessageId, trigger: bool, processAfter: Option<nat>)
    requires id !in s.messages
    ensures
      var s0 := Step(s, NewMessage(id, trigger, processAfter));
      var n, s' := AbandonCount(s0, es, id), Run(s0, es);
      && id in s'.messages
      && (s'.messages[id].status != Completed ==>
            && s'.messages[id].tries == (if n <= 5 then n else 5)
            && (s'.messages[id].status == Failed <==> n == 6)
            && n <= 6)
  {
    var s0 := Step(s, NewMessage(id, trigger, processAfter));
    RunAbandons(s0, es, id, 0);
  }

  // ---------- What a reset does ----------

  /**
   A pending message with a claim whose retry time is absent or has come gets one try more and a new retry
   time, 5 seconds doubled for every try it had, or is failed if it had five.
   */
  lemma ResetRetries(s: State, cleared: bool, id: MessageId)
    requires id in s.messages && s.messages[id].status == Pending
    requires id in s.acks && s.acks[id].status == Processing
    requires s.messages[id].processAfter.Some? ==> s.messages[id].processAfter.value <= s.now
    ensures
      var m, s' := s.messages[id], Step(s, ResetStuck(cleared));
      && id in s'.messages && s'.now == s.now && s'.messages[id].trigger == m.trigger
      && if m.tries >= 5 then s'.messages[id] == m.(status := Failed)
         else s'.messages[id] == m.(tries := m.tries + 1,
                processAfter := Some(s.now / 1000 * 1000 + [5, 10, 20, 40, 80][m.tries] * 1000))
  {
    hide RetryTime, BackoffSeconds;
    ResetOne(s, cleared, id);
    if s.messages[id].tries < 5 { RetryTimeIs(s.now, s.messages[id].tries); }
  }

  lemma RetryTimeIs(now: nat, tries: nat)
    requires tries < 5
    ensures RetryTime(now, tries) == now / 1000 * 1000 + [5, 10, 20, 40, 80][tries] * 1000
  {
    hide BackoffSeconds;
    Backoffs();
    var seconds := [5, 10, 20, 40, 80];
    assert tries == 0 || tries == 1 || tries == 2 || tries == 3 || tries == 4;
    assert seconds[tries] == BackoffSeconds(tries);
  }

  /**
   What the other side of the tables does: a message arrives once, a claim and an acknowledgement carry the
   time in whole seconds, and a container that starts drops every claim and keeps every acknowledgement.
   */
  lemma ContainerWrites(s: State, id: MessageId, trigger: bool, processAfter: Option<nat>, other: MessageId)
    ensures Step(s, NewMessage(id, trigger, processAfter)).messages ==
            if id in s.messages then s.messages else s.messages[id := Message(Pending, trigger, 0, processAfter)]
    ensures Step(s, MarkProcessing(id)).acks == s.acks[id := Ack(Processing, Some(s.now / 1000 * 1000))]
    ensures Step(s, MarkDone(id)).acks == s.acks[id := Ack(Done, Some(s.now / 1000 * 1000))]
    ensures other in Step(s, ContainerStarts).acks <==> other in s.acks && s.acks[other].status == Done
    ensures other in Step(s, ContainerStarts).acks ==> Step(s, ContainerStarts).acks[other] == s.acks[other]
  {
  }

  /** Every other message stays as it is, and so does every acknowledgement that is not a claim. */
  lemma ResetSpares(s: State, cleared: bool, id: MessageId)
    ensures
      var s' := Step(s, ResetStuck(cleared));
      && s'.messages.Keys == s.messages.Keys && s'.now == s.now
      && (id in s.messages && (id !in s.acks || s.acks[id].status != Processing || s.messages[id].status != Pending ||
            (s.messages[id].processAfter.Some? && s.messages[id].processAfter.value > s.now)) ==>
            s'.messages[id] == s.messages[id])
      && (id in s'.acks <==> id in s.acks && (!cleared || s.acks[id].status != Processing))
      && (id in s'.acks ==> s'.acks[id] == s.acks[id])
  {
    hide RetryTime;
  }

  /** A claim, a wait of at least 80 seconds, and a reset; `cleared` says whether the reset could delete the claim. */
  datatype Round = Round(wait: nat, cleared: bool)

  function RoundsOf(id: MessageId, rounds: seq<Round>): seq<Event> {
    if rounds == [] then []
    else [MarkProcessing(id), Tick(rounds[0].wait), ResetStuck(rounds[0].cleared)] + RoundsOf(id, rounds[1..])
  }

  /** How far a message has come that was abandoned in `n` rounds. */
  ghost predicate AfterRounds(s: State, id: MessageId, n: nat) {
    && id in s.messages
    && s.messages[id].tries == (if n <= 5 then n else 5)
    && s.messages[id].status == (if n <= 5 then Pending else Failed)
    && (s.messages[id].processAfter.Some? ==> s.messages[id].processAfter.value <= s.now + 80_000)
  }

  lemma OneRound(s: State, id: MessageId, n: nat, round: Round)
    requires AfterRounds(s, id, n) && round.wait >= 80_000
    ensures AfterRounds(Step(Step(Step(s, MarkProcessing(id)), Tick(round.wait)), ResetStuck(round.cleared)), id, n + 1)
  {
    hide Reset, RetryTime;
    var s2 := Step(Step(s, MarkProcessing(id)), Tick(round.wait));
    if n <= 5 {
      ResetRetries(s2, round.cleared, id);
    } else {
      ResetSpares(s2, round.cleared, id);
    }
  }

  lemma RunThree(s: State, a: Event, b: Event, c: Event, rest: seq<Event>)
    ensures Run(s, [a, b, c] + rest) == Run(Step(Step(Step(s, a), b), c), rest)
  {
    hide Step;
    var es := [a, b, c] + rest;
    assert es[1..] == [b, c] + rest && es[1..][1..] == [c] + rest && es[1..][1..][1..] == rest;
    assert Run(s, es) == Run(Step(s, a), es[1..]);
    assert Run(Step(s, a), es[1..]) == Run(Step(Step(s, a), b), es[1..][1..]);
  }

  lemma {:induction false} RoundsAddUp(s: State, id: MessageId, n: nat, rounds: seq<Round>)
    requires AfterRounds(s, id, n) && forall i :: 0 <= i < |rounds| ==> rounds[i].wait >= 80_000
    ensures AfterRounds(Run(s, RoundsOf(id, rounds)), id, n + |rounds|)
    decreases |rounds|
  {
    hide Step, AfterRounds;
    if rounds != [] {
      var round := rounds[0];
      OneRound(s, id, n, round);
      RunThree(s, MarkProcessing(id), Tick(round.wait), ResetStuck(round.cleared), RoundsOf(id, rounds[1..]));
      RoundsAddUp(Step(Step(Step(s, MarkProcessing(id)), Tick(round.wait)), ResetStuck(round.cleared)), id, n + 1, rounds[1..]);
    }
  }

  /**
   Main result: a new message that is claimed and abandoned again and again, each time for at least the
   longest backoff, has min(n, 5) tries after n rounds, and is failed if and only if there were six.
   */
  lemma {:induction false} FiveRetriesThenFailed(s: State, id: MessageId, trigger: bool, rounds: seq<Round>)
    requires id !in s.messages && forall i :: 0 <= i < |rounds| ==> rounds[i].wait >= 80_000
    ensures
      var s', n := Run(Step(s, NewMessage(id, trigger, None)), RoundsOf(id, rounds)), |rounds|;
      && id in s'.messages && s'.messages[id].tries == (if n <= 5 then n else 5)
      && (s'.messages[id].status == Failed <==> n >= 6)
      && (s'.messages[id].status == Pending <==> n <= 5)
  {
    RoundsAddUp(Step(s, NewMessage(id, trigger, None)), id, 0, rounds);
  }

  // ---------- No kill for an old claim ----------

  /** Every claim in the table was made at or after the last clear. */
  ghost predicate ClaimsAreRecent(s: State) {
    && s.clearedAt <= s.now
    && forall id :: Claimed(s.acks, id) ==> s.acks[id].changed.Some? && s.acks[id].changed.value + 999 >= s.clearedAt
  }

  lemma StepRecent(s: State, e: Event)
    requires ClaimsAreRecent(s)
    ensures ClaimsAreRecent(Step(s, e))
  {
  }

  lemma {:induction false} RunRecent(s: State, es: seq<Event>)
    requires ClaimsAreRecent(s)
    ensures ClaimsAreRecent(Run(s, es))
    decreases |es|
  {
    hide Step, ClaimsAreRecent;
    if es != [] {
      StepRecent(s, es[0]);
      RunRecent(Step(s, es[0]), es[1..]);
    }
  }

  /** The claims the sweep reads are those of the table, in whatever order the query returns them. */
  ghost predicate ListsClaims(s: State, claims: seq<Claim>) {
    forall c :: c in claims ==> Claimed(s.acks, c.id) && s.acks[c.id].changed == c.changed
  }

  /** The container claimed the message at step `i` of the run. */
  ghost predicate ClaimedAt(es: seq<Event>, i: int, id: MessageId) {
    0 <= i < |es| && es[i] == MarkProcessing(id)
  }

  lemma {:induction false} ClaimsAreMade(s: State, es: seq<Event>, id: MessageId)
    requires !Claimed(s.acks, id) && Claimed(Run(s, es).acks, id)
    ensures exists i :: ClaimedAt(es, i, id)
    decreases |es|
  {
    hide RetryTime;
    if es != [] {
      if es[0] == MarkProcessing(id) {
        assert ClaimedAt(es, 0, id);
      } else {
        ClaimsAreMade(Step(s, es[0]), es[1..], id);
        var i :| ClaimedAt(es[1..], i, id);
        assert ClaimedAt(es, i + 1, id);
      }
    }
  }

  /**
   Main result: after a reset whose clear succeeded, a container is killed for a claim only if that
   claim was made since: no claim from before the clear can ever get one killed.  It follows that such
   a kill comes only more than the tolerance after the clear, whole seconds aside.
   */
  lemma OldClaimsNeverKill(s: State, es: seq<Event>, heartbeat: nat, tool: Option<ContainerState>, claims: seq<Claim>)
    requires
      var s' := Run(Reset(s, true), es);
      ListsClaims(s', claims) && Decide(s'.now, heartbeat, tool, claims).KillClaim?
    ensures
      var s' := Run(Reset(s, true), es);
      var d := Decide(s'.now, heartbeat, tool, claims);
      && (exists i :: ClaimedAt(es, i, d.id))
      && d.claimAge <= s'.now - s.now + 999
      && s'.now - s.now > CLAIM_STUCK_MS - 1000
  {
    hide Run;
    var s0 := Reset(s, true);
    RunRecent(s0, es);
    RunKeepsClear(s0, es);
    var s' := Run(s0, es);
    FirstStuckIs(claims, s'.now, heartbeat, Widened(CLAIM_STUCK_MS, tool));
    ClaimsAreMade(s0, es, Decide(s'.now, heartbeat, tool, claims).id);
  }

  lemma {:induction false} RunKeepsClear(s: State, es: seq<Event>)
    requires s.clearedAt <= s.now
    ensures Run(s, es).clearedAt >= s.clearedAt
    decreases |es|
  {
    if es != [] { RunKeepsClear(Step(s, es[0]), es[1..]); }
  }

  // ---------- What is done stays done ----------

  /** The container has acknowledged the message as completed or failed. */
  predicate Acknowledged(acks: map<MessageId, Ack>, id: MessageId) {
    id in acks && acks[id].status == Done
  }

  lemma {:induction false} CompletedStays(s: State, es: seq<Event>, id: MessageId)
    requires id in s.messages && s.messages[id].status == Completed
    ensures id in Run(s, es).messages && Run(s, es).messages[id] == s.messages[id]
    decreases |es|
  {
    hide RetryTime;
    if es != [] {
      assert Step(s, es[0]).messages[id] == s.messages[id];
      CompletedStays(Step(s, es[0]), es[1..], id);
    }
  }

  /**
   Once the acknowledgements are synced, a message the container is done with is completed and never
   retried, failed or touched again in any run; a message it is not done with keeps its state.
   */
  lemma DoneIsFinal(s: State, es: seq<Event>, id: MessageId)
    requires id in s.messages
    ensures Acknowledged(s.acks, id) ==>
              id in Run(Sync(s), es).messages && Run(Sync(s), es).messages[id] == s.messages[id].(status := Completed)
    ensures !Acknowledged(s.acks, id) ==> Sync(s).messages[id] == s.messages[id]
  {
    if Acknowledged(s.acks, id) {
      CompletedStays(Sync(s), es, id);
    }
  }

  lemma SyncIs(s: State, messages: map<MessageId, Message>)
    requires messages.Keys == s.messages.Keys
    requires forall id :: id in messages ==>
               messages[id] == if Acknowledged(s.acks, id) then s.messages[id].(status := Completed) else s.messages[id]
    ensures s.(messages := messages) == Step(s, SyncAcks)
  {
    assert messages == Sync(s).messages;
  }

  // ---------- One sweep of a session ----------

  /** What a sweep meets: the heartbeat and tool state, and whether claims can be cleared. */
  datatype Surroundings = Surroundings(heartbeat: nat, tool: Option<ContainerState>, cleared: bool)

  /** What countDueMessages counts; datetime() compares whole seconds. */
  predicate Due(m: Message, now: nat) {
    m.status == Pending && m.trigger && (m.processAfter.Some? ==> m.processAfter.value / 1000 <= now / 1000)
  }

  ghost predicate MustKill(s: State, w: Surroundings) {
    || Silent(s.now, w.heartbeat, Widened(ABSOLUTE_CEILING_MS, w.tool))
    || exists id :: Claimed(s.acks, id) &&
         Stuck(Claim(id, s.acks[id].changed), s.now, w.heartbeat, Widened(CLAIM_STUCK_MS, w.tool))
  }

  /** The part of a sweep behind the await of the wake: leave a healthy container alone, else reset. */
  ghost function Resume(s: State, alive: bool, w: Surroundings): State {
    if alive && !MustKill(s, w) then s else Step(s, ResetStuck(w.cleared))
  }

  /** Sweeps follow each other, so while one is suspended neither of its own steps happens. */
  ghost predicate Meanwhile(es: seq<Event>) {
    forall i :: 0 <= i < |es| ==> !es[i].SyncAcks? && !es[i].ResetStuck?
  }

  /** A whole sweep; `es` is what happens while it awaits the wake, `alive` whether a container runs after that. */
  ghost function Sweep(s: State, es: seq<Event>, alive: bool, w: Surroundings): State {
    Resume(Run(Step(s, SyncAcks), es), alive, w)
  }

  lemma {:induction false} MeanwhileKeepsTries(s: State, es: seq<Event>, id: MessageId)
    requires id in s.messages && Meanwhile(es)
    ensures id in Run(s, es).messages && Run(s, es).messages[id] == s.messages[id]
    decreases |es|
  {
    if es != [] {
      var rest := es[1..];
      assert !es[0].SyncAcks? && !es[0].ResetStuck?;
      assert forall i :: 0 <= i < |rest| ==> rest[i] == es[i + 1];
      MeanwhileKeepsTries(Step(s, es[0]), rest, id);
    }
  }

  /**
   Whatever happens while a sweep is suspended, it raises the tries of a message by at most one.  It
   leaves no claims behind, if they can be cleared, unless a healthy container owns them when it resumes.
   */
  lemma SweepIsGentle(s: State, es: seq<Event>, alive: bool, w: Surroundings, id: MessageId)
    requires id in s.messages && Meanwhile(es)
    ensures
      var resumed, s' := Run(Sync(s), es), Sweep(s, es, alive, w);
      && id in s'.messages && s.messages[id].tries <= s'.messages[id].tries <= s.messages[id].tries + 1
      && (alive && !MustKill(resumed, w) ==> s' == resumed)
      && (w.cleared && (!alive || MustKill(resumed, w)) ==> forall other :: !Claimed(s'.acks, other))
  {
    hide RetryTime, Run, MustKill;
    MeanwhileKeepsTries(Sync(s), es, id);
  }

  /** A sweep that finds no container, or one to kill, retries or fails every abandoned message whose retry time has come. */
  lemma SweepRetries(s: State, alive: bool, w: Surroundings, id: MessageId)
    requires id in s.messages && s.messages[id].status == Pending
    requires id in s.acks && s.acks[id].status == Processing
    requires s.messages[id].processAfter.Some? ==> s.messages[id].processAfter.value <= s.now
    requires !alive || MustKill(s, w)
    ensures
      var m, s' := s.messages[id], Resume(s, alive, w);
      && id in s'.messages && s'.messages[id].tries == (if m.tries >= 5 then m.tries else m.tries + 1)
      && (s'.messages[id].status == Failed <==> m.tries >= 5)
  {
    hide Reset, MustKill;
    ResetRetries(s, w.cleared, id);
  }

  class HostSweep {
    var now: nat
    var messages: map<MessageId, Message>
    var acks: map<MessageId, Ack>
    ghost var bumps: map<MessageId, seq<nat>>
    ghost var clearedAt: nat
    var running: bool

    ghost function View(): State
      reads this
    {
      State(now, messages, acks, bumps, clearedAt)
    }

    /** The update for every message the container is done with. */
    method SyncProcessingAcks()
      modifies this`messages
      ensures messages.Keys == old(messages).Keys
      ensures forall id :: id in messages ==>
                messages[id] == if Acknowledged(acks, id) then old(messages)[id].(status := Completed) else old(messages)[id]
      ensures View() == Step(old(View()), SyncAcks)
    {
      hide Sync;
      ghost var before := View();
      var completed := set id | id in acks && acks[id].status == Done;
      while completed != {}
        invariant completed <= set id | id in acks && acks[id].status == Done
        invariant messages.Keys == old(messages).Keys
        invariant forall id :: id in messages ==>
                    messages[id] == if Acknowledged(acks, id) && id !in completed then old(messages)[id].(status := Completed)
                                    else old(messages)[id]
        decreases |completed|
      {
        var id :| id in completed;
        completed := completed - {id};
        if id in messages && messages[id].status != Completed {
          messages := messages[id := messages[id].(status := Completed)];
        }
      }
      SyncIs(before, messages);
    }

    method RetryMessage(id: MessageId)
      modifies this`messages
      ensures messages == if id in old(messages) then old(messages)[id := Retry(old(messages)[id], now)] else old(messages)
    {
      hide RetryTime;
      if id !in messages || messages[id].status != Pending {
        return;
      }
      var m := messages[id];
      if m.processAfter.Some? && m.processAfter.value > now {
        return;
      }
      if m.tries >= MAX_TRIES {
        messages := messages[id := m.(status := Failed)];
      } else {
        messages := messages[id := m.(tries := m.tries + 1, processAfter := Some(RetryTime(now, m.tries)))];
      }
    }

    method RetryClaimed()
      modifies this`messages
      ensures messages.Keys == old(messages).Keys
      ensures forall id :: id in messages ==>
                messages[id] == if Claimed(acks, id) then Retry(old(messages)[id], now) else old(messages)[id]
    {
      hide Retry;
      var claims := set id | id in acks && acks[id].status == Processing;
      while claims != {}
        invariant claims <= set id | id in acks && acks[id].status == Processing
        invariant messages.Keys == old(messages).Keys
        invariant forall id :: id in messages ==>
                    messages[id] == if Claimed(acks, id) && id !in claims then Retry(old(messages)[id], now) else old(messages)[id]
        decreases |claims|
      {
        var id :| id in claims;
        claims := claims - {id};
        RetryMessage(id);
      }
    }

    method ResetStuckProcessingRows(cleared: bool)
      modifies this`messages, this`acks, this`bumps, this`clearedAt
      ensures View() == Reset(old(View()), cleared)
    {
      hide Retry, ClearClaims, Claimed;
      ghost var before := View();
      RetryClaimed();
      bumps := Reset(before, cleared).bumps;
      assert messages == Reset(before, cleared).messages;
      if cleared {
        acks := ClearClaims(acks);
        clearedAt := now;
      }
    }

    /** getProcessingClaims, in the order in which the rows happen to come. */
    method GetProcessingClaims() returns (claims: seq<Claim>)
      ensures forall c :: c in claims <==> Claimed(acks, c.id) && c.changed == acks[c.id].changed
    {
      claims := [];
      var ids := set id | id in acks && acks[id].status == Processing;
      while ids != {}
        invariant ids <= set id | id in acks && acks[id].status == Processing
        invariant forall c :: c in claims <==> Claimed(acks, c.id) && c.id !in ids && c.changed == acks[c.id].changed
        decreases |ids|
      {
        var id :| id in ids;
        ids := ids - {id};
        claims := claims + [Claim(id, acks[id].changed)];
      }
    }

    method EnforceRunningContainerSla(w: Surroundings) returns (killed: bool)
      modifies this`messages, this`acks, this`bumps, this`clearedAt
      ensures killed <==> MustKill(old(View()), w)
      ensures View() == if killed then Reset(old(View()), w.cleared) else old(View())
    {
      hide Reset;
      var claims := GetProcessingClaims();
      var d := DecideStuckAction(now, w.heartbeat, w.tool, claims);
      LeftAloneExactlyWhen(now, w.heartbeat, w.tool, claims);
      KillMeans(View(), w, claims);
      if d.Ok? {
        return false;
      }
      ResetStuckProcessingRows(w.cleared);
      killed := true;
    }

    /** sweepSession up to the await of the wake; `wakes` says whether it asks for one. */
    method BeginSweep() returns (wakes: bool)
      modifies this`messages
      ensures View() == Step(old(View()), SyncAcks)
      ensures var due := exists id :: (
                && id in messages && messages[id].status == Pending && messages[id].trigger
                && (messages[id].processAfter.Some? ==> messages[id].processAfter.value / 1000 <= now / 1000));
              wakes <==> due && !running
    {
      hide Sync;
      SyncProcessingAcks();
      wakes := !running && exists id :: id in messages && Due(messages[id], now);
    }

    /** The rest of sweepSession, with `running` as it is when the wake has settled. */
    method ResumeSweep(w: Surroundings) returns (killed: bool)
      modifies this`messages, this`acks, this`bumps, this`clearedAt
      ensures View() == Resume(old(View()), running, w)
      ensures killed <==> running && MustKill(old(View()), w)
    {
      hide Reset, MustKill;
      killed := false;
      if running {
        killed := EnforceRunningContainerSla(w);
      } else {
        ResetStuckProcessingRows(w.cleared);
      }
    }
  }

  lemma KillMeans(s: State, w: Surroundings, claims: seq<Claim>)
    requires forall c :: c in claims <==> Claimed(s.acks, c.id) && c.changed == s.acks[c.id].changed
    ensures MustKill(s, w) <==>
            || Silent(s.now, w.heartbeat, Widened(ABSOLUTE_CEILING_MS, w.tool))
            || exists c :: c in claims && Stuck(c, s.now, w.heartbeat, Widened(CLAIM_STUCK_MS, w.tool))
  {
    forall id | Claimed(s.acks, id) ensures Claim(id, s.acks[id].changed) in claims {
    }
  }
}
