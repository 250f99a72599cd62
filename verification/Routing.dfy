/**
 Inbound routing (src/router.ts) and session lookup (src/session-manager.ts, src/db/sessions.ts).

 For one wired agent, deciding whether to engage and finding or creating its session happen without
 a suspension in between, so one (message, agent) pair is one step, and the messages of several
 fan-outs may interleave agent by agent.  The result of a wiring's regular expression and of the
 access and sender gates come with the step.
 */
module Routing {
  import opened Options

  type AgentGroupId = string
  type MessagingGroupId = string
  type ThreadId = string

  datatype EngageMode = Pattern | Mention | MentionSticky
  datatype IgnoredPolicy = Drop | Accumulate
  datatype SessionMode = Shared | PerThread | AgentShared

  datatype Wiring = Wiring(agentGroup: AgentGroupId, engage: EngageMode, policy: IgnoredPolicy, mode: SessionMode)

  datatype Group = Group(id: MessagingGroupId, isGroup: bool)

  datatype Session = Session(agentGroup: AgentGroupId, group: MessagingGroupId, thread: Option<ThreadId>)

  /**
   `known` says whether the wired agent group still exists, `adapter` whether the channel adapter, if
   there is one, supports threads.
   */
  datatype Step = Step(
    wiring: Wiring, group: Group, known: bool, adapter: Option<bool>, thread: Option<ThreadId>, isMention: bool,
    patternMatches: bool, accessOk: bool, scopeOk: bool)

  datatype Outcome = Engaged | Accumulated | Ignored

  // ---------- Sessions ----------

  /** findSessionForAgent: a missing and an empty thread id both ask for the row without a thread. */
  function FindForAgent(sessions: seq<Session>, agent: AgentGroupId, group: MessagingGroupId, thread: Option<ThreadId>): Option<Session> {
    var wanted := Session(agent, group, if thread == Some("") then None else thread);
    if wanted in sessions then Some(wanted) else None
  }

  /** findSessionByAgentGroup: the newest one. */
  function FindByAgentGroup(sessions: seq<Session>, agent: AgentGroupId): Option<Session> {
    if sessions == [] then None
    else if sessions[|sessions| - 1].agentGroup == agent then Some(sessions[|sessions| - 1])
    else FindByAgentGroup(sessions[..|sessions| - 1], agent)
  }

  /** resolveSession: the sessions afterwards; `sessions` holds the active ones in order of creation. */
  function Resolve(sessions: seq<Session>, agent: AgentGroupId, group: MessagingGroupId, thread: Option<ThreadId>, mode: SessionMode)
    : seq<Session>
  {
    var existing :=
      if mode == AgentShared then FindByAgentGroup(sessions, agent)
      else FindForAgent(sessions, agent, group, if mode == Shared then None else thread);
    if existing.Some? then sessions
    else sessions + [Session(agent, group, if mode == PerThread then thread else None)]
  }

  // ---------- Routing one agent ----------

  /** Adapters without threads collapse them. */
  function Thread(step: Step): Option<ThreadId> {
    if step.adapter == Some(false) then None else step.thread
  }

  function Engages(sessions: seq<Session>, step: Step): bool {
    match step.wiring.engage
    case Pattern => step.patternMatches
    case Mention => step.isMention
    case MentionSticky =>
      step.isMention ||
      (step.group.isGroup && FindForAgent(sessions, step.wiring.agentGroup, step.group.id, Thread(step)).Some?)
  }

  /** A threaded adapter in a group forces one session per thread. */
  function EffectiveMode(step: Step): SessionMode {
    if step.adapter == Some(true) && step.wiring.mode != AgentShared && step.group.isGroup then PerThread else step.wiring.mode
  }

  function OutcomeOf(sessions: seq<Session>, step: Step): Outcome {
    var engages := Engages(sessions, step);
    if !step.known then Ignored
    else if engages && step.accessOk && step.scopeOk then Engaged
    else if step.wiring.policy == Accumulate && !engages then Accumulated
    else Ignored
  }

  function Next(sessions: seq<Session>, step: Step): seq<Session> {
    if OutcomeOf(sessions, step) == Ignored then sessions
    else Resolve(sessions, step.wiring.agentGroup, step.group.id, Thread(step), EffectiveMode(step))
  }

  function Run(sessions: seq<Session>, steps: seq<Step>): seq<Session>
    decreases |steps|
  {
    if steps == [] then sessions else Run(Next(sessions, steps[0]), steps[1..])
  }

  // ---------- At most one session ----------

  ghost predicate AtMostOne(sessions: seq<Session>, wanted: Session) {
    forall i, j :: 0 <= i < j < |sessions| ==> !(sessions[i] == wanted && sessions[j] == wanted)
  }

  lemma {:induction false} NoneFound(sessions: seq<Session>, agent: AgentGroupId)
    requires FindByAgentGroup(sessions, agent) == None
    ensures forall s :: s in sessions ==> s.agentGroup != agent
    decreases |sessions|
  {
    if sessions != [] {
      NoneFound(sessions[..|sessions| - 1], agent);
      assert sessions == sessions[..|sessions| - 1] + [sessions[|sessions| - 1]];
    }
  }

  lemma NextKeepsOne(sessions: seq<Session>, step: Step, wanted: Session)
    requires AtMostOne(sessions, wanted) && wanted.thread != Some("")
    ensures AtMostOne(Next(sessions, step), wanted)
  {
    if EffectiveMode(step) == AgentShared && FindByAgentGroup(sessions, step.wiring.agentGroup) == None {
      NoneFound(sessions, step.wiring.agentGroup);
    }
  }

  lemma {:induction false} RunKeepsOne(sessions: seq<Session>, steps: seq<Step>, wanted: Session)
    requires AtMostOne(sessions, wanted) && wanted.thread != Some("")
    ensures AtMostOne(Run(sessions, steps), wanted)
    decreases |steps|
  {
    hide Next;
    if steps != [] {
      NextKeepsOne(sessions, steps[0], wanted);
      RunKeepsOne(Next(sessions, steps[0]), steps[1..], wanted);
    }
  }

  lemma RunOne(sessions: seq<Session>, a: Step)
    ensures Run(sessions, [a]) == Next(sessions, a)
  {
    hide Next;
    assert [a][1..] == [];
  }

  lemma RunTwo(sessions: seq<Session>, a: Step, b: Step)
    ensures Run(sessions, [a, b]) == Next(Next(sessions, a), b)
  {
    hide Next;
    assert [a, b][1..] == [b];
    RunOne(Next(sessions, a), b);
  }

  /** A mention in a group on a threaded adapter that passes both gates. */
  function MentionIn(w: Wiring, g: Group, thread: Option<ThreadId>): Step {
    Step(w, g, true, Some(true), thread, true, false, true, true)
  }

  /**
   Main result: whatever is routed, there is never more than one session per agent, group and thread —
   for every thread id except the empty one, which is stored as given but looked up as no thread.
   */
  lemma OneSessionExactlyWhen(agent: AgentGroupId, group: MessagingGroupId, thread: Option<ThreadId>)
    ensures (forall steps: seq<Step> :: AtMostOne(Run([], steps), Session(agent, group, thread))) <==> thread != Some("")
  {
    var wanted := Session(agent, group, thread);
    if thread != Some("") {
      forall steps: seq<Step> ensures AtMostOne(Run([], steps), wanted) {
        RunKeepsOne([], steps, wanted);
      }
    } else {
      var step := MentionIn(Wiring(agent, Mention, Drop, PerThread), Group(group, true), thread);
      RunTwo([], step, step);
      var once := Next([], step);
      assert once == [wanted];
      var twice := Next(once, step);
      assert twice == [wanted, wanted];
      assert Run([], [step, step]) == twice && twice[0] == wanted && twice[1] == wanted;
      assert !AtMostOne(Run([], [step, step]), wanted);
    }
  }

  // ---------- The sticky thread ----------

  /** A mention-sticky wiring that drops what it ignores and keeps one session per thread, in a group. */
  predicate Sticky(w: Wiring, g: Group) {
    w.engage == MentionSticky && w.policy == Drop && w.mode != AgentShared && g.isGroup
  }

  predicate Same(step: Step, w: Wiring, g: Group) {
    step.wiring.agentGroup == w.agentGroup && step.group.id == g.id
  }

  /** The agent has this one wiring in the group, and the group's adapter is threaded. */
  ghost predicate OnlyWiring(steps: seq<Step>, w: Wiring, g: Group) {
    forall i :: 0 <= i < |steps| && Same(steps[i], w, g) ==>
      steps[i].wiring == w && steps[i].group == g && steps[i].adapter == Some(true)
  }

  predicate Activates(step: Step, w: Wiring, g: Group, thread: Option<ThreadId>) {
    Same(step, w, g) && step.known && step.thread == thread && step.isMention && step.accessOk && step.scopeOk
  }

  ghost predicate Activated(steps: seq<Step>, w: Wiring, g: Group, thread: Option<ThreadId>) {
    exists i :: 0 <= i < |steps| && Activates(steps[i], w, g, thread)
  }

  lemma NextActivates(sessions: seq<Session>, step: Step, w: Wiring, g: Group, thread: Option<ThreadId>)
    requires Sticky(w, g) && thread != Some("")
    requires Same(step, w, g) ==> step.wiring == w && step.group == g && step.adapter == Some(true)
    ensures Session(w.agentGroup, g.id, thread) in Next(sessions, step) <==>
            Session(w.agentGroup, g.id, thread) in sessions || Activates(step, w, g, thread)
  {
  }

  lemma {:induction false} RunActivates(sessions: seq<Session>, steps: seq<Step>, w: Wiring, g: Group, thread: Option<ThreadId>)
    requires Sticky(w, g) && thread != Some("") && OnlyWiring(steps, w, g)
    ensures Session(w.agentGroup, g.id, thread) in Run(sessions, steps) <==>
            Session(w.agentGroup, g.id, thread) in sessions || Activated(steps, w, g, thread)
    decreases |steps|
  {
    hide Next, Activates, Same, Sticky;
    if steps != [] {
      var rest := steps[1..];
      assert Same(steps[0], w, g) ==> steps[0].wiring == w && steps[0].group == g && steps[0].adapter == Some(true);
      forall i | 0 <= i < |rest| && Same(rest[i], w, g)
        ensures rest[i].wiring == w && rest[i].group == g && rest[i].adapter == Some(true)
      {
        assert rest[i] == steps[i + 1];
      }
      NextActivates(sessions, steps[0], w, g, thread);
      RunActivates(Next(sessions, steps[0]), rest, w, g, thread);
      ActivatedSplits(steps, w, g, thread);
    }
  }

  lemma ActivatedSplits(steps: seq<Step>, w: Wiring, g: Group, thread: Option<ThreadId>)
    requires steps != []
    ensures Activated(steps, w, g, thread) <==> Activates(steps[0], w, g, thread) || Activated(steps[1..], w, g, thread)
  {
    hide Activates;
    if Activated(steps[1..], w, g, thread) {
      var i :| 0 <= i < |steps[1..]| && Activates(steps[1..][i], w, g, thread);
      assert Activates(steps[i + 1], w, g, thread);
    }
    if Activated(steps, w, g, thread) && !Activates(steps[0], w, g, thread) {
      var i :| 0 <= i < |steps| && Activates(steps[i], w, g, thread);
      assert Activates(steps[1..][i - 1], w, g, thread);
    }
  }

  predicate Plain(step: Step, w: Wiring, g: Group) {
    step.wiring == w && step.group == g && step.adapter == Some(true) && !step.isMention && step.thread != Some("")
  }

  /**
   Main result: in a sticky wiring a plain message in a thread engages if and only if an earlier
   message of that thread mentioned the bot and passed both gates; and once that has happened the
   thread stays active.
   */
  lemma PlainMessageEngagesExactlyWhen(steps: seq<Step>, plain: Step, w: Wiring, g: Group)
    requires Sticky(w, g) && OnlyWiring(steps, w, g)
    requires Plain(plain, w, g)
    ensures Engages(Run([], steps), plain) <==> Activated(steps, w, g, plain.thread)
    ensures OutcomeOf(Run([], steps), plain) == Engaged <==>
            Activated(steps, w, g, plain.thread) && plain.known && plain.accessOk && plain.scopeOk
  {
    RunActivates([], steps, w, g, plain.thread);
  }

  /** In every run, plain messages engage exactly in the threads a mention has activated. */
  ghost predicate StickyRule(w: Wiring, g: Group) {
    forall steps: seq<Step>, plain: Step :: OnlyWiring(steps, w, g) && Plain(plain, w, g) ==>
      (Engages(Run([], steps), plain) <==> Activated(steps, w, g, plain.thread))
  }

  /** A wiring that accumulates engages on a second plain message nobody was mentioned in. */
  lemma AccumulateEngagesUnasked(w: Wiring, g: Group, thread: ThreadId)
    requires thread != "" && w.engage == MentionSticky && w.policy == Accumulate && w.mode != AgentShared && g.isGroup
    ensures
      var plain := Step(w, g, true, Some(true), Some(thread), false, false, true, true);
      !Activated([plain], w, g, Some(thread)) && Engages(Run([], [plain]), plain)
  {
    var plain := Step(w, g, true, Some(true), Some(thread), false, false, true, true);
    RunOne([], plain);
    assert Next([], plain) == [Session(w.agentGroup, g.id, Some(thread))];
  }

  /** Any other wiring ignores a plain message although its thread was activated. */
  lemma OthersForget(w: Wiring, g: Group, thread: ThreadId)
    requires thread != "" && (w.engage != MentionSticky || w.mode == AgentShared || !g.isGroup)
    ensures
      var mention := MentionIn(w, g, Some(thread));
      var plain := Step(w, g, true, Some(true), Some(thread), false, false, true, true);
      Activated([mention], w, g, Some(thread)) && !Engages(Run([], [mention]), plain)
  {
    var mention := MentionIn(w, g, Some(thread));
    RunOne([], mention);
    assert Activates([mention][0], w, g, Some(thread));
    if w.mode == AgentShared {
      assert forall s :: s in Next([], mention) ==> s.thread == None;
    }
  }

  /**
   Main result: the rule holds for exactly those wirings: mention-sticky, dropping what they ignore,
   not shared across the agent, and in a group.
   */
  lemma StickyRuleHoldsExactlyWhen(w: Wiring, g: Group)
    ensures StickyRule(w, g) <==> Sticky(w, g)
  {
    if Sticky(w, g) {
      forall steps: seq<Step>, plain: Step | OnlyWiring(steps, w, g) && Plain(plain, w, g)
        ensures Engages(Run([], steps), plain) <==> Activated(steps, w, g, plain.thread)
      {
        PlainMessageEngagesExactlyWhen(steps, plain, w, g);
      }
    } else {
      hide Engages, Run, Activated;
      var plain := Step(w, g, true, Some(true), Some("t"), false, false, true, true);
      if w.engage == MentionSticky && w.mode != AgentShared && g.isGroup {
        AccumulateEngagesUnasked(w, g, "t");
        assert OnlyWiring([plain], w, g) && Plain(plain, w, g);
      } else {
        OthersForget(w, g, "t");
        assert OnlyWiring([MentionIn(w, g, Some("t"))], w, g) && Plain(plain, w, g);
      }
    }
  }

  // ---------- Every wiring ----------

  ghost predicate Newer(sessions: seq<Session>, i: nat, agent: AgentGroupId) {
    i < |sessions| && sessions[i].agentGroup == agent && forall j :: i < j < |sessions| ==> sessions[j].agentGroup != agent
  }

  lemma {:induction false} FoundIsNewest(sessions: seq<Session>, agent: AgentGroupId)
    ensures FindByAgentGroup(sessions, agent) == None <==> forall i :: 0 <= i < |sessions| ==> sessions[i].agentGroup != agent
    ensures FindByAgentGroup(sessions, agent).Some? ==>
              exists i: nat :: Newer(sessions, i, agent) && sessions[i] == FindByAgentGroup(sessions, agent).value
    decreases |sessions|
  {
    if sessions != [] {
      var last := |sessions| - 1;
      var front := sessions[..last];
      assert forall i :: 0 <= i < last ==> front[i] == sessions[i];
      if sessions[last].agentGroup == agent {
        assert Newer(sessions, last, agent);
      } else {
        FoundIsNewest(front, agent);
        if FindByAgentGroup(front, agent).Some? {
          var i: nat :| Newer(front, i, agent) && front[i] == FindByAgentGroup(front, agent).value;
          NewerStays(sessions, i, agent);
        }
      }
    }
  }

  lemma NewerStays(sessions: seq<Session>, i: nat, agent: AgentGroupId)
    requires sessions != [] && Newer(sessions[..|sessions| - 1], i, agent) && sessions[|sessions| - 1].agentGroup != agent
    ensures Newer(sessions, i, agent)
  {
    assert forall j :: 0 <= j < |sessions| - 1 ==> sessions[..|sessions| - 1][j] == sessions[j];
  }

  /** When a message engages its agent: as its mode says, and past both gates. */
  lemma EngagedExactlyWhen(sessions: seq<Session>, step: Step)
    ensures OutcomeOf(sessions, step) == Engaged <==>
            && step.known && step.accessOk && step.scopeOk
            && match step.wiring.engage
               case Pattern => step.patternMatches
               case Mention => step.isMention
               case MentionSticky =>
                 var thread := if step.adapter == Some(false) || step.thread == Some("") then None else step.thread;
                 step.isMention || (step.group.isGroup && Session(step.wiring.agentGroup, step.group.id, thread) in sessions)
  {
  }

  /**
   A message that does not engage is kept as context only by an accumulating wiring; one that would engage
   but is refused by a gate is not even kept, and creates no session.
   */
  lemma AccumulatedExactlyWhen(sessions: seq<Session>, step: Step)
    ensures
      var letIn := step.(accessOk := true, scopeOk := true);
      OutcomeOf(sessions, step) == Accumulated <==>
      step.known && step.wiring.policy == Accumulate && OutcomeOf(sessions, letIn) != Engaged
    ensures OutcomeOf(sessions, step) == Ignored ==> Next(sessions, step) == sessions
  {
  }

  /** The session a message that is not ignored goes to: what it is filed under. */
  function Filed(step: Step): Session
    requires step.wiring.mode != AgentShared
  {
    var perThread := step.wiring.mode == PerThread || (step.adapter == Some(true) && step.group.isGroup);
    var thread := if perThread && step.adapter != Some(false) then step.thread else None;
    Session(step.wiring.agentGroup, step.group.id, thread)
  }

  /**
   Where a message goes: one session for the whole agent, or for the group, or for the thread, which is
   what a threaded adapter gives every group and an unthreaded one nobody; at most one is created, behind
   the others.
   */
  lemma GoesTo(sessions: seq<Session>, step: Step)
    requires OutcomeOf(sessions, step) != Ignored && step.thread != Some("")
    ensures
      var after := Next(sessions, step);
      if step.wiring.mode == AgentShared then
        if exists i :: 0 <= i < |sessions| && sessions[i].agentGroup == step.wiring.agentGroup then after == sessions
        else after == sessions + [Session(step.wiring.agentGroup, step.group.id, None)]
      else after == if Filed(step) in sessions then sessions else sessions + [Filed(step)]
  {
    FoundIsNewest(sessions, step.wiring.agentGroup);
  }

  // ---------- The fan-out ----------

  /** One agent's turn in a fan-out, and what other fan-outs route while the delivery to it is awaited. */
  datatype Turn = Turn(step: Step, meanwhile: seq<Step>)

  /** An agent that ignores the message is not awaited. */
  function AfterTurn(sessions: seq<Session>, turn: Turn): seq<Session> {
    if OutcomeOf(sessions, turn.step) == Ignored then sessions else Run(Next(sessions, turn.step), turn.meanwhile)
  }

  function FanOut(sessions: seq<Session>, turns: seq<Turn>): seq<Session>
    decreases |turns|
  {
    if turns == [] then sessions else FanOut(AfterTurn(sessions, turns[0]), turns[1..])
  }

  /** How many turns have this outcome, each judged by the sessions there are when it comes. */
  function CountOutcome(sessions: seq<Session>, turns: seq<Turn>, outcome: Outcome): nat
    decreases |turns|
  {
    if turns == [] then 0
    else (if OutcomeOf(sessions, turns[0].step) == outcome then 1 else 0) +
         CountOutcome(AfterTurn(sessions, turns[0]), turns[1..], outcome)
  }

  /** The steps of a fan-out and of what runs between them, in order. */
  function StepsOf(sessions: seq<Session>, turns: seq<Turn>): seq<Step>
    decreases |turns|
  {
    if turns == [] then []
    else [turns[0].step] + (if OutcomeOf(sessions, turns[0].step) == Ignored then [] else turns[0].meanwhile) +
         StepsOf(AfterTurn(sessions, turns[0]), turns[1..])
  }

  lemma {:induction false} RunConcat(sessions: seq<Session>, a: seq<Step>, b: seq<Step>)
    ensures Run(sessions, a + b) == Run(Run(sessions, a), b)
    decreases |a|
  {
    hide Next;
    if a == [] {
      assert a + b == b;
    } else {
      assert (a + b)[1..] == a[1..] + b;
      RunConcat(Next(sessions, a[0]), a[1..], b);
    }
  }

  /** A fan-out, however it interleaves with others, is a run, so what holds over all runs holds for it. */
  lemma {:induction false} FanOutIsRun(sessions: seq<Session>, turns: seq<Turn>)
    ensures FanOut(sessions, turns) == Run(sessions, StepsOf(sessions, turns))
    decreases |turns|
  {
    hide OutcomeOf;
    if turns != [] {
      var turn, rest := turns[0], turns[1..];
      var between := if OutcomeOf(sessions, turn.step) == Ignored then [] else turn.meanwhile;
      var after := AfterTurn(sessions, turn);
      RunOne(sessions, turn.step);
      RunConcat(sessions, [turn.step], between);
      RunConcat(sessions, [turn.step] + between, StepsOf(after, rest));
      FanOutIsRun(after, rest);
    }
  }

  /** With no other message in between, every wired agent gets its turn, in order and whatever the others did. */
  lemma {:induction false} EveryAgentInOrder(sessions: seq<Session>, turns: seq<Turn>, steps: seq<Step>)
    requires |steps| == |turns| && forall i :: 0 <= i < |turns| ==> turns[i] == Turn(steps[i], [])
    ensures FanOut(sessions, turns) == Run(sessions, steps)
    decreases |turns|
  {
    hide OutcomeOf, Next;
    if turns != [] {
      if OutcomeOf(sessions, steps[0]) == Ignored { IgnoredChangesNothing(sessions, steps[0]); }
      assert Run(Next(sessions, steps[0]), []) == Next(sessions, steps[0]);
      EveryAgentInOrder(AfterTurn(sessions, turns[0]), turns[1..], steps[1..]);
    }
  }

  lemma IgnoredChangesNothing(sessions: seq<Session>, step: Step)
    requires OutcomeOf(sessions, step) == Ignored
    ensures Next(sessions, step) == sessions
  {
  }

  /** A message that every agent ignores leaves no trace: nothing is awaited, and no session is created. */
  lemma {:induction false} IgnoredLeavesNoTrace(sessions: seq<Session>, turns: seq<Turn>)
    ensures CountOutcome(sessions, turns, Engaged) + CountOutcome(sessions, turns, Accumulated) +
            CountOutcome(sessions, turns, Ignored) == |turns|
    ensures CountOutcome(sessions, turns, Ignored) == |turns| ==> FanOut(sessions, turns) == sessions
    decreases |turns|
  {
    hide OutcomeOf, Run, Next;
    if turns != [] {
      IgnoredLeavesNoTrace(AfterTurn(sessions, turns[0]), turns[1..]);
    }
  }

  class Router {
    var sessions: seq<Session>

    /** resolveSession; `created` says whether it had to insert a row. */
    method ResolveSession(agent: AgentGroupId, group: MessagingGroupId, thread: Option<ThreadId>, mode: SessionMode)
      returns (session: Session, created: bool)
      modifies this
      ensures sessions == Resolve(old(sessions), agent, group, thread, mode)
      ensures session in sessions && session.agentGroup == agent && created == (sessions != old(sessions))
      ensures mode == Shared ==> session == Session(agent, group, None)
      ensures mode == PerThread && thread != Some("") ==> session == Session(agent, group, thread)
      ensures mode == AgentShared && !created ==> exists i: nat :: Newer(sessions, i, agent) && sessions[i] == session
    {
      if mode == AgentShared {
        var existing := FindByAgentGroup(sessions, agent);
        if existing.Some? {
          FoundIsThere(sessions, agent);
          FoundIsNewest(sessions, agent);
          return existing.value, false;
        }
      } else {
        var lookup := if mode == Shared then None else thread;
        var existing := FindForAgent(sessions, agent, group, lookup);
        if existing.Some? {
          return existing.value, false;
        }
      }
      session := Session(agent, group, if mode == PerThread then thread else None);
      sessions := sessions + [session];
      created := true;
    }

    /** The fan-out loop of routeInbound; `dropped` is whether the message is recorded as dropped. */
    method RouteInbound(turns: seq<Turn>) returns (engagedCount: nat, accumulatedCount: nat, dropped: bool)
      modifies this
      ensures sessions == FanOut(old(sessions), turns)
      ensures engagedCount == CountOutcome(old(sessions), turns, Engaged)
      ensures accumulatedCount == CountOutcome(old(sessions), turns, Accumulated)
      ensures dropped <==> CountOutcome(old(sessions), turns, Ignored) == |turns|
      ensures dropped ==> sessions == old(sessions)
    {
      hide OutcomeOf, Run, Resolve;
      IgnoredLeavesNoTrace(sessions, turns);
      engagedCount, accumulatedCount := 0, 0;
      for i := 0 to |turns|
        invariant FanOut(old(sessions), turns) == FanOut(sessions, turns[i..])
        invariant CountOutcome(old(sessions), turns, Engaged) == engagedCount + CountOutcome(sessions, turns[i..], Engaged)
        invariant CountOutcome(old(sessions), turns, Accumulated) ==
                  accumulatedCount + CountOutcome(sessions, turns[i..], Accumulated)
      {
        assert turns[i..][0] == turns[i] && turns[i..][1..] == turns[i + 1..];
        ghost var before := sessions;
        var outcome := RouteToAgent(turns[i].step);
        match outcome {
          case Engaged =>
            Elsewhere(turns[i].meanwhile);
            engagedCount := engagedCount + 1;
          case Accumulated =>
            Elsewhere(turns[i].meanwhile);
            accumulatedCount := accumulatedCount + 1;
          case Ignored =>
        }
        assert sessions == AfterTurn(before, turns[i]);
      }
      assert turns[|turns|..] == [];
      dropped := engagedCount + accumulatedCount == 0;
    }

    /** What other fan-outs route while this one is suspended. */
    method Elsewhere(steps: seq<Step>)
      modifies this
      ensures sessions == Run(old(sessions), steps)
    {
      hide Next, OutcomeOf;
      for i := 0 to |steps|
        invariant Run(old(sessions), steps) == Run(sessions, steps[i..])
      {
        assert steps[i..][0] == steps[i] && steps[i..][1..] == steps[i + 1..];
        var _ := RouteToAgent(steps[i]);
      }
      assert steps[|steps|..] == [];
    }

    method RouteToAgent(step: Step) returns (outcome: Outcome)
      modifies this
      ensures sessions == Next(old(sessions), step) && outcome == OutcomeOf(old(sessions), step)
    {
      if !step.known {
        return Ignored;
      }
      var engages := Engages(sessions, step);
      var accessOk := engages && step.accessOk;
      var scopeOk := engages && step.scopeOk;
      if engages && accessOk && scopeOk {
        outcome := Engaged;
      } else if step.wiring.policy == Accumulate && !(engages && (!accessOk || !scopeOk)) {
        outcome := Accumulated;
      } else {
        return Ignored;
      }
      var _, _ := ResolveSession(step.wiring.agentGroup, step.group.id, Thread(step), EffectiveMode(step));
    }
  }

  lemma {:induction false} FoundIsThere(sessions: seq<Session>, agent: AgentGroupId)
    requires FindByAgentGroup(sessions, agent).Some?
    ensures FindByAgentGroup(sessions, agent).value in sessions && FindByAgentGroup(sessions, agent).value.agentGroup == agent
    decreases |sessions|
  {
    if sessions[|sessions| - 1].agentGroup != agent {
      FoundIsThere(sessions[..|sessions| - 1], agent);
    }
  }
}
