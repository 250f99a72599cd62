/**
 The outgoing queue of the WhatsApp channel (src/channels/whatsapp.ts).

 Senders and the flush share one queue.  A sender that finds the connection open is suspended in
 its own send, the flush is suspended in the send of the item it has taken off the queue, and the
 connection opens and closes at any time.  Everything between two suspensions is one step.
 */
module Outgoing {
  import opened Options

  const MAX_OUTGOING_QUEUE: nat := 500

  /** `id` says which call of sendRawMessage the text came from, `ticket` which push put it on the queue. */
  datatype Entry = Entry(id: nat, ticket: nat)

  /**
   `held` is the item the flush is sending; the flush is running exactly while there is one.
   `direct` are the texts being sent by their own sender, `sent` and `shed` are logs, `flushed` is
   the log of what the flush sent.
   */
  datatype State = State(
    connected: bool,
    queue: seq<Entry>,
    held: Option<Entry>,
    direct: set<nat>,
    sent: seq<nat>,
    shed: seq<nat>,
    flushed: seq<Entry>,
    nextId: nat,
    nextTicket: nat)

  function Init(): State {
    State(false, [], None, {}, [], [], [], 0, 0)
  }

  /** Put a text on the queue, shedding the oldest item first when the queue is full. */
  function Push(s: State, id: nat): State {
    var full := |s.queue| >= MAX_OUTGOING_QUEUE;
    s.(queue := (if full then s.queue[1..] else s.queue) + [Entry(id, s.nextTicket)],
       shed := if full then s.shed + [s.queue[0].id] else s.shed,
       nextTicket := s.nextTicket + 1)
  }

  /** The flush loop at its condition: take the next item, or be done. */
  function TakeNext(s: State): State {
    if s.queue == [] then s.(held := None) else s.(held := Some(s.queue[0]), queue := s.queue[1..])
  }

  datatype Event =
    | Send
    | DirectSettled(id: nat, ok: bool)
    | Open
    | Close
    | FlushSettled(ok: bool)

  function Step(s: State, e: Event): State {
    match e
    case Send =>
      var s' := s.(nextId := s.nextId + 1);
      if s.connected then s'.(direct := s.direct + {s.nextId}) else Push(s', s.nextId)
    case DirectSettled(id, ok) =>
      if id !in s.direct then s
      else
        var s' := s.(direct := s.direct - {id});
        if ok then s'.(sent := s.sent + [id]) else Push(s', id)
    case Open =>
      var s' := s.(connected := true);
      if s.held.Some? then s' else TakeNext(s')
    case Close => s.(connected := false)
    case FlushSettled(ok) =>
      if s.held.None? then s
      else if ok then TakeNext(s.(sent := s.sent + [s.held.value.id], flushed := s.flushed + [s.held.value]))
      else s.(queue := [s.held.value] + s.queue, held := None)
  }

  function Run(s: State, es: seq<Event>): State
    decreases |es|
  {
    if es == [] then s else Run(Step(s, es[0]), es[1..])
  }

  /** The item the flush holds, then the queue. */
  function Waiting(s: State): seq<Entry> {
    (if s.held.Some? then [s.held.value] else []) + s.queue
  }

  function Ids(entries: seq<Entry>): multiset<nat> {
    if entries == [] then multiset{} else multiset{entries[0].id} + Ids(entries[1..])
  }

  /** Where every text is: being sent directly, sent, waiting, or shed. */
  function Places(s: State): multiset<nat> {
    multiset(s.direct) + multiset(s.sent) + Ids(Waiting(s)) + multiset(s.shed)
  }

  ghost predicate Increasing(entries: seq<Entry>) {
    forall i, j :: 0 <= i < j < |entries| ==> entries[i].ticket < entries[j].ticket
  }

  ghost predicate OrderedBelow(entries: seq<Entry>, bound: nat) {
    Increasing(entries) && forall i :: 0 <= i < |entries| ==> entries[i].ticket < bound
  }

  ghost predicate InOrder(s: State) {
    OrderedBelow(s.flushed + Waiting(s), s.nextTicket)
  }

  ghost predicate Conserved(s: State) {
    forall id: nat :: Places(s)[id] == if id < s.nextId then 1 else 0
  }

  ghost predicate Inv(s: State) {
    Conserved(s) && InOrder(s) && |Waiting(s)| <= MAX_OUTGOING_QUEUE + 1
  }

  lemma {:induction false} IdsConcat(a: seq<Entry>, b: seq<Entry>)
    ensures Ids(a + b) == Ids(a) + Ids(b)
  {
    if a == [] {
      assert a + b == b;
    } else {
      assert (a + b)[1..] == a[1..] + b;
      IdsConcat(a[1..], b);
    }
  }

  lemma OneId(e: Entry)
    ensures Ids([e]) == multiset{e.id}
  {
    assert [e][1..] == [];
  }

  lemma IdsAppend(a: seq<Entry>, e: Entry)
    ensures Ids(a + [e]) == Ids(a) + multiset{e.id}
  {
    OneId(e);
    IdsConcat(a, [e]);
  }

  lemma IdsCons(e: Entry, a: seq<Entry>)
    ensures Ids([e] + a) == multiset{e.id} + Ids(a)
  {
    assert ([e] + a)[1..] == a;
  }

  lemma IdsPush(front: seq<Entry>, queue: seq<Entry>, added: Entry)
    ensures Ids(front + (queue + [added])) == Ids(front + queue) + multiset{added.id}
  {
    hide Ids;
    IdsAppend(front + queue, added);
    assert front + (queue + [added]) == (front + queue) + [added];
  }

  lemma IdsShed(front: seq<Entry>, queue: seq<Entry>)
    requires queue != []
    ensures Ids(front + queue) == Ids(front + queue[1..]) + multiset{queue[0].id}
  {
    hide Ids;
    IdsConcat(front, queue);
    IdsConcat(front, queue[1..]);
    IdsCons(queue[0], queue[1..]);
    assert queue == [queue[0]] + queue[1..];
  }

  function Front(s: State): seq<Entry> {
    if s.held.Some? then [s.held.value] else []
  }

  /** A push moves a text into the queue, and possibly the oldest queued one out; it touches nothing else. */
  lemma PushPlaces(s: State, id: nat)
    ensures Places(Push(s, id)) == Places(s) + multiset{id}
  {
    hide Ids;
    var s' := Push(s, id);
    var added := Entry(id, s.nextTicket);
    assert Waiting(s) == Front(s) + s.queue && Waiting(s') == Front(s) + s'.queue;
    if |s.queue| >= MAX_OUTGOING_QUEUE {
      IdsShed(Front(s), s.queue);
      IdsPush(Front(s), s.queue[1..], added);
      assert multiset(s'.shed) == multiset(s.shed) + multiset{s.queue[0].id};
    } else {
      IdsPush(Front(s), s.queue, added);
    }
  }

  lemma WithoutOne(a: seq<Entry>, e: Entry, b: seq<Entry>, bound: nat)
    requires OrderedBelow(a + [e] + b, bound)
    ensures OrderedBelow(a + b, bound)
  {
    var with, without := a + [e] + b, a + b;
    assert forall i :: 0 <= i < |without| ==> without[i] == with[if i < |a| then i else i + 1];
  }

  lemma OneMore(a: seq<Entry>, id: nat, bound: nat)
    requires OrderedBelow(a, bound)
    ensures OrderedBelow(a + [Entry(id, bound)], bound + 1)
  {
  }

  /** A push takes the head off a full queue and adds its entry behind everything. */
  lemma PushShape(s: State, id: nat)
    ensures
      var front := s.flushed + Front(s);
      var kept := if |s.queue| >= MAX_OUTGOING_QUEUE then s.queue[1..] else s.queue;
      && s.flushed + Waiting(s) == front + s.queue
      && Push(s, id).flushed + Waiting(Push(s, id)) == front + kept + [Entry(id, s.nextTicket)]
      && Push(s, id).nextTicket == s.nextTicket + 1
  {
  }

  lemma PushInOrder(s: State, id: nat)
    requires InOrder(s)
    ensures InOrder(Push(s, id))
  {
    hide OrderedBelow, Push, Waiting, Front;
    PushShape(s, id);
    var front := s.flushed + Front(s);
    if |s.queue| >= MAX_OUTGOING_QUEUE {
      assert front + s.queue == front + [s.queue[0]] + s.queue[1..];
      WithoutOne(front, s.queue[0], s.queue[1..], s.nextTicket);
      OneMore(front + s.queue[1..], id, s.nextTicket);
    } else {
      OneMore(front + s.queue, id, s.nextTicket);
    }
  }

  lemma TakeNextKeeps(s: State)
    requires s.held.None?
    ensures Waiting(TakeNext(s)) == Waiting(s)
  {
  }

  lemma FlushSettledWaiting(s: State, ok: bool)
    requires s.held.Some?
    ensures ok ==> Waiting(Step(s, FlushSettled(ok))) == s.queue
    ensures !ok ==> Waiting(Step(s, FlushSettled(ok))) == Waiting(s)
  {
  }

  lemma FlushSettledPlaces(s: State, ok: bool)
    requires s.held.Some?
    ensures Places(Step(s, FlushSettled(ok))) == Places(s)
  {
    hide Ids, Waiting;
    FlushSettledWaiting(s, ok);
    HeldFirst(s);
    IdsCons(s.held.value, s.queue);
    assert multiset(s.sent + [s.held.value.id]) == multiset(s.sent) + multiset{s.held.value.id};
  }

  lemma HeldFirst(s: State)
    requires s.held.Some?
    ensures Waiting(s) == [s.held.value] + s.queue
  {
  }

  lemma SendConserves(s: State)
    requires Conserved(s)
    ensures Conserved(Step(s, Send))
  {
    hide Ids, Push;
    var s1 := s.(nextId := s.nextId + 1);
    assert Waiting(s1) == Waiting(s);
    assert Places(s)[s.nextId] == 0;
    if s.connected {
      var s' := Step(s, Send);
      assert Waiting(s') == Waiting(s);
      assert s.nextId !in s.direct;
      assert multiset(s'.direct) == multiset(s.direct) + multiset{s.nextId};
      assert Places(s') == Places(s) + multiset{s.nextId};
    } else {
      PushPlaces(s1, s.nextId);
      PushKeepsCounters(s1, s.nextId);
    }
  }

  lemma DirectSettledPlaces(s: State, id: nat, ok: bool)
    requires id in s.direct
    ensures Places(Step(s, DirectSettled(id, ok))) == Places(s)
  {
    hide Ids, Push;
    var s1 := s.(direct := s.direct - {id});
    var s' := Step(s, DirectSettled(id, ok));
    assert Waiting(s1) == Waiting(s);
    assert multiset(s.direct) == multiset(s1.direct) + multiset{id};
    if ok {
      assert Waiting(s') == Waiting(s);
      assert multiset(s'.sent) == multiset(s.sent) + multiset{id};
    } else {
      PushPlaces(s1, id);
    }
  }

  lemma StepConserves(s: State, e: Event)
    requires Conserved(s)
    ensures Conserved(Step(s, e))
  {
    if e.Send? {
      SendConserves(s);
    } else {
      hide Places, Push, TakeNext;
      StepPlaces(s, e);
    }
  }

  /** Nothing but a call of sendRawMessage adds a text. */
  lemma StepPlaces(s: State, e: Event)
    requires !e.Send?
    ensures Places(Step(s, e)) == Places(s) && Step(s, e).nextId == s.nextId
  {
    hide Ids, Push;
    match e
    case DirectSettled(id, ok) => if id in s.direct { DirectSettledPlaces(s, id, ok); PushKeepsCounters(s.(direct := s.direct - {id}), id); }
    case Open =>
      if s.held.None? { TakeNextKeeps(s.(connected := true)); }
      assert Waiting(Step(s, e)) == Waiting(s);
    case Close => assert Waiting(Step(s, e)) == Waiting(s);
    case FlushSettled(ok) => if s.held.Some? { FlushSettledPlaces(s, ok); }
  }

  lemma PushKeepsCounters(s: State, id: nat)
    ensures Push(s, id).nextId == s.nextId
  {
  }

  lemma SameOrder(s: State, s': State)
    requires InOrder(s) && s'.nextTicket == s.nextTicket
    requires s'.flushed + Waiting(s') == s.flushed + Waiting(s)
    ensures InOrder(s')
  {
  }

  lemma PushSize(s: State, id: nat)
    requires |Waiting(s)| <= MAX_OUTGOING_QUEUE + 1
    ensures |Waiting(Push(s, id))| <= MAX_OUTGOING_QUEUE + 1
  {
  }

  lemma PushStep(s: State, s1: State, id: nat)
    requires InOrder(s) && |Waiting(s)| <= MAX_OUTGOING_QUEUE + 1
    requires s1.nextTicket == s.nextTicket && s1.flushed == s.flushed && s1.held == s.held && s1.queue == s.queue
    ensures InOrder(Push(s1, id)) && |Waiting(Push(s1, id))| <= MAX_OUTGOING_QUEUE + 1
  {
    hide InOrder, Push;
    assert Waiting(s1) == Waiting(s);
    SameOrder(s, s1);
    PushInOrder(s1, id);
    PushSize(s1, id);
  }

  lemma QuietStep(s: State, s': State)
    requires InOrder(s) && |Waiting(s)| <= MAX_OUTGOING_QUEUE + 1
    requires s'.nextTicket == s.nextTicket && s'.flushed + Waiting(s') == s.flushed + Waiting(s)
    requires |Waiting(s')| <= |Waiting(s)|
    ensures InOrder(s') && |Waiting(s')| <= MAX_OUTGOING_QUEUE + 1
  {
    hide InOrder;
    SameOrder(s, s');
  }

  lemma FlushStep(s: State, ok: bool)
    requires InOrder(s) && |Waiting(s)| <= MAX_OUTGOING_QUEUE + 1 && s.held.Some?
    ensures InOrder(Step(s, FlushSettled(ok))) && |Waiting(Step(s, FlushSettled(ok)))| <= MAX_OUTGOING_QUEUE + 1
  {
    hide InOrder, Waiting;
    var s' := Step(s, FlushSettled(ok));
    FlushSettledWaiting(s, ok);
    HeldFirst(s);
    assert s'.flushed + Waiting(s') == s.flushed + Waiting(s);
    QuietStep(s, s');
  }

  lemma StepInOrder(s: State, e: Event)
    requires InOrder(s) && |Waiting(s)| <= MAX_OUTGOING_QUEUE + 1
    ensures InOrder(Step(s, e)) && |Waiting(Step(s, e))| <= MAX_OUTGOING_QUEUE + 1
  {
    hide InOrder, Push, TakeNext;
    if e.Send? && !s.connected {
      PushStep(s, s.(nextId := s.nextId + 1), s.nextId);
    } else if e.DirectSettled? && e.id in s.direct && !e.ok {
      PushStep(s, s.(direct := s.direct - {e.id}), e.id);
    } else if e.FlushSettled? && s.held.Some? {
      FlushStep(s, e.ok);
    } else if e.Open? && s.held.None? {
      OpenStep(s);
    } else {
      assert Waiting(Step(s, e)) == Waiting(s);
      QuietStep(s, Step(s, e));
    }
  }

  lemma OpenStep(s: State)
    requires InOrder(s) && |Waiting(s)| <= MAX_OUTGOING_QUEUE + 1 && s.held.None?
    ensures InOrder(Step(s, Open)) && |Waiting(Step(s, Open))| <= MAX_OUTGOING_QUEUE + 1
  {
    hide InOrder;
    var s1 := s.(connected := true);
    TakeNextKeeps(s1);
    assert Waiting(s1) == Waiting(s);
    QuietStep(s, Step(s, Open));
  }

  lemma {:induction false} RunKeepsInv(s: State, es: seq<Event>)
    requires Inv(s)
    ensures Inv(Run(s, es))
    decreases |es|
  {
    hide Conserved, InOrder, Step, Waiting;
    if es != [] {
      StepConserves(s, es[0]);
      StepInOrder(s, es[0]);
      RunKeepsInv(Step(s, es[0]), es[1..]);
    }
  }

  lemma InitInv()
    ensures Inv(Init())
  {
    assert Waiting(Init()) == [];
  }

  /**
   Main result: in every reachable state each text is in exactly one place, what the flush has sent,
   holds and will send is in push order, and at most 501 texts wait.
   */
  lemma ConservedAndOrdered(es: seq<Event>)
    ensures
      var s := Run(Init(), es);
      && (forall id: nat :: Places(s)[id] == if id < s.nextId then 1 else 0)
      && Increasing(s.flushed + Waiting(s))
      && |s.queue| <= 501 && |Waiting(s)| <= 501
  {
    InitInv();
    RunKeepsInv(Init(), es);
  }

  /** A text is shed only by a push that finds the queue full, and then it is the head of the queue. */
  lemma OnlyFullQueueSheds(s: State, e: Event)
    ensures var s' := Step(s, e);
            s'.shed == s.shed || (|s.queue| >= 500 && s'.shed == s.shed + [s.queue[0].id])
  {
  }

  // ---------- Which texts are sent ----------

  /** The platform has accepted the text `id`: its own send, or the flush's, resolves. */
  predicate Accepts(s: State, e: Event, id: nat) {
    match e
    case DirectSettled(d, ok) => ok && d in s.direct && d == id
    case FlushSettled(ok) => ok && s.held.Some? && s.held.value.id == id
    case _ => false
  }

  /** A step books a text as sent exactly when the platform accepts it, one at a time, behind those before. */
  lemma SentExactlyWhenAccepted(s: State, e: Event)
    ensures var s' := Step(s, e);
            if id: nat :| Accepts(s, e, id) then s'.sent == s.sent + [id] else s'.sent == s.sent
  {
    hide Push;
    PushKeepsSent(s, 0);
    match e
    case Send => if !s.connected { PushKeepsSent(s.(nextId := s.nextId + 1), s.nextId); }
    case DirectSettled(d, ok) =>
      PushKeepsSent(s.(direct := s.direct - {d}), d);
      assert d in s.direct && ok ==> Accepts(s, e, d);
    case FlushSettled(ok) => assert ok && s.held.Some? ==> Accepts(s, e, s.held.value.id);
    case _ =>
  }

  lemma PushKeepsSent(s: State, id: nat)
    ensures Push(s, id).sent == s.sent
  {
  }

  /** Some step of the run is the platform accepting `id`. */
  ghost predicate AcceptedIn(s: State, es: seq<Event>, id: nat)
    decreases |es|
  {
    es != [] && (Accepts(s, es[0], id) || AcceptedIn(Step(s, es[0]), es[1..], id))
  }

  /** Main result: over every run a text is booked as sent if and only if the platform accepted it. */
  lemma {:induction false} SentMeansAccepted(s: State, es: seq<Event>, id: nat)
    ensures id in Run(s, es).sent <==> id in s.sent || AcceptedIn(s, es, id)
    decreases |es|
  {
    hide Step, Accepts;
    if es != [] {
      SentExactlyWhenAccepted(s, es[0]);
      SentMeansAccepted(Step(s, es[0]), es[1..], id);
      OnlyOneAccepted(s, es[0]);
    }
  }

  lemma OnlyOneAccepted(s: State, e: Event)
    ensures forall a: nat, b: nat :: Accepts(s, e, a) && Accepts(s, e, b) ==> a == b
  {
  }

  /** Where a new text goes: into its own send on an open connection, to the end of the queue otherwise. */
  lemma SendGoes(s: State)
    ensures
      var s' := Step(s, Send);
      && s'.nextId == s.nextId + 1 && s'.held == s.held && s'.connected == s.connected
      && if s.connected then s'.direct == s.direct + {s.nextId} && s'.queue == s.queue && s'.shed == s.shed
         else s'.direct == s.direct && s'.queue != [] && s'.queue[|s'.queue| - 1].id == s.nextId
  {
  }

  /** A send that fails puts its text at the end of the queue, whether or not the connection is still open. */
  lemma FailedSendIsQueued(s: State, id: nat)
    requires id in s.direct
    ensures
      var s' := Step(s, DirectSettled(id, false));
      && id !in s'.direct && s'.queue != [] && s'.queue[|s'.queue| - 1].id == id
      && |s'.queue| == if |s.queue| >= 500 then |s.queue| else |s.queue| + 1
  {
  }

  /** A flush goes on to the next text as long as there is one, whether or not the connection is still open. */
  lemma FlushGoesOn(s: State)
    requires s.held.Some?
    ensures
      var s' := Step(s, FlushSettled(true));
      && s'.connected == s.connected
      && if s.queue == [] then s'.held == None && s'.queue == [] else s'.held == Some(s.queue[0]) && s'.queue == s.queue[1..]
  {
  }

  /** Opening starts a flush of what waits, unless one is running; closing changes nothing but the flag. */
  lemma OpenAndClose(s: State)
    ensures Step(s, Close) == s.(connected := false)
    ensures
      var s' := Step(s, Open);
      && s'.connected && s'.direct == s.direct && s'.sent == s.sent && s'.shed == s.shed && Waiting(s') == Waiting(s)
      && (s'.held.Some? <==> s.held.Some? || s.queue != [])
  {
  }

  // ---------- When a text waits although it could be sent, and when the limit is exceeded ----------

  /** On an open connection with no flush running nothing waits. */
  predicate Quiet(s: State) {
    s.connected && s.held.None? ==> s.queue == []
  }

  /** A send fails on an open connection, and no flush is there to pick its text up. */
  predicate FailsOpen(s: State, e: Event) {
    match e
    case FlushSettled(ok) => !ok && s.held.Some? && s.connected
    case DirectSettled(id, ok) => !ok && id in s.direct && s.connected && s.held.None?
    case _ => false
  }

  lemma QuietSurvives(s: State, e: Event)
    requires Quiet(s)
    ensures Quiet(Step(s, e)) <==> !FailsOpen(s, e)
  {
  }

  predicate WithinLimit(s: State) {
    |s.queue| <= MAX_OUTGOING_QUEUE
  }

  /** The flush fails while the queue has filled up behind its item. */
  predicate FailsFull(s: State, e: Event) {
    e.FlushSettled? && !e.ok && s.held.Some? && |s.queue| == MAX_OUTGOING_QUEUE
  }

  lemma LimitSurvives(s: State, e: Event)
    requires WithinLimit(s)
    ensures WithinLimit(Step(s, e)) <==> !FailsFull(s, e)
  {
  }

  /** `good` holds in every state of the run. */
  ghost predicate Always(good: State -> bool, s: State, es: seq<Event>)
    decreases |es|
  {
    good(s) && (es != [] ==> Always(good, Step(s, es[0]), es[1..]))
  }

  /** No step of the run is `bad` in the state it is taken in. */
  ghost predicate Never(bad: (State, Event) -> bool, s: State, es: seq<Event>)
    decreases |es|
  {
    es != [] ==> !bad(s, es[0]) && Never(bad, Step(s, es[0]), es[1..])
  }

  lemma {:induction false} AlwaysExactlyWhen(good: State -> bool, bad: (State, Event) -> bool, s: State, es: seq<Event>)
    requires forall s, e :: good(s) ==> (good(Step(s, e)) <==> !bad(s, e))
    requires good(s)
    ensures Always(good, s, es) <==> Never(bad, s, es)
    decreases |es|
  {
    hide Step;
    if es != [] {
      if bad(s, es[0]) {
        assert !good(Step(s, es[0]));
      } else {
        AlwaysExactlyWhen(good, bad, Step(s, es[0]), es[1..]);
      }
    }
  }

  /** Over a whole run nothing ever waits on an idle open connection if and only if no send fails on one. */
  lemma QuietExactlyWhen(es: seq<Event>)
    ensures Always(Quiet, Init(), es) <==> Never(FailsOpen, Init(), es)
  {
    hide Step, Quiet, FailsOpen, Always, Never;
    forall s, e | Quiet(s) ensures Quiet(Step(s, e)) <==> !FailsOpen(s, e) {
      QuietSurvives(s, e);
    }
    StartsWell();
    AlwaysExactlyWhen(Quiet, FailsOpen, Init(), es);
  }

  /** Over a whole run the queue never exceeds 500 if and only if no flush fails in front of a full queue. */
  lemma WithinLimitExactlyWhen(es: seq<Event>)
    ensures Always(WithinLimit, Init(), es) <==> Never(FailsFull, Init(), es)
  {
    hide Step, WithinLimit, FailsFull, Always, Never;
    forall s, e | WithinLimit(s) ensures WithinLimit(Step(s, e)) <==> !FailsFull(s, e) {
      LimitSurvives(s, e);
    }
    StartsWell();
    AlwaysExactlyWhen(WithinLimit, FailsFull, Init(), es);
  }

  lemma StartsWell()
    ensures Quiet(Init()) && WithinLimit(Init())
  {
  }

  /** A send that fails on an open connection leaves its text waiting with no flush running, until the next open. */
  lemma FailedSendWaitsForReopen()
    ensures exists es: seq<Event> :: var s := Run(Init(), es); s.connected && s.held.None? && s.queue != []
  {
    var es := [Open, Send, DirectSettled(0, false)];
    var s1 := Step(Init(), Open);
    var s2 := Step(s1, Send);
    var s3 := Step(s2, DirectSettled(0, false));
    assert es[1..] == [Send, DirectSettled(0, false)] && es[1..][1..] == [DirectSettled(0, false)] && es[1..][1..][1..] == [];
    assert Run(Init(), es) == Run(s1, es[1..]) == Run(s2, es[1..][1..]) == s3;
    assert s3.connected && s3.held.None? && s3.queue != [];
  }

  /** Only a connection that opens starts a flush: until then nothing that waits is sent. */
  lemma {:induction false} WaitsUntilOpen(s: State, es: seq<Event>)
    requires s.held.None? && forall i :: 0 <= i < |es| ==> !es[i].Open?
    ensures Run(s, es).held.None? && Run(s, es).flushed == s.flushed
    decreases |es|
  {
    if es != [] {
      assert es[0] in es && Step(s, es[0]).held.None? && Step(s, es[0]).flushed == s.flushed;
      WaitsUntilOpen(Step(s, es[0]), es[1..]);
    }
  }

  // ---------- 501 is reached ----------

  lemma {:induction false} Fill(s: State, n: nat) returns (es: seq<Event>)
    requires !s.connected && s.held.None? && |s.queue| + n <= MAX_OUTGOING_QUEUE
    ensures
      var s' := Run(s, es);
      !s'.connected && s'.held.None? && |s'.queue| == |s.queue| + n
    decreases n
  {
    if n == 0 {
      es := [];
    } else {
      var rest := Fill(Step(s, Send), n - 1);
      es := [Send] + rest;
      assert es[1..] == rest;
    }
  }

  lemma {:induction false} RunConcat(s: State, a: seq<Event>, b: seq<Event>)
    ensures Run(s, a + b) == Run(Run(s, a), b)
    decreases |a|
  {
    if a == [] {
      assert a + b == b;
    } else {
      assert (a + b)[1..] == a[1..] + b;
      RunConcat(Step(s, a[0]), a[1..], b);
    }
  }

  /** A full queue, a flush, one more text while it is suspended, and the flush fails: 501 texts are queued. */
  lemma QueueReaches501()
    ensures exists es: seq<Event> :: |Run(Init(), es).queue| == 501
  {
    var fill := Fill(Init(), MAX_OUTGOING_QUEUE);
    var s0 := Run(Init(), fill);
    var rest := [Open, Close, Send, FlushSettled(false)];
    var s1 := Step(s0, Open);
    var s2 := Step(s1, Close);
    var s3 := Step(s2, Send);
    var s4 := Step(s3, FlushSettled(false));
    assert rest[1..] == [Close, Send, FlushSettled(false)] && rest[1..][1..] == [Send, FlushSettled(false)];
    assert rest[1..][1..][1..] == [FlushSettled(false)] && rest[1..][1..][1..][1..] == [];
    assert Run(s0, rest) == Run(s1, rest[1..]) == Run(s2, rest[1..][1..]) == Run(s3, [FlushSettled(false)]) == s4;
    RunConcat(Init(), fill, rest);
    assert |Run(Init(), fill + rest).queue| == 501;
  }

  // ---------- The code ----------

  class WhatsAppQueue {
    var connected: bool
    var outgoingQueue: seq<Entry>
    var flushing: bool
    var current: Option<Entry>
    var direct: set<nat>
    var nextId: nat
    ghost var sent: seq<nat>
    ghost var shed: seq<nat>
    ghost var flushed: seq<Entry>
    var nextTicket: nat

    ghost predicate Valid()
      reads this
    {
      flushing == current.Some?
    }

    ghost function View(): State
      reads this
    {
      State(connected, outgoingQueue, current, direct, sent, shed, flushed, nextId, nextTicket)
    }

    /** The queueing branch of sendRawMessage. */
    method Enqueue(id: nat)
      requires Valid()
      modifies this
      ensures Valid() && View() == Push(old(View()), id)
    {
      if |outgoingQueue| >= MAX_OUTGOING_QUEUE {
        shed := shed + [outgoingQueue[0].id];
        outgoingQueue := outgoingQueue[1..];
      }
      outgoingQueue := outgoingQueue + [Entry(id, nextTicket)];
      nextTicket := nextTicket + 1;
    }

    /** sendRawMessage up to its first await. */
    method SendRawMessage()
      requires Valid()
      modifies this
      ensures Valid() && View() == Step(old(View()), Send)
    {
      var id := nextId;
      nextId := nextId + 1;
      if !connected {
        Enqueue(id);
        return;
      }
      direct := direct + {id};
    }

    method SendSettled(id: nat, ok: bool)
      requires Valid() && id in direct
      modifies this
      ensures Valid() && View() == Step(old(View()), DirectSettled(id, ok))
    {
      direct := direct - {id};
      if ok {
        sent := sent + [id];
      } else {
        Enqueue(id);
      }
    }

    /** flushOutgoingQueue up to its first await. */
    method FlushOutgoingQueue()
      requires Valid()
      modifies this
      ensures Valid() && View() == if old(current).Some? then old(View()) else TakeNext(old(View()))
    {
      if flushing || |outgoingQueue| == 0 {
        return;
      }
      flushing := true;
      current, outgoingQueue := Some(outgoingQueue[0]), outgoingQueue[1..];
    }

    method ConnectionOpened()
      requires Valid()
      modifies this
      ensures Valid() && View() == Step(old(View()), Open)
    {
      connected := true;
      FlushOutgoingQueue();
    }

    /** The flush resumes: book the item, then shift the next one or stop. */
    method FlushResumed(ok: bool)
      requires Valid() && current.Some?
      modifies this
      ensures Valid() && View() == Step(old(View()), FlushSettled(ok))
    {
      if !ok {
        outgoingQueue := [current.value] + outgoingQueue;
        current, flushing := None, false;
        return;
      }
      sent, flushed := sent + [current.value.id], flushed + [current.value];
      if |outgoingQueue| > 0 {
        current, outgoingQueue := Some(outgoingQueue[0]), outgoingQueue[1..];
      } else {
        current, flushing := None, false;
      }
    }
  }
}
