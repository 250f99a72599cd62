/**
 Outbound delivery (src/delivery.ts).

 Two poll loops and direct callers drain the same sessions.  A drain works from a snapshot of
 the undelivered messages and suspends at every delivery attempt, so one call is a `Deliver`
 step (everything up to the first await) followed by one `Settle` step per message.  Any number
 of drains may be suspended at once; only `inflight` keeps two of them off one session.
 */
module Delivering {

  type SessionId = string
  type MessageId = string

  const MAX_DELIVERY_ATTEMPTS := 3

  datatype Status = Delivered | Failed

  /** A suspended drain: the first of `remaining` is the message being attempted. */
  datatype Drain = Drain(session: SessionId, remaining: seq<MessageId>)

  /** `tried` and `sent` count, over the whole run, the attempts started and the attempts that succeeded. */
  datatype State = State(
    outbox: map<SessionId, seq<MessageId>>,
    delivered: map<SessionId, map<MessageId, Status>>,
    attempts: map<MessageId, nat>,
    inflight: set<SessionId>,
    drains: map<nat, Drain>,
    nextDrain: nat,
    tried: map<MessageId, nat>,
    sent: map<MessageId, nat>)

  function Init(): State {
    State(map[], map[], map[], {}, map[], 0, map[], map[])
  }

  function Count(m: map<MessageId, nat>, id: MessageId): nat {
    if id in m then m[id] else 0
  }

  function Outbox(s: State, session: SessionId): seq<MessageId> {
    if session in s.outbox then s.outbox[session] else []
  }

  function Table(delivered: map<SessionId, map<MessageId, Status>>, session: SessionId): map<MessageId, Status> {
    if session in delivered then delivered[session] else map[]
  }

  function Undelivered(due: seq<MessageId>, done: map<MessageId, Status>): seq<MessageId> {
    if due == [] then []
    else if due[0] in done then Undelivered(due[1..], done)
    else [due[0]] + Undelivered(due[1..], done)
  }

  /** INSERT OR IGNORE into the delivered table, which also holds the permanent failures. */
  function Mark(s: State, session: SessionId, id: MessageId, status: Status): map<SessionId, map<MessageId, Status>> {
    var table := Table(s.delivered, session);
    s.delivered[session := if id in table then table else table[id := status]]
  }

  /** deliverSessionMessages up to its first await; `opens` says whether both session files could be opened. */
  function Deliver(s: State, session: SessionId, opens: bool): State {
    if session in s.inflight || !opens then s
    else
      var todo := Undelivered(Outbox(s, session), Table(s.delivered, session));
      if todo == [] then s
      else s.(inflight := s.inflight + {session},
              drains := s.drains[s.nextDrain := Drain(session, todo)],
              nextDrain := s.nextDrain + 1,
              tried := s.tried[todo[0] := Count(s.tried, todo[0]) + 1])
  }

  function Succeeded(s: State, session: SessionId, id: MessageId): State {
    s.(delivered := Mark(s, session, id, Delivered), attempts := s.attempts - {id}, sent := s.sent[id := Count(s.sent, id) + 1])
  }

  function Rejected(s: State, session: SessionId, id: MessageId): State {
    var attempts := Count(s.attempts, id) + 1;
    if attempts >= MAX_DELIVERY_ATTEMPTS then
      s.(delivered := Mark(s, session, id, Failed), attempts := s.attempts - {id})
    else s.(attempts := s.attempts[id := attempts])
  }

  /** The drain moves to its next message, or ends and lets go of its session. */
  function Advance(s: State, d: nat): State
    requires d in s.drains && s.drains[d].remaining != []
  {
    var Drain(session, remaining) := s.drains[d];
    if |remaining| == 1 then s.(drains := s.drains - {d}, inflight := s.inflight - {session})
    else s.(drains := s.drains[d := Drain(session, remaining[1..])],
            tried := s.tried[remaining[1] := Count(s.tried, remaining[1]) + 1])
  }

  function Settle(s: State, d: nat, ok: bool): State
    requires d in s.drains && s.drains[d].remaining != []
  {
    var Drain(session, remaining) := s.drains[d];
    Advance(if ok then Succeeded(s, session, remaining[0]) else Rejected(s, session, remaining[0]), d)
  }

  datatype Event =
    | Emit(session: SessionId, id: MessageId, place: nat)   // an outbound row becomes due, at any place in the order
    | Poll(session: SessionId, opens: bool)                 // either poll loop, or a direct call
    | Settled(drain: nat, ok: bool)                         // the awaited attempt resolves or rejects

  ghost predicate IsNew(s: State, id: MessageId) {
    forall session :: id !in Outbox(s, session)
  }

  ghost function Step(s: State, e: Event): State {
    match e
    case Emit(session, id, place) =>
      var box := Outbox(s, session);
      if IsNew(s, id) && place <= |box| then s.(outbox := s.outbox[session := box[..place] + [id] + box[place..]]) else s
    case Poll(session, opens) => Deliver(s, session, opens)
    case Settled(d, ok) => if d in s.drains && s.drains[d].remaining != [] then Settle(s, d, ok) else s
  }

  ghost function Run(s: State, es: seq<Event>): State
    decreases |es|
  {
    if es == [] then s else Run(Step(s, es[0]), es[1..])
  }

  // ---------- The invariant ----------

  ghost predicate NoDuplicates(ids: seq<MessageId>) {
    forall i, j :: 0 <= i < j < |ids| ==> ids[i] != ids[j]
  }

  ghost predicate UniqueIds(s: State) {
    && (forall a :: NoDuplicates(Outbox(s, a)))
    && (forall a, b, id :: id in Outbox(s, a) && id in Outbox(s, b) ==> a == b)
    && (forall a, id :: id in Table(s.delivered, a) ==> id in Outbox(s, a))
  }

  /** What is left of a drain is disjoint from its session's delivered table. */
  ghost predicate SoundDrain(s: State, d: nat)
    requires d in s.drains
  {
    && d < s.nextDrain
    && s.drains[d].session in s.inflight
    && s.drains[d].remaining != []
    && NoDuplicates(s.drains[d].remaining)
    && (forall id :: id in s.drains[d].remaining ==>
          id in Outbox(s, s.drains[d].session) && id !in Table(s.delivered, s.drains[d].session))
  }

  /** At most one drain per session. */
  ghost predicate DrainsApart(s: State) {
    && (forall d :: d in s.drains ==> SoundDrain(s, d))
    && (forall d, e :: d in s.drains && e in s.drains && d != e ==> s.drains[d].session != s.drains[e].session)
    && (forall a :: a in s.inflight ==> exists d :: d in s.drains && s.drains[d].session == a)
  }

  ghost predicate Attempting(s: State, id: MessageId) {
    exists d :: d in s.drains && s.drains[d].remaining != [] && s.drains[d].remaining[0] == id
  }

  /** What the counters say about a message of `session`. */
  ghost predicate Accounted(s: State, session: SessionId, id: MessageId) {
    var table := Table(s.delivered, session);
    if id in table then
      && id !in s.attempts
      && (table[id] == Delivered ==> Count(s.sent, id) == 1 && 1 <= Count(s.tried, id) <= MAX_DELIVERY_ATTEMPTS)
      && (table[id] == Failed ==> Count(s.sent, id) == 0 && Count(s.tried, id) == MAX_DELIVERY_ATTEMPTS)
    else
      && Count(s.sent, id) == 0
      && Count(s.attempts, id) < MAX_DELIVERY_ATTEMPTS
      && Count(s.tried, id) == Count(s.attempts, id) + if Attempting(s, id) then 1 else 0
  }

  ghost predicate Inv(s: State) {
    && UniqueIds(s)
    && DrainsApart(s)
    && (forall a, id :: id in Outbox(s, a) ==> Accounted(s, a, id))
    && (forall id :: IsNew(s, id) ==> id !in s.attempts && Count(s.tried, id) == Count(s.sent, id) == 0)
  }

  /** A message that is being attempted belongs to a session in flight, and is the head of that session's drain. */
  lemma AttemptedBy(s: State, session: SessionId, id: MessageId) returns (d: nat)
    requires UniqueIds(s) && DrainsApart(s) && id in Outbox(s, session) && Attempting(s, id)
    ensures d in s.drains && s.drains[d].session == session && s.drains[d].remaining[0] == id
    ensures session in s.inflight
  {
    d :| d in s.drains && s.drains[d].remaining != [] && s.drains[d].remaining[0] == id;
    assert id in Outbox(s, s.drains[d].session);
  }

  lemma OutboxAfterEmit(s: State, session: SessionId, id: MessageId, place: nat)
    requires UniqueIds(s) && IsNew(s, id) && place <= |Outbox(s, session)|
    ensures var s' := Step(s, Emit(session, id, place));
            && UniqueIds(s')
            && forall a, x :: x in Outbox(s', a) <==> x in Outbox(s, a) || (a == session && x == id)
  {
    var s' := Step(s, Emit(session, id, place));
    var box := Outbox(s, session);
    Inserted(box, id, place);
    assert Outbox(s', session) == box[..place] + [id] + box[place..];
    assert forall a :: a != session ==> Outbox(s', a) == Outbox(s, a);
    forall a, x ensures x in Outbox(s', a) <==> x in Outbox(s, a) || (a == session && x == id) {
    }
    forall a ensures NoDuplicates(Outbox(s', a)) {
    }
  }

  lemma Inserted(box: seq<MessageId>, id: MessageId, place: nat)
    requires place <= |box| && id !in box && NoDuplicates(box)
    ensures NoDuplicates(box[..place] + [id] + box[place..])
    ensures forall x :: x in box[..place] + [id] + box[place..] <==> x in box || x == id
  {
    assert box == box[..place] + box[place..];
  }

  lemma StillAccounted(s: State, s': State, session: SessionId, id: MessageId)
    requires Accounted(s, session, id)
    requires Table(s'.delivered, session) == Table(s.delivered, session)
    requires id in s'.attempts <==> id in s.attempts
    requires Count(s'.attempts, id) == Count(s.attempts, id)
    requires Count(s'.sent, id) == Count(s.sent, id) && Count(s'.tried, id) == Count(s.tried, id)
    requires Attempting(s', id) <==> Attempting(s, id)
    ensures Accounted(s', session, id)
  {
  }

  lemma NewIsAccounted(s: State, s': State, session: SessionId, id: MessageId)
    requires Inv(s) && IsNew(s, id)
    requires s' == s.(outbox := s'.outbox)
    ensures Accounted(s', session, id)
  {
    assert id !in Table(s.delivered, session);
    forall d | d in s.drains ensures s.drains[d].remaining[0] != id {
      assert s.drains[d].remaining[0] in Outbox(s, s.drains[d].session);
    }
  }

  lemma EmitKeepsInv(s: State, session: SessionId, id: MessageId, place: nat)
    requires Inv(s) && IsNew(s, id) && place <= |Outbox(s, session)|
    ensures Inv(Step(s, Emit(session, id, place)))
  {
    var s' := Step(s, Emit(session, id, place));
    OutboxAfterEmit(s, session, id, place);
    forall a, x | x in Outbox(s', a) ensures Accounted(s', a, x) {
      if x == id {
        NewIsAccounted(s, s', a, x);
      } else {
        StillAccounted(s, s', a, x);
      }
    }
    forall x | IsNew(s', x) ensures IsNew(s, x) {
    }
  }

  lemma {:induction false} UndeliveredIs(due: seq<MessageId>, done: map<MessageId, Status>)
    ensures forall m :: m in Undelivered(due, done) <==> m in due && m !in done
    ensures NoDuplicates(due) ==> NoDuplicates(Undelivered(due, done))
  {
    if due != [] {
      UndeliveredIs(due[1..], done);
      assert due == [due[0]] + due[1..];
    }
  }

  lemma DeliverKeepsSound(s: State, session: SessionId, opens: bool, d: nat)
    requires UniqueIds(s) && DrainsApart(s) && d in Deliver(s, session, opens).drains
    ensures SoundDrain(Deliver(s, session, opens), d)
  {
    hide Undelivered, NoDuplicates;
    UndeliveredIs(Outbox(s, session), Table(s.delivered, session));
    if d in s.drains {
      assert SoundDrain(s, d);
    }
  }

  lemma DeliverKeepsDrainsApart(s: State, session: SessionId, opens: bool)
    requires UniqueIds(s) && DrainsApart(s)
    ensures DrainsApart(Deliver(s, session, opens))
  {
    var s' := Deliver(s, session, opens);
    forall d | d in s'.drains ensures SoundDrain(s', d) {
      DeliverKeepsSound(s, session, opens, d);
    }
    hide Undelivered, SoundDrain;
    if s' != s {
      assert s'.drains[s.nextDrain].session == session;
      forall a | a in s'.inflight ensures exists d :: d in s'.drains && s'.drains[d].session == a {
        if a != session {
          var d :| d in s.drains && s.drains[d].session == a;
          assert d in s'.drains && s'.drains[d].session == a;
        }
      }
      forall d | d in s.drains ensures s.drains[d].session in s.inflight && d != s.nextDrain {
        SoundIsInflight(s, d);
      }
    }
  }

  lemma SoundIsInflight(s: State, d: nat)
    requires d in s.drains && SoundDrain(s, d)
    ensures s.drains[d].session in s.inflight && d < s.nextDrain
  {
  }

  lemma DeliverKeepsAccounts(s: State, session: SessionId, opens: bool, a: SessionId, id: MessageId)
    requires Inv(s) && id in Outbox(s, a)
    ensures Accounted(Deliver(s, session, opens), a, id)
  {
    hide Undelivered, NoDuplicates;
    var s' := Deliver(s, session, opens);
    UndeliveredIs(Outbox(s, session), Table(s.delivered, session));
    var todo := Undelivered(Outbox(s, session), Table(s.delivered, session));
    if s' != s {
      if id == todo[0] {
        assert a == session;
        if Attempting(s, id) { var d := AttemptedBy(s, session, id); }
        assert s'.drains[s.nextDrain].remaining[0] == id;
      } else {
        OtherAttempts(s, s', id);
        StillAccounted(s, s', a, id);
      }
    }
  }

  lemma DeliverKeepsInv(s: State, session: SessionId, opens: bool)
    requires Inv(s)
    ensures Inv(Deliver(s, session, opens))
  {
    var s' := Deliver(s, session, opens);
    DeliverKeepsDrainsApart(s, session, opens);
    assert forall a :: Outbox(s', a) == Outbox(s, a);
    forall a, x | x in Outbox(s', a) ensures Accounted(s', a, x) {
      DeliverKeepsAccounts(s, session, opens, a, x);
    }
    forall x | IsNew(s', x) ensures x !in s'.attempts && Count(s'.tried, x) == Count(s'.sent, x) == 0 {
      assert IsNew(s, x);
    }
  }

  /** A drain starting on another message does not change whether `x` is being attempted. */
  lemma OtherAttempts(s: State, s': State, x: MessageId)
    requires forall d :: d in s.drains ==> d in s'.drains && s'.drains[d] == s.drains[d]
    requires forall d :: d in s'.drains && d !in s.drains ==> s'.drains[d].remaining != [] && s'.drains[d].remaining[0] != x
    ensures Attempting(s', x) <==> Attempting(s, x)
  {
    if Attempting(s, x) {
      var d :| d in s.drains && s.drains[d].remaining != [] && s.drains[d].remaining[0] == x;
      assert d in s'.drains && s'.drains[d].remaining != [] && s'.drains[d].remaining[0] == x;
    }
  }

  /** What a settled attempt leaves alone, and where its drain moves. */
  ghost predicate SettleFrame(s: State, s': State, d: nat) {
    && d in s.drains && s.drains[d].remaining != []
    && var Drain(session, remaining) := s.drains[d];
    && s'.outbox == s.outbox && s'.nextDrain == s.nextDrain
    && (if |remaining| == 1 then s'.drains == s.drains - {d} && s'.inflight == s.inflight - {session}
        else s'.drains == s.drains[d := Drain(session, remaining[1..])] && s'.inflight == s.inflight)
    && (forall a :: a != session ==> Table(s'.delivered, a) == Table(s.delivered, a))
    && Table(s'.delivered, session) - {remaining[0]} == Table(s.delivered, session) - {remaining[0]}
    && (forall id :: id != remaining[0] ==>
          && (id in s'.attempts <==> id in s.attempts)
          && Count(s'.attempts, id) == Count(s.attempts, id)
          && Count(s'.sent, id) == Count(s.sent, id))
    && (forall id :: Count(s'.tried, id) ==
          Count(s.tried, id) + if |remaining| > 1 && id == remaining[1] then 1 else 0)
  }

  lemma MarkFrame(s: State, session: SessionId, id: MessageId, status: Status)
    ensures forall a :: a != session ==> Table(Mark(s, session, id, status), a) == Table(s.delivered, a)
    ensures Table(Mark(s, session, id, status), session) - {id} == Table(s.delivered, session) - {id}
  {
  }

  /** Recording the outcome of `id` touches only the row and the counters of `id`. */
  ghost predicate RecordFrame(s: State, s1: State, session: SessionId, id: MessageId) {
    && s1.outbox == s.outbox && s1.nextDrain == s.nextDrain && s1.drains == s.drains && s1.inflight == s.inflight
    && s1.tried == s.tried
    && (forall a :: a != session ==> Table(s1.delivered, a) == Table(s.delivered, a))
    && Table(s1.delivered, session) - {id} == Table(s.delivered, session) - {id}
    && (forall x :: x != id ==>
          && (x in s1.attempts <==> x in s.attempts)
          && Count(s1.attempts, x) == Count(s.attempts, x)
          && Count(s1.sent, x) == Count(s.sent, x))
  }

  lemma SucceededHasFrame(s: State, session: SessionId, id: MessageId)
    ensures RecordFrame(s, Succeeded(s, session, id), session, id)
  {
    MarkFrame(s, session, id, Delivered);
  }

  lemma RejectedHasFrame(s: State, session: SessionId, id: MessageId)
    ensures RecordFrame(s, Rejected(s, session, id), session, id)
  {
    MarkFrame(s, session, id, Failed);
  }

  lemma SettleHasFrame(s: State, d: nat, ok: bool)
    requires d in s.drains && s.drains[d].remaining != []
    ensures SettleFrame(s, Settle(s, d, ok), d)
  {
    var Drain(session, remaining) := s.drains[d];
    SucceededHasFrame(s, session, remaining[0]);
    RejectedHasFrame(s, session, remaining[0]);
    AdvanceHasFrame(s, if ok then Succeeded(s, session, remaining[0]) else Rejected(s, session, remaining[0]), d);
  }

  lemma AdvanceMoves(s: State, d: nat)
    requires d in s.drains && s.drains[d].remaining != []
    ensures
      var Drain(session, remaining) := s.drains[d];
      var s' := Advance(s, d);
      && s' == s.(drains := s'.drains, inflight := s'.inflight, tried := s'.tried)
      && (if |remaining| == 1 then s'.drains == s.drains - {d} && s'.inflight == s.inflight - {session}
          else s'.drains == s.drains[d := Drain(session, remaining[1..])] && s'.inflight == s.inflight)
      && forall id :: Count(s'.tried, id) == Count(s.tried, id) + if |remaining| > 1 && id == remaining[1] then 1 else 0
  {
  }

  lemma AdvanceHasFrame(s: State, s1: State, d: nat)
    requires d in s.drains && s.drains[d].remaining != []
    requires RecordFrame(s, s1, s.drains[d].session, s.drains[d].remaining[0])
    ensures SettleFrame(s, Advance(s1, d), d)
  {
    hide Advance, Count, Table;
    AdvanceMoves(s1, d);
  }

  lemma UniqueIdsAfter(s: State, s': State, d: nat)
    requires Inv(s) && SettleFrame(s, s', d)
    ensures UniqueIds(s')
  {
    var Drain(session, remaining) := s.drains[d];
    assert forall a :: Outbox(s', a) == Outbox(s, a);
    assert remaining[0] in Outbox(s, session);
    forall a, id | id in Table(s'.delivered, a) ensures id in Outbox(s', a) {
      if a == session && id != remaining[0] {
        assert id in Table(s'.delivered, session) - {remaining[0]};
      }
    }
  }

  lemma DrainAfter(s: State, s': State, d: nat, e: nat)
    requires Inv(s) && SettleFrame(s, s', d) && e in s'.drains
    ensures e in s.drains && s'.drains[e].session == s.drains[e].session && s'.drains[e].remaining != []
    ensures s'.drains[e].session in s'.inflight && NoDuplicates(s'.drains[e].remaining)
    ensures forall id :: id in s'.drains[e].remaining ==>
              id in Outbox(s', s'.drains[e].session) && id !in Table(s'.delivered, s'.drains[e].session)
  {
    var Drain(session, remaining) := s.drains[d];
    assert forall a :: Outbox(s', a) == Outbox(s, a);
    forall id | id in s'.drains[e].remaining
      ensures id in Outbox(s', s'.drains[e].session) && id !in Table(s'.delivered, s'.drains[e].session)
    {
      assert id in s.drains[e].remaining;
      if e == d {
        assert id != remaining[0];
        assert id !in Table(s.delivered, session) - {remaining[0]};
      }
    }
  }

  lemma SettleKeepsDrainsApart(s: State, s': State, d: nat)
    requires Inv(s) && SettleFrame(s, s', d)
    ensures DrainsApart(s')
  {
    hide Accounted, UniqueIds;
    forall e | e in s'.drains
      ensures e in s.drains && s'.drains[e].session == s.drains[e].session && SoundDrain(s', e)
    {
      DrainAfter(s, s', d, e);
      assert SoundDrain(s, e);
    }
    hide SoundDrain;
    forall a | a in s'.inflight ensures exists e :: e in s'.drains && s'.drains[e].session == a {
      var e :| e in s.drains && s.drains[e].session == a;
      assert e in s'.drains && s'.drains[e].session == a;
    }
  }

  lemma NobodyElseTries(s: State, d: nat, e: nat)
    requires Inv(s) && d in s.drains && e in s.drains && e != d
    ensures s.drains[e].remaining[0] != s.drains[d].remaining[0]
  {
    hide Accounted;
    assert s.drains[d].remaining[0] in Outbox(s, s.drains[d].session);
    assert s.drains[e].remaining[0] in Outbox(s, s.drains[e].session);
  }

  /** After the step, `id` is being attempted if and only if it is next in this drain or is the head of another. */
  lemma SettleAttempts(s: State, s': State, d: nat, id: MessageId)
    requires Inv(s) && SettleFrame(s, s', d)
    ensures
      var remaining := s.drains[d].remaining;
      Attempting(s', id) <==> (|remaining| > 1 && id == remaining[1]) || (id != remaining[0] && Attempting(s, id))
  {
    hide Accounted, UniqueIds;
    var remaining := s.drains[d].remaining;
    assert NoDuplicates(remaining);
    if |remaining| > 1 && id == remaining[1] {
      assert s'.drains[d].remaining[0] == id;
    } else if id != remaining[0] && Attempting(s, id) {
      var e :| e in s.drains && s.drains[e].remaining != [] && s.drains[e].remaining[0] == id;
      assert e in s'.drains && s'.drains[e] == s.drains[e];
    } else if id == remaining[0] {
      forall e | e in s'.drains && s'.drains[e].remaining != [] ensures s'.drains[e].remaining[0] != id {
        if e != d {
          NobodyElseTries(s, d, e);
        }
      }
    }
  }

  lemma TriedMessageAccounted(s: State, d: nat, ok: bool)
    requires Inv(s) && d in s.drains
    ensures Accounted(Settle(s, d, ok), s.drains[d].session, s.drains[d].remaining[0])
  {
    var Drain(session, remaining) := s.drains[d];
    var id := remaining[0];
    var s' := Settle(s, d, ok);
    assert id in Outbox(s, session) && id !in Table(s.delivered, session);
    assert Accounted(s, session, id) && Attempting(s, id);
    SettleHasFrame(s, d, ok);
    SettleAttempts(s, s', d, id);
  }

  lemma OtherMessageAccounted(s: State, s': State, d: nat, a: SessionId, id: MessageId)
    requires Inv(s) && SettleFrame(s, s', d)
    requires id in Outbox(s, a) && id != s.drains[d].remaining[0]
    ensures Accounted(s', a, id)
  {
    var Drain(session, remaining) := s.drains[d];
    SettleAttempts(s, s', d, id);
    var table := Table(s.delivered, session) - {remaining[0]};
    assert id in table <==> id in Table(s.delivered, session);
    if |remaining| > 1 && id == remaining[1] {
      assert id in Outbox(s, session) && id !in Table(s.delivered, session);
      if Attempting(s, id) {
        var e := AttemptedBy(s, session, id);
        assert false;
      }
    }
    assert Accounted(s, a, id);
  }

  lemma SettleKeepsInv(s: State, d: nat, ok: bool)
    requires Inv(s) && d in s.drains
    ensures Inv(Settle(s, d, ok))
  {
    hide Settle, Accounted, NoDuplicates;
    var s' := Settle(s, d, ok);
    var Drain(session, remaining) := s.drains[d];
    SettleHasFrame(s, d, ok);
    UniqueIdsAfter(s, s', d);
    SettleKeepsDrainsApart(s, s', d);
    assert remaining[0] in Outbox(s, session);
    forall a, id | id in Outbox(s', a) ensures Accounted(s', a, id) {
      assert id in Outbox(s, a);
      if id == remaining[0] {
        TriedMessageAccounted(s, d, ok);
      } else {
        OtherMessageAccounted(s, s', d, a, id);
      }
    }
    forall id | IsNew(s', id) ensures id !in s'.attempts && Count(s'.tried, id) == Count(s'.sent, id) == 0 {
      NewStaysUncounted(s, s', d, id);
    }
  }

  lemma NewStaysUncounted(s: State, s': State, d: nat, id: MessageId)
    requires Inv(s) && SettleFrame(s, s', d) && IsNew(s', id)
    ensures id !in s'.attempts && Count(s'.tried, id) == Count(s'.sent, id) == 0
  {
    assert forall a :: Outbox(s', a) == Outbox(s, a);
    assert IsNew(s, id);
    assert forall x :: x in s.drains[d].remaining ==> x in Outbox(s, s.drains[d].session);
  }

  lemma StepKeepsInv(s: State, e: Event)
    requires Inv(s)
    ensures Inv(Step(s, e))
  {
    match e
    case Emit(session, id, place) =>
      if IsNew(s, id) && place <= |Outbox(s, session)| { EmitKeepsInv(s, session, id, place); }
    case Poll(session, opens) => DeliverKeepsInv(s, session, opens);
    case Settled(d, ok) => if d in s.drains { SettleKeepsInv(s, d, ok); }
  }

  lemma {:induction false} RunKeepsInv(s: State, es: seq<Event>)
    requires Inv(s)
    ensures Inv(Run(s, es))
    decreases |es|
  {
    if es != [] {
      StepKeepsInv(s, es[0]);
      RunKeepsInv(Step(s, es[0]), es[1..]);
    }
  }

  // ---------- Main results ----------

  /**
   In every interleaving, a message is tried at most three times and at most one try succeeds; it is
   recorded delivered exactly when one did, and recorded failed only after three tries that all failed.
   */
  lemma AtMostThreeAttempts(es: seq<Event>, session: SessionId, id: MessageId)
    ensures
      var s := Run(Init(), es);
      var table := Table(s.delivered, session);
      && Count(s.tried, id) <= 3
      && Count(s.sent, id) <= 1
      && (id in Outbox(s, session) ==>
            && (Count(s.sent, id) == 1 <==> id in table && table[id] == Delivered)
            && (id in table && table[id] == Failed ==> Count(s.tried, id) == 3)
            && (id !in table && Count(s.tried, id) == 3 ==> Attempting(s, id)))
  {
    var s := Run(Init(), es);
    RunKeepsInv(Init(), es);
    if !IsNew(s, id) {
      var owner :| id in Outbox(s, owner);
      assert Accounted(s, owner, id);
    }
  }

  ghost predicate Unmoved(s: State, s': State, session: SessionId, id: MessageId) {
    && id in Table(s.delivered, session)
    && id in Table(s'.delivered, session) && Table(s'.delivered, session)[id] == Table(s.delivered, session)[id]
    && Count(s'.tried, id) == Count(s.tried, id)
    && Count(s'.sent, id) == Count(s.sent, id)
  }

  lemma SettleLeavesSettled(s: State, d: nat, ok: bool, session: SessionId, id: MessageId)
    requires Inv(s) && d in s.drains && id in Table(s.delivered, session)
    ensures Unmoved(s, Settle(s, d, ok), session, id)
  {
    hide Settle, Accounted;
    var Drain(other, remaining) := s.drains[d];
    SettleHasFrame(s, d, ok);
    assert id in Outbox(s, session);
    forall x | x in remaining ensures x != id {
      assert x in Outbox(s, other) && x !in Table(s.delivered, other);
    }
    var kept := Table(s.delivered, other) - {remaining[0]};
    assert session == other ==> id in kept && kept[id] == Table(s.delivered, other)[id];
  }

  lemma DeliverLeavesSettled(s: State, caller: SessionId, opens: bool, session: SessionId, id: MessageId)
    requires Inv(s) && id in Table(s.delivered, session)
    ensures Unmoved(s, Deliver(s, caller, opens), session, id)
  {
    hide Accounted, DrainsApart, Undelivered, NoDuplicates;
    UndeliveredIs(Outbox(s, caller), Table(s.delivered, caller));
    assert id in Outbox(s, session);
  }

  lemma SettledStaysSettled(s: State, e: Event, session: SessionId, id: MessageId)
    requires Inv(s) && id in Table(s.delivered, session)
    ensures
      var s' := Step(s, e);
      && id in Table(s'.delivered, session) && Table(s'.delivered, session)[id] == Table(s.delivered, session)[id]
      && Count(s'.tried, id) == Count(s.tried, id)
      && Count(s'.sent, id) == Count(s.sent, id)
  {
    hide Settle, Deliver;
    assert DrainsApart(s);
    match e
    case Emit(_, _, _) =>
    case Poll(caller, opens) => DeliverLeavesSettled(s, caller, opens, session, id);
    case Settled(d, ok) => if d in s.drains { SettleLeavesSettled(s, d, ok, session, id); }
  }

  /** Once a message is recorded, as delivered or as failed, nothing ever attempts it again and the record stands. */
  lemma {:induction false} NeverAgain(before: seq<Event>, after: seq<Event>, session: SessionId, id: MessageId)
    requires id in Table(Run(Init(), before).delivered, session)
    ensures
      var s, s' := Run(Init(), before), Run(Run(Init(), before), after);
      && id in Table(s'.delivered, session) && Table(s'.delivered, session)[id] == Table(s.delivered, session)[id]
      && Count(s'.tried, id) == Count(s.tried, id)
      && Count(s'.sent, id) == Count(s.sent, id)
  {
    RunKeepsInv(Init(), before);
    NeverAgainFrom(Run(Init(), before), after, session, id);
  }

  lemma {:induction false} NeverAgainFrom(s: State, es: seq<Event>, session: SessionId, id: MessageId)
    requires Inv(s) && id in Table(s.delivered, session)
    ensures
      var s' := Run(s, es);
      && id in Table(s'.delivered, session) && Table(s'.delivered, session)[id] == Table(s.delivered, session)[id]
      && Count(s'.tried, id) == Count(s.tried, id)
      && Count(s'.sent, id) == Count(s.sent, id)
    decreases |es|
  {
    if es != [] {
      StepKeepsInv(s, es[0]);
      SettledStaysSettled(s, es[0], session, id);
      NeverAgainFrom(Step(s, es[0]), es[1..], session, id);
    }
  }

  // ---------- Order ----------

  /** `x` stands before `y`. */
  ghost predicate Before(ids: seq<MessageId>, x: MessageId, y: MessageId) {
    exists i, j :: 0 <= i < j < |ids| && ids[i] == x && ids[j] == y
  }

  /** Whatever stands before something in `part` stands before it in `whole`. */
  ghost predicate FollowsOrder(part: seq<MessageId>, whole: seq<MessageId>) {
    forall p, q :: 0 <= p < q < |part| ==> Before(whole, part[p], part[q])
  }

  lemma BeforeBehind(x: MessageId, ids: seq<MessageId>)
    ensures forall a, b :: Before(ids, a, b) ==> Before([x] + ids, a, b)
    ensures forall b :: b in ids ==> Before([x] + ids, x, b)
  {
    var all := [x] + ids;
    forall a, b | Before(ids, a, b) ensures Before(all, a, b) {
      var i, j :| 0 <= i < j < |ids| && ids[i] == a && ids[j] == b;
      assert all[i + 1] == a && all[j + 1] == b;
    }
    forall b | b in ids ensures Before(all, x, b) {
      var j :| 0 <= j < |ids| && ids[j] == b;
      assert all[0] == x && all[j + 1] == b;
    }
  }

  lemma {:induction false} UndeliveredFollows(due: seq<MessageId>, done: map<MessageId, Status>)
    ensures FollowsOrder(Undelivered(due, done), due)
  {
    if due != [] {
      var rest := Undelivered(due[1..], done);
      UndeliveredFollows(due[1..], done);
      UndeliveredIs(due[1..], done);
      BeforeBehind(due[0], due[1..]);
      assert due == [due[0]] + due[1..];
      var all := Undelivered(due, done);
      forall p, q | 0 <= p < q < |all| ensures Before(due, all[p], all[q]) {
        if due[0] in done {
          assert Before(due[1..], rest[p], rest[q]);
        } else if p > 0 {
          assert Before(due[1..], rest[p - 1], rest[q - 1]);
        } else {
          assert all[q] == rest[q - 1] && rest[q - 1] in rest;
        }
      }
    }
  }

  /** Two due messages without a delivered row are taken in the order in which they are due. */
  lemma TakenInOrder(due: seq<MessageId>, done: map<MessageId, Status>, i: nat, j: nat)
    requires NoDuplicates(due) && i < j < |due| && due[i] !in done && due[j] !in done
    ensures Before(Undelivered(due, done), due[i], due[j])
  {
    var all := Undelivered(due, done);
    UndeliveredIs(due, done);
    UndeliveredFollows(due, done);
    var p :| 0 <= p < |all| && all[p] == due[i];
    var q :| 0 <= q < |all| && all[q] == due[j];
    forall x, y | 0 <= x < y < |due| ensures !(due[x] == due[j] && due[y] == due[i]) {
    }
    assert !Before(due, all[q], all[p]);
  }

  ghost predicate DrainsInOrder(s: State) {
    forall d :: d in s.drains ==> FollowsOrder(s.drains[d].remaining, Outbox(s, s.drains[d].session))
  }

  lemma InsertKeepsOrder(part: seq<MessageId>, box: seq<MessageId>, id: MessageId, place: nat)
    requires FollowsOrder(part, box) && place <= |box|
    ensures FollowsOrder(part, box[..place] + [id] + box[place..])
  {
    var box' := box[..place] + [id] + box[place..];
    assert forall i :: 0 <= i < |box| ==> box'[if i < place then i else i + 1] == box[i];
    forall p, q | 0 <= p < q < |part| ensures Before(box', part[p], part[q]) {
      assert Before(box, part[p], part[q]);
      var i, j :| 0 <= i < j < |box| && box[i] == part[p] && box[j] == part[q];
      var i', j' := if i < place then i else i + 1, if j < place then j else j + 1;
      assert i' < j' && box'[i'] == part[p] && box'[j'] == part[q];
    }
  }

  lemma SuffixKeepsOrder(part: seq<MessageId>, box: seq<MessageId>)
    requires FollowsOrder(part, box) && part != []
    ensures FollowsOrder(part[1..], box)
  {
    var rest := part[1..];
    forall p, q | 0 <= p < q < |rest| ensures Before(box, rest[p], rest[q]) {
      assert Before(box, part[p + 1], part[q + 1]);
    }
  }

  lemma EmitKeepsOrder(s: State, session: SessionId, id: MessageId, place: nat)
    requires DrainsInOrder(s)
    ensures DrainsInOrder(Step(s, Emit(session, id, place)))
  {
    hide FollowsOrder, IsNew;
    var s' := Step(s, Emit(session, id, place));
    forall d | d in s'.drains ensures FollowsOrder(s'.drains[d].remaining, Outbox(s', s'.drains[d].session)) {
      if s.drains[d].session == session && place <= |Outbox(s, session)| {
        InsertKeepsOrder(s.drains[d].remaining, Outbox(s, session), id, place);
      }
    }
  }

  lemma PollKeepsOrder(s: State, session: SessionId, opens: bool)
    requires DrainsInOrder(s)
    ensures DrainsInOrder(Deliver(s, session, opens))
  {
    hide FollowsOrder, Undelivered;
    UndeliveredFollows(Outbox(s, session), Table(s.delivered, session));
    assert forall a :: Outbox(Deliver(s, session, opens), a) == Outbox(s, a);
  }

  lemma SettleKeepsOrder(s: State, d: nat, ok: bool)
    requires DrainsInOrder(s) && d in s.drains && s.drains[d].remaining != []
    ensures DrainsInOrder(Step(s, Settled(d, ok)))
  {
    hide FollowsOrder, Step;
    SettleMoves(s, d, ok);
    assert forall a :: Outbox(Step(s, Settled(d, ok)), a) == Outbox(s, a);
    SuffixKeepsOrder(s.drains[d].remaining, Outbox(s, s.drains[d].session));
  }

  lemma StepKeepsOrder(s: State, e: Event)
    requires DrainsInOrder(s)
    ensures DrainsInOrder(Step(s, e))
  {
    hide DrainsInOrder, Deliver, Settle;
    match e
    case Emit(session, id, place) => EmitKeepsOrder(s, session, id, place);
    case Poll(session, opens) => PollKeepsOrder(s, session, opens);
    case Settled(d, ok) => if d in s.drains && s.drains[d].remaining != [] { SettleKeepsOrder(s, d, ok); }
  }

  lemma {:induction false} RunKeepsOrder(s: State, es: seq<Event>)
    requires DrainsInOrder(s)
    ensures DrainsInOrder(Run(s, es))
    decreases |es|
  {
    hide DrainsInOrder;
    if es != [] {
      StepKeepsOrder(s, es[0]);
      RunKeepsOrder(Step(s, es[0]), es[1..]);
    }
  }

  /** Main result: in every reachable state, what is left of each drain is in the order of its session's outbox. */
  lemma DeliveredInOrder(es: seq<Event>, d: nat, p: nat, q: nat)
    requires
      var s := Run(Init(), es);
      d in s.drains && p < q < |s.drains[d].remaining|
    ensures
      var s := Run(Init(), es);
      Before(Outbox(s, s.drains[d].session), s.drains[d].remaining[p], s.drains[d].remaining[q])
  {
    RunKeepsOrder(Init(), es);
  }

  // ---------- Progress ----------

  lemma NextIsFree(s: State)
    requires DrainsApart(s)
    ensures s.nextDrain !in s.drains
  {
  }

  /**
   A poll of an idle session whose files open takes exactly the due messages without a row, and attempts
   the first; any other poll changes nothing.
   */
  lemma PollTakesAll(s: State, session: SessionId, opens: bool)
    requires Inv(s)
    ensures
      var s' := Step(s, Poll(session, opens));
      if session in s.inflight || !opens || forall id :: id in Outbox(s, session) ==> id in Table(s.delivered, session) then s' == s
      else
        && s.nextDrain !in s.drains && s'.drains.Keys == s.drains.Keys + {s.nextDrain}
        && s'.drains[s.nextDrain].session == session && s'.inflight == s.inflight + {session}
        && (forall id :: id in s'.drains[s.nextDrain].remaining <==> id in Outbox(s, session) && id !in Table(s.delivered, session))
        && NoDuplicates(s'.drains[s.nextDrain].remaining)
        && Attempting(s', s'.drains[s.nextDrain].remaining[0])
        && s'.outbox == s.outbox && s'.delivered == s.delivered && s'.attempts == s.attempts
        && forall d :: d in s.drains ==> s'.drains[d] == s.drains[d]
  {
    hide Undelivered, Accounted;
    UndeliveredIs(Outbox(s, session), Table(s.delivered, session));
    var todo := Undelivered(Outbox(s, session), Table(s.delivered, session));
    NextIsFree(s);
    if todo == [] {
      forall id | id in Outbox(s, session) ensures id in Table(s.delivered, session) {
        assert id !in todo;
      }
    } else {
      assert todo[0] in todo;
      if session !in s.inflight && opens {
        assert Step(s, Poll(session, opens)).drains[s.nextDrain].remaining == todo;
      }
    }
  }

  /** Where a settled attempt leaves its drain and its session. */
  lemma SettleMoves(s: State, d: nat, ok: bool)
    requires d in s.drains && s.drains[d].remaining != []
    ensures
      var Drain(session, remaining) := s.drains[d];
      var s' := Step(s, Settled(d, ok));
      && s'.outbox == s.outbox
      && (if |remaining| == 1 then s'.drains == s.drains - {d} && s'.inflight == s.inflight - {session}
          else s'.drains == s.drains[d := Drain(session, remaining[1..])] && s'.inflight == s.inflight)
  {
    SettleHasFrame(s, d, ok);
  }

  /** What it books: a success; a failure, counted; or, the third time, a permanent failure. */
  lemma SettleBooks(s: State, d: nat, ok: bool)
    requires Inv(s) && d in s.drains
    ensures
      var Drain(session, remaining) := s.drains[d];
      var s', id := Step(s, Settled(d, ok)), remaining[0];
      var table := Table(s'.delivered, session);
      if ok then id in table && table[id] == Delivered && id !in s'.attempts
      else if Count(s.attempts, id) == 2 then id in table && table[id] == Failed && id !in s'.attempts
      else id !in table && Count(s'.attempts, id) == Count(s.attempts, id) + 1
  {
    hide Accounted;
    assert SoundDrain(s, d);
    var Drain(session, remaining) := s.drains[d];
    var id := remaining[0];
    assert id in remaining;
    assert id in Outbox(s, session) && id !in Table(s.delivered, session);
    AttemptsBelowThree(s, session, id);
  }

  lemma AttemptsBelowThree(s: State, session: SessionId, id: MessageId)
    requires Inv(s) && id in Outbox(s, session) && id !in Table(s.delivered, session)
    ensures Count(s.attempts, id) <= 2
  {
    assert Accounted(s, session, id);
  }

  /** The attempts of drain `d`, one after the other, with these results. */
  function SettleEach(d: nat, oks: seq<bool>): seq<Event> {
    seq(|oks|, i requires 0 <= i < |oks| => Settled(d, oks[i]))
  }

  lemma {:induction false} RunsThrough(s: State, d: nat, oks: seq<bool>)
    requires Inv(s) && d in s.drains && |oks| == |s.drains[d].remaining|
    ensures
      var Drain(session, remaining) := s.drains[d];
      var s' := Run(s, SettleEach(d, oks));
      && Inv(s') && s'.outbox == s.outbox
      && d !in s'.drains && session !in s'.inflight
      && (forall i :: 0 <= i < |oks| && oks[i] ==>
            remaining[i] in Table(s'.delivered, session) && Table(s'.delivered, session)[remaining[i]] == Delivered)
      && (forall id :: id in Table(s.delivered, session) ==> id in Table(s'.delivered, session))
    decreases |oks|
  {
    hide Accounted, UniqueIds, Settle, Deliver;
    var Drain(session, remaining) := s.drains[d];
    assert SoundDrain(s, d);
    var es := SettleEach(d, oks);
    var s1 := Step(s, es[0]);
    assert es[0] == Settled(d, oks[0]) && es[1..] == SettleEach(d, oks[1..]);
    StepKeepsInv(s, es[0]);
    SettleMoves(s, d, oks[0]);
    SettleBooks(s, d, oks[0]);
    forall id | id in Table(s.delivered, session) ensures id in Table(s1.delivered, session) {
      SettledStaysSettled(s, es[0], session, id);
    }
    if |oks| == 1 {
      assert es[1..] == [] && Run(s, es) == s1;
    } else {
      RunsThrough(s1, d, oks[1..]);
      KeepsRow(s1, SettleEach(d, oks[1..]), session, remaining[0]);
      assert Run(s, es) == Run(s1, SettleEach(d, oks[1..]));
      forall i | 0 <= i < |oks| && oks[i]
        ensures remaining[i] in Table(Run(s, es).delivered, session) &&
                Table(Run(s, es).delivered, session)[remaining[i]] == Delivered
      {
        if i > 0 { assert oks[1..][i - 1] && remaining[1..][i - 1] == remaining[i]; }
      }
    }
  }

  lemma KeepsRow(s: State, es: seq<Event>, session: SessionId, id: MessageId)
    requires Inv(s)
    ensures id in Table(s.delivered, session) ==>
              id in Table(Run(s, es).delivered, session) &&
              Table(Run(s, es).delivered, session)[id] == Table(s.delivered, session)[id]
  {
    if id in Table(s.delivered, session) { NeverAgainFrom(s, es, session, id); }
  }

  /**
   Main result: a poll of an idle session, all of whose attempts then succeed, leaves every due message
   recorded, with the session idle again.
   */
  lemma DrainDeliversAll(s: State, session: SessionId, oks: seq<bool>)
    requires Inv(s) && session !in s.inflight && exists id :: id in Outbox(s, session) && id !in Table(s.delivered, session)
    requires
      var s1 := Step(s, Poll(session, true));
      s.nextDrain in s1.drains ==> |oks| == |s1.drains[s.nextDrain].remaining|
    requires forall i :: 0 <= i < |oks| ==> oks[i]
    ensures
      var s' := Run(Step(s, Poll(session, true)), SettleEach(s.nextDrain, oks));
      && session !in s'.inflight
      && forall id :: id in Outbox(s, session) ==> id in Table(s'.delivered, session)
  {
    hide Accounted, UniqueIds, Deliver, Settle, DrainsApart;
    PollTakesAll(s, session, true);
    StepKeepsInv(s, Poll(session, true));
    var s1 := Step(s, Poll(session, true));
    RunsThrough(s1, s.nextDrain, oks);
    forall id | id in Outbox(s, session) ensures id in Table(Run(s1, SettleEach(s.nextDrain, oks)).delivered, session) {
      if id !in Table(s.delivered, session) {
        assert id in s1.drains[s.nextDrain].remaining;
      }
    }
  }

  /** The filter keeps exactly the messages without a row, in order. */
  method SelectUndelivered(due: seq<MessageId>, done: map<MessageId, Status>) returns (undelivered: seq<MessageId>)
    ensures undelivered == Undelivered(due, done)
    ensures forall id :: id in undelivered <==> id in due && id !in done
    ensures forall p, q :: 0 <= p < q < |undelivered| ==> Before(due, undelivered[p], undelivered[q])
  {
    hide NoDuplicates, Before;
    undelivered := [];
    for i := 0 to |due|
      invariant Undelivered(due, done) == undelivered + Undelivered(due[i..], done)
    {
      assert due[i..][0] == due[i] && due[i..][1..] == due[i + 1..];
      if due[i] !in done {
        undelivered := undelivered + [due[i]];
      }
    }
    assert due[|due|..] == [];
    UndeliveredIs(due, done);
    UndeliveredFollows(due, done);
  }

  /** The module-level maps of the host, the session tables, and the drains that are suspended on an attempt. */
  class OutboundDelivery {
    var outbox: map<SessionId, seq<MessageId>>
    var delivered: map<SessionId, map<MessageId, Status>>
    var deliveryAttempts: map<MessageId, nat>
    var inflightDeliveries: set<SessionId>
    var drains: map<nat, Drain>
    var nextDrain: nat
    ghost var tried: map<MessageId, nat>
    ghost var sent: map<MessageId, nat>

    ghost function View(): State
      reads this
    {
      State(outbox, delivered, deliveryAttempts, inflightDeliveries, drains, nextDrain, tried, sent)
    }

    method DeliverSessionMessages(session: SessionId, opens: bool)
      modifies this
      ensures View() == Deliver(old(View()), session, opens)
    {
      if session in inflightDeliveries || !opens {
        return;
      }
      var undelivered := SelectUndelivered(Outbox'(session), Table(delivered, session));
      if undelivered == [] {
        return;
      }
      inflightDeliveries := inflightDeliveries + {session};
      drains := drains[nextDrain := Drain(session, undelivered)];
      nextDrain := nextDrain + 1;
      tried := tried[undelivered[0] := Count(tried, undelivered[0]) + 1];
    }

    function Outbox'(session: SessionId): seq<MessageId>
      reads this
    {
      if session in outbox then outbox[session] else []
    }

    method Book(session: SessionId, id: MessageId, ok: bool)
      modifies this
      ensures View() == if ok then Succeeded(old(View()), session, id) else Rejected(old(View()), session, id)
      ensures forall x :: x in Table(old(delivered), session) ==>
                x in Table(delivered, session) && Table(delivered, session)[x] == Table(old(delivered), session)[x]
    {
      var table := Table(delivered, session);
      if ok {
        delivered := delivered[session := if id in table then table else table[id := Delivered]];
        deliveryAttempts := deliveryAttempts - {id};
        sent := sent[id := Count(sent, id) + 1];
      } else {
        var attempts := (if id in deliveryAttempts then deliveryAttempts[id] else 0) + 1;
        if attempts >= 3 {
          delivered := delivered[session := if id in table then table else table[id := Failed]];
          deliveryAttempts := deliveryAttempts - {id};
        } else {
          deliveryAttempts := deliveryAttempts[id := attempts];
        }
      }
    }

    /** The awaited attempt of drain `d` has resolved (`ok`) or rejected: book it and go on to the next message. */
    method AttemptSettled(d: nat, ok: bool)
      requires d in drains && drains[d].remaining != []
      modifies this
      ensures View() == Settle(old(View()), d, ok)
    {
      var Drain(session, remaining) := drains[d];
      Book(session, remaining[0], ok);
      NextMessage(d);
    }

    method NextMessage(d: nat)
      requires d in drains && drains[d].remaining != []
      modifies this
      ensures View() == Advance(old(View()), d)
    {
      var Drain(session, remaining) := drains[d];
      if |remaining| == 1 {
        drains, inflightDeliveries := drains - {d}, inflightDeliveries - {session};
      } else {
        drains := drains[d := Drain(session, remaining[1..])];
        tried := tried[remaining[1] := Count(tried, remaining[1]) + 1];
      }
    }
  }
}
