/**
 The pairing store of src/channels/telegram-pairing.ts.  Every operation reads the file, works on what
 it read and writes it back under one in-process lock, so each is one step.

 `serial` numbers the pairings in order of creation and `issued` counts them; the code keeps neither.
 They only say which record is which, since a code may be handed out again.
 */
module Pairing {
  import opened Options
  import opened PairingCode

  const KEPT := 50
  const TRIES := 50
  const MAX_ATTEMPTS_PER_RECORD := 10

  datatype Intent = Main | WireTo(folder: string) | NewAgent(folder: string)

  datatype Sender = Sender(platformId: string, isGroup: bool, name: Option<string>, adminUserId: Option<string>)

  datatype Attempt = Attempt(candidate: string, platformId: string, at: nat, matched: bool)

  datatype Status = Pending | Consumed(sender: Sender, consumedAt: nat) | Invalidated

  datatype Record = Record(
    serial: nat, code: string, intent: Intent, createdAt: nat, status: Status, attempts: seq<Attempt>)

  datatype Store = Store(pairings: seq<Record>, issued: nat)

  /** What the random number generator gives to one call. */
  type Draws = s: seq<nat> | |s| == TRIES && forall i :: 0 <= i < |s| ==> s[i] < 10000 witness seq(TRIES, _ => 0)

  datatype Event =
    | Create(intent: Intent, draws: Draws, at: nat)
    | Message(text: string, bot: BotName, sender: Sender, at: nat)

  // ---------- The operations ----------

  /** The newest `n` records. */
  function Newest(rs: seq<Record>, n: nat): seq<Record> {
    if |rs| <= n then rs else rs[|rs| - n..]
  }

  function Sweep(rs: seq<Record>): seq<Record> {
    Newest(rs, KEPT)
  }

  function Superseded(r: Record, intent: Intent): Record {
    if r.status == Pending && r.intent == intent then r.(status := Invalidated) else r
  }

  function SupersedeAll(rs: seq<Record>, intent: Intent): seq<Record> {
    seq(|rs|, i requires 0 <= i < |rs| => Superseded(rs[i], intent))
  }

  function Active(rs: seq<Record>): set<string> {
    set r | r in rs && r.status == Pending :: r.code
  }

  /** generateCode: the first draw no pending pairing uses. */
  function FirstFree(draws: seq<nat>, active: set<string>): Option<string> {
    if draws == [] then None
    else if Code(draws[0]) !in active then Some(Code(draws[0]))
    else FirstFree(draws[1..], active)
  }

  function Allocated(rs: seq<Record>, intent: Intent, draws: seq<nat>): Option<string> {
    FirstFree(draws, Active(SupersedeAll(Sweep(rs), intent)))
  }

  function Recent(attempts: seq<Attempt>): seq<Attempt> {
    if |attempts| <= MAX_ATTEMPTS_PER_RECORD then attempts else attempts[|attempts| - MAX_ATTEMPTS_PER_RECORD..]
  }

  function Missed(r: Record, attempt: Attempt): Record {
    if r.status == Pending then r.(attempts := Recent(r.attempts + [attempt]), status := Invalidated) else r
  }

  function MissAll(rs: seq<Record>, attempt: Attempt): seq<Record> {
    seq(|rs|, i requires 0 <= i < |rs| => Missed(rs[i], attempt))
  }

  function Taken(r: Record, sender: Sender, at: nat): Record {
    r.(status := Consumed(sender, at), attempts := Recent(r.attempts + [Attempt(r.code, sender.platformId, at, true)]))
  }

  predicate Matches(r: Record, code: string) {
    r.code == code && r.status == Pending
  }

  /** The position of the first pending record with this code, or -1. */
  function FindPending(rs: seq<Record>, code: string, from: nat := 0): (i: int)
    requires from <= |rs|
    ensures i == -1 ==> forall k :: from <= k < |rs| ==> !Matches(rs[k], code)
    ensures i != -1 ==> from <= i < |rs| && Matches(rs[i], code)
    decreases |rs| - from
  {
    if from == |rs| then -1
    else if Matches(rs[from], code) then from
    else FindPending(rs, code, from + 1)
  }

  /** The records after a message that carries `code`. */
  function Tried(rs: seq<Record>, code: string, sender: Sender, at: nat): seq<Record> {
    var i := FindPending(rs, code);
    if i == -1 then MissAll(rs, Attempt(code, sender.platformId, at, false))
    else rs[i := Taken(rs[i], sender, at)]
  }

  function Next(s: Store, e: Event): Store {
    match e
    case Create(intent, draws, at) =>
      var code := Allocated(s.pairings, intent, draws);
      if code == None then s
      else Store(SupersedeAll(Sweep(s.pairings), intent) + [Record(s.issued, code.value, intent, at, Pending, [])], s.issued + 1)
    case Message(text, bot, sender, at) =>
      var code := ExtractCode(text, bot);
      if code == None then s else s.(pairings := Tried(Sweep(s.pairings), code.value, sender, at))
  }

  /** All the operations in `events`, one after the other. */
  function Run(s: Store, events: seq<Event>): Store {
    if events == [] then s else Next(Run(s, events[..|events| - 1]), events[|events| - 1])
  }

  const Empty := Store([], 0)

  /** getStatus: the record found is the oldest one kept with that code; None is 'unknown'. */
  function GetStatus(rs: seq<Record>, code: string): Option<Status> {
    if rs == [] then None else if rs[0].code == code then Some(rs[0].status) else GetStatus(rs[1..], code)
  }

  // ---------- The invariant ----------

  /** What the attempts of one record can be: a pairing gets a single one. */
  ghost predicate Sound(r: Record) {
    IsCode(r.code) &&
    match r.status
    case Pending => r.attempts == []
    case Consumed(sender, at) => r.attempts == [Attempt(r.code, sender.platformId, at, true)]
    case Invalidated => r.attempts == [] || (|r.attempts| == 1 && !r.attempts[0].matched && r.attempts[0].candidate != r.code)
  }

  /** Two pending records differ in intent and in code. */
  ghost predicate Apart(a: Record, b: Record) {
    a.status == Pending && b.status == Pending ==> a.intent != b.intent && a.code != b.code
  }

  ghost predicate InvList(rs: seq<Record>, issued: nat) {
    && |rs| <= issued
    && (forall i :: 0 <= i < |rs| ==> rs[i].serial == issued - |rs| + i)
    && (forall i :: 0 <= i < |rs| ==> Sound(rs[i]))
    && (forall i, j :: 0 <= i < j < |rs| ==> Apart(rs[i], rs[j]))
  }

  ghost predicate Inv(s: Store) {
    |s.pairings| <= KEPT + 1 && InvList(s.pairings, s.issued)
  }

  lemma SweepKeepsInv(rs: seq<Record>, issued: nat)
    requires InvList(rs, issued)
    ensures InvList(Sweep(rs), issued) && |Sweep(rs)| <= KEPT
  {
  }

  /** The first free draw: free itself, and every draw before it is taken. */
  lemma {:induction false} FirstFreeIs(draws: seq<nat>, active: set<string>)
    ensures FirstFree(draws, active) == None ==> forall i :: 0 <= i < |draws| ==> Code(draws[i]) in active
    ensures FirstFree(draws, active).Some? ==>
              exists i :: 0 <= i < |draws| && FirstFree(draws, active).value == Code(draws[i]) &&
                forall j :: 0 <= j < i ==> Code(draws[j]) in active
    ensures FirstFree(draws, active).Some? ==> FirstFree(draws, active).value !in active
  {
    hide Code;
    if draws != [] && Code(draws[0]) in active {
      FirstFreeIs(draws[1..], active);
      assert draws == [draws[0]] + draws[1..];
      if FirstFree(draws, active).Some? {
        var i :| 0 <= i < |draws[1..]| && FirstFree(draws, active).value == Code(draws[1..][i]) &&
          forall j :: 0 <= j < i ==> Code(draws[1..][j]) in active;
        assert Code(draws[i + 1]) == FirstFree(draws, active).value;
        assert forall j :: 1 <= j < i + 1 ==> draws[j] == draws[1..][j - 1];
      }
    }
  }

  /** Of a record's attempts the last ten are kept. */
  lemma RecentIs(attempts: seq<Attempt>)
    ensures |Recent(attempts)| == (if |attempts| <= 10 then |attempts| else 10)
    ensures Recent(attempts) == attempts[|attempts| - |Recent(attempts)|..]
  {
  }

  lemma CreateKeepsInv(rs: seq<Record>, issued: nat, intent: Intent, draws: Draws, at: nat)
    requires InvList(rs, issued)
    requires FirstFree(draws, Active(SupersedeAll(rs, intent))).Some?
    ensures
      var code := FirstFree(draws, Active(SupersedeAll(rs, intent))).value;
      InvList(SupersedeAll(rs, intent) + [Record(issued, code, intent, at, Pending, [])], issued + 1)
  {
    hide Code, FirstFree, IsCode;
    var active := Active(SupersedeAll(rs, intent));
    FirstFreeIs(draws, active);
    var code := FirstFree(draws, active).value;
    var i :| 0 <= i < |draws| && code == Code(draws[i]);
    CodeIsFaithful(draws[i]);
    forall k | 0 <= k < |rs| && SupersedeAll(rs, intent)[k].status == Pending
      ensures rs[k].intent != intent && rs[k].code != code
    {
      assert SupersedeAll(rs, intent)[k] in SupersedeAll(rs, intent);
      assert rs[k].code in active;
    }
  }

  lemma TriedKeepsInv(rs: seq<Record>, issued: nat, code: string, sender: Sender, at: nat)
    requires InvList(rs, issued)
    ensures InvList(Tried(rs, code, sender, at), issued)
  {
    hide IsCode;
    var i := FindPending(rs, code);
    var after := Tried(rs, code, sender, at);
    forall k | 0 <= k < |rs| ensures Sound(after[k]) && (after[k].status == Pending ==> after[k] == rs[k]) {
      assert Sound(rs[k]);
    }
    forall j, k | 0 <= j < k < |rs| ensures Apart(after[j], after[k]) {
      assert Apart(rs[j], rs[k]);
    }
  }

  lemma SameLength(rs: seq<Record>, intent: Intent)
    ensures |SupersedeAll(rs, intent)| == |rs|
  {
  }

  lemma TriedLength(rs: seq<Record>, code: string, sender: Sender, at: nat)
    ensures |Tried(rs, code, sender, at)| == |rs|
  {
  }

  lemma StepKeepsInv(s: Store, e: Event)
    requires Inv(s)
    ensures Inv(Next(s, e))
  {
    hide InvList, Tried, SupersedeAll, Active, FirstFree, ExtractCode;
    SweepKeepsInv(s.pairings, s.issued);
    var b := Sweep(s.pairings);
    match e
    case Create(intent, draws, at) =>
      if Allocated(s.pairings, intent, draws).Some? {
        CreateKeepsInv(b, s.issued, intent, draws, at);
        SameLength(b, intent);
      }
    case Message(text, bot, sender, at) =>
      if code :| ExtractCode(text, bot) == Some(code) {
        TriedKeepsInv(b, s.issued, code, sender, at);
        TriedLength(b, code, sender, at);
      }
  }

  /**
   Main result: however pairings are created and messages arrive, at most one pairing per intent is
   pending, the pending codes are pairwise distinct, a pairing gets at most one attempt — its own code
   if it is consumed, another one if a guess invalidated it — and at most 51 records are kept, the
   newest ones.
   */
  lemma {:induction false} PairingInvariant(events: seq<Event>)
    ensures Inv(Run(Empty, events))
    decreases |events|
  {
    if events != [] {
      PairingInvariant(events[..|events| - 1]);
      StepKeepsInv(Run(Empty, events[..|events| - 1]), events[|events| - 1]);
    }
  }

  // ---------- The life of one pairing ----------

  /** Pairing number k is still in the file. */
  ghost predicate Kept(s: Store, k: nat) {
    s.issued - |s.pairings| <= k < s.issued
  }

  ghost function At(s: Store, k: nat): (r: Record)
    requires Kept(s, k)
  {
    s.pairings[k - (s.issued - |s.pairings|)]
  }

  predicate Creates(e: Event, r: Record) {
    e.Create? && e.intent == r.intent && e.at == r.createdAt && exists i :: 0 <= i < |e.draws| && r.code == Code(e.draws[i])
  }

  predicate Consumes(e: Event, r: Record) {
    e.Message? && r.status == Consumed(e.sender, e.at) && ExtractCode(e.text, e.bot) == Some(r.code)
  }

  /** A new pairing for the same intent supersedes; a message with another code is a wrong guess. */
  predicate Invalidates(e: Event, r: Record) {
    r.status == Invalidated &&
    match e
    case Create(intent, _, _) => intent == r.intent && r.attempts == []
    case Message(text, bot, sender, at) =>
      var code := ExtractCode(text, bot);
      code.Some? && code.value != r.code && r.attempts == [Attempt(code.value, sender.platformId, at, false)]
  }

  lemma StepCreates(s: Store, e: Event, k: nat)
    requires Inv(s) && Kept(Next(s, e), k) && s.issued <= k
    ensures Creates(e, At(Next(s, e), k)) && At(Next(s, e), k).status == Pending
  {
    hide Code, ExtractCode, FirstFree;
    FirstFreeIs(e.draws, Active(SupersedeAll(Sweep(s.pairings), e.intent)));
  }

  lemma StepChanges(s: Store, e: Event, k: nat)
    requires Inv(s) && Kept(Next(s, e), k) && k < s.issued
    ensures Kept(s, k)
    ensures At(Next(s, e), k).(status := At(s, k).status, attempts := At(s, k).attempts) == At(s, k)
    ensures At(Next(s, e), k) == At(s, k) || (At(s, k).status == Pending &&
              (Consumes(e, At(Next(s, e), k)) || Invalidates(e, At(Next(s, e), k))))
  {
    hide Code, ExtractCode, FirstFree, FindPending, IsCode;
    var b := Sweep(s.pairings);
    var i := k - (s.issued - |b|);
    assert e.Create? ==> |SupersedeAll(b, e.intent)| == |b|;
    var a, r := At(s, k), At(Next(s, e), k);
    assert Sound(a);
    if e.Create? {
      assert r == a || r == Superseded(a, e.intent);
    } else if ExtractCode(e.text, e.bot).Some? {
      var code := ExtractCode(e.text, e.bot).value;
      assert a == b[i] && r == Tried(b, code, e.sender, e.at)[i];
      if a.status == Pending {
        var attempt := Attempt(code, e.sender.platformId, e.at, code == a.code);
        assert FindPending(b, code) == -1 ==> !Matches(a, code);
        assert a.attempts + [attempt] == [attempt];
        assert r == a || Consumes(e, r) || Invalidates(e, r);
      } else {
        assert r == a;
      }
    }
  }

  /**
   Main result: a pairing that is consumed or invalidated never changes again, in any run, as long as
   it is kept; and no pairing ever changes its code or its intent.
   */
  lemma {:induction false} SettledStaysSettled(s: Store, events: seq<Event>, k: nat)
    requires Inv(s) && k < s.issued && Kept(Run(s, events), k)
    ensures Inv(Run(s, events)) && s.issued <= Run(s, events).issued
    ensures Kept(s, k)
    ensures At(Run(s, events), k).(status := At(s, k).status, attempts := At(s, k).attempts) == At(s, k)
    ensures At(s, k).status != Pending ==> At(Run(s, events), k) == At(s, k)
    decreases |events|
  {
    hide Next, Inv;
    RunKeepsInv(s, events);
    if events != [] {
      var before, e := events[..|events| - 1], events[|events| - 1];
      RunKeepsInv(s, before);
      StepChanges(Run(s, before), e, k);
      SettledStaysSettled(s, before, k);
    }
  }

  lemma {:induction false} RunKeepsInv(s: Store, events: seq<Event>)
    requires Inv(s)
    ensures Inv(Run(s, events)) && s.issued <= Run(s, events).issued
    decreases |events|
  {
    hide Inv;
    if events != [] {
      RunKeepsInv(s, events[..|events| - 1]);
      StepKeepsInv(Run(s, events[..|events| - 1]), events[|events| - 1]);
    }
  }

  /** What happened to `r`: an operation created it, and a later one settled it the way its status says. */
  ghost predicate Explained(events: seq<Event>, r: Record) {
    exists i :: 0 <= i < |events| && Creates(events[i], r) &&
      (r.status != Pending ==> exists j :: i < j < |events| && Settles(events[j], r))
  }

  predicate Settles(e: Event, r: Record) {
    Consumes(e, r) || Invalidates(e, r)
  }

  lemma ExplainedLater(events: seq<Event>, e: Event, r: Record)
    requires Explained(events, r)
    ensures Explained(events + [e], r)
  {
    hide Creates, Settles;
    var i :| 0 <= i < |events| && Creates(events[i], r) &&
      (r.status != Pending ==> exists j :: i < j < |events| && Settles(events[j], r));
    assert Creates((events + [e])[i], r);
    if r.status != Pending {
      var j :| i < j < |events| && Settles(events[j], r);
      assert Settles((events + [e])[j], r);
    }
  }

  lemma CreatedNow(events: seq<Event>, e: Event, r: Record)
    requires Creates(e, r) && r.status == Pending
    ensures Explained(events + [e], r)
  {
    assert Creates((events + [e])[|events|], r);
  }

  lemma SettledNow(events: seq<Event>, e: Event, a: Record, r: Record)
    requires Explained(events, a) && a.status == Pending && Settles(e, r)
    requires r.(status := a.status, attempts := a.attempts) == a
    ensures Explained(events + [e], r)
  {
    hide Settles;
    var i :| 0 <= i < |events| && Creates(events[i], a);
    assert Creates((events + [e])[i], r) && Settles((events + [e])[|events|], r);
  }

  /**
   Main result: over all runs, every consumed pairing was matched by a message carrying its own code
   after it was created, and records that message's sender; every invalidated one was superseded by a
   later pairing for its intent or hit by a later message carrying a different code.
   */
  lemma {:induction false} EveryStatusIsExplained(events: seq<Event>, k: nat)
    requires Kept(Run(Empty, events), k)
    ensures Explained(events, At(Run(Empty, events), k))
    decreases |events|
  {
    hide Next, Explained, Inv, Creates, Consumes, Invalidates;
    if events != [] {
      var before, e := events[..|events| - 1], events[|events| - 1];
      assert events == before + [e];
      var s := Run(Empty, before);
      var r := At(Next(s, e), k);
      PairingInvariant(before);
      if k < s.issued {
        StepChanges(s, e, k);
        EveryStatusIsExplained(before, k);
        if r == At(s, k) {
          ExplainedLater(before, e, r);
        } else {
          SettledNow(before, e, At(s, k), r);
        }
      } else {
        StepCreates(s, e, k);
        CreatedNow(before, e, r);
      }
    }
  }

  // ---------- One message ----------

  /**
   A message with a code some pending pairing has consumes that pairing and touches no other; a message
   with any other code leaves nothing pending; a message without a code leaves the file as it is.
   */
  lemma MessageOutcome(s: Store, text: string, bot: BotName, sender: Sender, at: nat)
    requires Inv(s)
    ensures
      var b, after := Sweep(s.pairings), Next(s, Message(text, bot, sender, at)).pairings;
      match ExtractCode(text, bot)
      case None => after == s.pairings
      case Some(code) =>
        |after| == |b| &&
        if exists i :: 0 <= i < |b| && b[i].code == code && b[i].status == Pending
        then (exists i :: 0 <= i < |b| && b[i].code == code && b[i].status == Pending &&
                after[i] == b[i].(status := Consumed(sender, at), attempts := [Attempt(code, sender.platformId, at, true)]) &&
                forall k :: 0 <= k < |b| && k != i ==> after[k] == b[k] && !(b[k].code == code && b[k].status == Pending))
        else forall k :: 0 <= k < |b| ==>
               after[k] == if b[k].status != Pending then b[k]
                           else b[k].(status := Invalidated, attempts := [Attempt(code, sender.platformId, at, false)])
  {
    hide ExtractCode, IsCode;
    var code := ExtractCode(text, bot);
    if code.Some? {
      var b := Sweep(s.pairings);
      var i := FindPending(b, code.value);
      if i != -1 {
        var after := Next(s, Message(text, bot, sender, at)).pairings;
        assert Sound(b[i]) && [] + [Attempt(b[i].code, sender.platformId, at, true)] == [Attempt(b[i].code, sender.platformId, at, true)];
        assert after[i] == b[i].(status := Consumed(sender, at), attempts := [Attempt(code.value, sender.platformId, at, true)]);
        forall k | 0 <= k < |b| && k != i ensures after[k] == b[k] && !Matches(b[k], code.value) {
          assert k < i ==> Apart(b[k], b[i]);
          assert i < k ==> Apart(b[i], b[k]);
        }
      } else {
        assert [] + [Attempt(code.value, sender.platformId, at, false)] == [Attempt(code.value, sender.platformId, at, false)];
        assert forall k :: 0 <= k < |b| ==> Sound(b[k]) && !Matches(b[k], code.value);
      }
    }
  }

  /**
   What a create does: nothing when all its draws are taken; else the pending records of the same intent
   are invalidated and a pending record with the first free code comes last.
   */
  lemma CreateOutcome(s: Store, intent: Intent, draws: Draws, at: nat)
    ensures
      var b, s' := Sweep(s.pairings), Next(s, Create(intent, draws, at));
      s' == s || (
        && s'.issued == s.issued + 1 && |s'.pairings| == |b| + 1
        && (forall k :: 0 <= k < |b| ==>
              s'.pairings[k] == if b[k].status == Pending && b[k].intent == intent then b[k].(status := Invalidated) else b[k])
        && s'.pairings[|b|] == Record(s.issued, s'.pairings[|b|].code, intent, at, Pending, [])
        && (forall k :: 0 <= k < |b| && s'.pairings[k].status == Pending ==> s'.pairings[k].code != s'.pairings[|b|].code)
        && exists i :: 0 <= i < |draws| && s'.pairings[|b|].code == Code(draws[i]) &&
             forall j :: 0 <= j < i ==> exists k :: 0 <= k < |b| && s'.pairings[k].status == Pending && s'.pairings[k].code == Code(draws[j]))
  {
    hide Code, FirstFree, Sweep;
    var b := Sweep(s.pairings);
    var rs := SupersedeAll(b, intent);
    FirstFreeIs(draws, Active(rs));
    if Allocated(s.pairings, intent, draws).Some? {
      var s' := Next(s, Create(intent, draws, at));
      assert s'.pairings[..|b|] == rs;
      assert forall k :: 0 <= k < |b| ==> s'.pairings[k] == rs[k];
      forall k | 0 <= k < |b| && rs[k].status == Pending ensures rs[k].code in Active(rs) {
        assert rs[k] in rs;
      }
      var c := s'.pairings[|b|].code;
      var i :| 0 <= i < |draws| && c == Code(draws[i]) && forall j :: 0 <= j < i ==> Code(draws[j]) in Active(rs);
      forall j | 0 <= j < i
        ensures exists k :: 0 <= k < |b| && s'.pairings[k].status == Pending && s'.pairings[k].code == Code(draws[j])
      {
        var r :| r in rs && r.status == Pending && r.code == Code(draws[j]);
        var k :| 0 <= k < |rs| && rs[k] == r;
        assert s'.pairings[k] == r;
      }
    }
  }

  // ---------- Allocation ----------

  /**
   A pairing cannot be created exactly when every draw is the code of a pairing pending for another
   intent; the file is then left as it is, even the pairings the new one would have superseded.
   */
  lemma FailsExactlyWhen(s: Store, intent: Intent, draws: Draws, at: nat)
    ensures Allocated(s.pairings, intent, draws) == None <==>
            forall i :: 0 <= i < |draws| ==> HeldForAnother(Sweep(s.pairings), intent, Code(draws[i]))
    ensures Allocated(s.pairings, intent, draws) == None ==> Next(s, Create(intent, draws, at)) == s
  {
    hide Code, FirstFree;
    var b := Sweep(s.pairings);
    var active := Active(SupersedeAll(b, intent));
    FirstFreeIs(draws, active);
    forall code: string ensures code in active <==> HeldForAnother(b, intent, code) {
      if k :| 0 <= k < |b| && Matches(b[k], code) && b[k].intent != intent {
        assert SupersedeAll(b, intent)[k] in SupersedeAll(b, intent);
      }
    }
    if i :| 0 <= i < |draws| && Code(draws[i]) !in active {
      FirstFreeFinds(draws, active, i);
    }
  }

  ghost predicate HeldForAnother(rs: seq<Record>, intent: Intent, code: string) {
    exists k :: 0 <= k < |rs| && Matches(rs[k], code) && rs[k].intent != intent
  }

  lemma {:induction false} FirstFreeFinds(draws: seq<nat>, active: set<string>, i: nat)
    requires i < |draws| && Code(draws[i]) !in active
    ensures FirstFree(draws, active).Some?
  {
    hide Code;
    if i > 0 {
      FirstFreeFinds(draws[1..], active, i - 1);
    }
  }

  // ---------- Looking a pairing up by its code ----------

  lemma {:induction false} StatusIsFirst(rs: seq<Record>, code: string, k: nat)
    requires k < |rs| && rs[k].code == code
    ensures exists i :: 0 <= i <= k && rs[i].code == code && GetStatus(rs, code) == Some(rs[i].status)
  {
    if rs[0].code != code {
      StatusIsFirst(rs[1..], code, k - 1);
      var i :| 0 <= i <= k - 1 && rs[1..][i].code == code && GetStatus(rs[1..], code) == Some(rs[1..][i].status);
      assert rs[i + 1].code == code;
    }
  }

  /** After a pairing is created a lookup sees it last, behind the newest 49 of the records there were. */
  lemma FreshIsLast(s: Store, e: Event)
    requires e.Create? && Allocated(s.pairings, e.intent, e.draws).Some?
    ensures
      var older, rs := Newest(s.pairings, KEPT - 1), Sweep(Next(s, e).pairings);
      && |rs| == |older| + 1
      && rs[|older|].code == Allocated(s.pairings, e.intent, e.draws).value && rs[|older|].status == Pending
      && forall k :: 0 <= k < |older| ==> rs[k].code == older[k].code
  {
    hide Allocated, Newest;
    var swept := Sweep(s.pairings);
    var b := SupersedeAll(swept, e.intent);
    var last := Record(s.issued, Allocated(s.pairings, e.intent, e.draws).value, e.intent, e.at, Pending, []);
    assert Next(s, e).pairings == b + [last];
    NewestAppend(b, KEPT, last);
    NewestTwice(s.pairings, KEPT, KEPT - 1);
    NewestCodes(b, swept, KEPT - 1);
  }

  lemma NewestAppend(rs: seq<Record>, n: nat, last: Record)
    requires n > 0
    ensures Newest(rs + [last], n) == Newest(rs, n - 1) + [last]
  {
  }

  lemma NewestTwice(rs: seq<Record>, m: nat, n: nat)
    requires n <= m
    ensures Newest(Newest(rs, m), n) == Newest(rs, n)
  {
  }

  lemma {:induction false} NewestCodes(a: seq<Record>, b: seq<Record>, n: nat)
    requires |a| == |b| && forall k :: 0 <= k < |a| ==> a[k].code == b[k].code
    ensures |Newest(a, n)| == |Newest(b, n)|
    ensures forall k :: 0 <= k < |Newest(a, n)| ==> Newest(a, n)[k].code == Newest(b, n)[k].code
  {
  }

  /**
   Right after a pairing is created, looking up its code says `pending` exactly when none of the newest
   49 records before it has the same code.
   */
  lemma FreshIsPendingExactlyWhen(s: Store, intent: Intent, draws: Draws, at: nat)
    requires Inv(s) && Allocated(s.pairings, intent, draws).Some?
    ensures
      var code, after := Allocated(s.pairings, intent, draws).value, Next(s, Create(intent, draws, at));
      GetStatus(Sweep(after.pairings), code) == Some(Pending) <==>
      forall r :: r in Newest(s.pairings, KEPT - 1) ==> r.code != code
  {
    hide Next, GetStatus, Allocated, Newest, Sweep;
    var e := Create(intent, draws, at);
    var code, rs, older := Allocated(s.pairings, intent, draws).value, Sweep(Next(s, e).pairings), Newest(s.pairings, KEPT - 1);
    FreshIsLast(s, e);
    StepKeepsInv(s, e);
    SweepKeepsInv(Next(s, e).pairings, Next(s, e).issued);
    StatusIsFirst(rs, code, |older|);
    if r :| r in older && r.code == code {
      var k :| 0 <= k < |older| && older[k] == r;
      StatusIsFirst(rs, code, k);
      var i :| 0 <= i <= k && rs[i].code == code && GetStatus(rs, code) == Some(rs[i].status);
      assert Apart(rs[i], rs[|older|]);
    } else {
      assert forall k :: 0 <= k < |older| ==> older[k] in older;
    }
  }

  // ---------- What does not hold ----------

  function Always(n: nat): (draws: Draws)
    requires n < 10000
  {
    seq(TRIES, _ => n)
  }

  lemma FreshIs(s: Store, intent: Intent, n: nat, at: nat)
    requires n < 10000 && Code(n) !in Active(SupersedeAll(Sweep(s.pairings), intent))
    ensures Next(s, Create(intent, Always(n), at)) ==
            Store(SupersedeAll(Sweep(s.pairings), intent) + [Record(s.issued, Code(n), intent, at, Pending, [])], s.issued + 1)
  {
    hide Code;
    assert Always(n)[0] == n;
  }

  /**
   A code may be drawn again once its pairing is settled, and a lookup then answers for the old pairing:
   a pairing just created is reported as consumed.
   */
  lemma ReusedCodeReportsTheOldPairing(text: string, bot: BotName, sender: Sender)
    requires ExtractCode(text, bot) == Some(Code(0))
    ensures
      var s := Run(Empty, [Create(Main, Always(0), 0), Message(text, bot, sender, 1), Create(Main, Always(0), 2)]);
      s.pairings[|s.pairings| - 1].status == Pending && GetStatus(Sweep(s.pairings), Code(0)) == Some(Consumed(sender, 1))
  {
    hide Code, ExtractCode, Always, Next, Active, SupersedeAll;
    var e0, e1, e2 := Create(Main, Always(0), 0), Message(text, bot, sender, 1), Create(Main, Always(0), 2);
    RunThree(e0, e1, e2);
    var r0 := Record(0, Code(0), Main, 0, Pending, []);
    var r1 := Taken(r0, sender, 1);
    SettledIsInactive([], Main);
    FreshIs(Empty, Main, 0, 0);
    assert [] + [r0] == [r0];
    OnlyOneConsumed(r0, 1, text, bot, sender, 1);
    SettledIsInactive([r1], Main);
    FreshIs(Store([r1], 1), Main, 0, 2);
  }

  lemma RunThree(a: Event, b: Event, c: Event)
    ensures Run(Empty, [a, b, c]) == Next(Next(Next(Empty, a), b), c)
  {
    hide Next;
    assert [a][..0] == [] && [a, b][..1] == [a] && [a, b, c][..2] == [a, b];
    assert Run(Empty, [a]) == Next(Empty, a);
    assert Run(Empty, [a, b]) == Next(Next(Empty, a), b);
  }

  lemma {:induction false} SettledIsInactive(rs: seq<Record>, intent: Intent)
    requires |rs| <= KEPT && forall i :: 0 <= i < |rs| ==> rs[i].status != Pending
    ensures SupersedeAll(rs, intent) == rs && Active(rs) == {}
  {
  }

  lemma OnlyOneConsumed(r: Record, issued: nat, text: string, bot: BotName, sender: Sender, at: nat)
    requires r.status == Pending && ExtractCode(text, bot) == Some(r.code)
    ensures Next(Store([r], issued), Message(text, bot, sender, at)) == Store([Taken(r, sender, at)], issued)
  {
    hide ExtractCode;
    assert Matches([r][0], r.code) && FindPending([r], r.code) == 0;
  }

  /** n new pairings for one folder after one for `Main`. */
  function Busy(n: nat): (events: seq<Event>) {
    if n == 0 then [Create(Main, Always(0), 0)] else Busy(n - 1) + [Create(WireTo("a"), Always(1), n)]
  }

  ghost predicate Lined(s: Store, n: nat) {
    && |s.pairings| == s.issued == n + 1
    && s.pairings[0] == Record(0, Code(0), Main, 0, Pending, [])
    && forall i :: 1 <= i <= n ==> s.pairings[i].intent == WireTo("a")
  }

  lemma BusyStep(s: Store, n: nat)
    requires 1 <= n <= KEPT && Lined(s, n - 1)
    ensures Lined(Next(s, Create(WireTo("a"), Always(1), n)), n)
  {
    hide Code, Always, Active, Next;
    OneIsFree(s.pairings);
    FreshIs(s, WireTo("a"), 1, n);
  }

  lemma BusyBase()
    ensures Lined(Run(Empty, Busy(0)), 0)
  {
    hide Code, Always, Next;
    assert [Create(Main, Always(0), 0)][..0] == [];
    assert SupersedeAll([], Main) == [];
    FreshIs(Empty, Main, 0, 0);
  }

  lemma {:induction false} BusyRun(n: nat)
    requires n <= KEPT
    ensures Lined(Run(Empty, Busy(n)), n)
  {
    hide Code, Always, Active, Next, Lined;
    if n == 0 {
      BusyBase();
    } else {
      BusyRun(n - 1);
      assert Busy(n)[..|Busy(n)| - 1] == Busy(n - 1);
      BusyStep(Run(Empty, Busy(n - 1)), n);
    }
  }

  lemma {:induction false} OneIsFree(rs: seq<Record>)
    requires 0 < |rs| && rs[0].code == Code(0) && forall i :: 1 <= i < |rs| ==> rs[i].intent == WireTo("a")
    requires |rs| <= KEPT + 1
    ensures Code(1) !in Active(SupersedeAll(Sweep(rs), WireTo("a")))
  {
    hide Code;
    CodeIsFaithful(0);
    CodeIsFaithful(1);
    var b := Sweep(rs);
    forall i | 0 <= i < |b| ensures SupersedeAll(b, WireTo("a"))[i].status == Pending ==> b[i].code == Code(0) {
      assert b[i] == rs[i + |rs| - |b|];
    }
  }

  /**
   Sweeping keeps the newest 50 records whatever their status, so 51 later pairings push out one that
   is still pending: nothing consumed, superseded or guessed wrong at it, and it is gone.
   */
  lemma PendingIsPushedOut()
    ensures Kept(Run(Empty, Busy(50)), 0) && At(Run(Empty, Busy(50)), 0).status == Pending
    ensures !Kept(Run(Empty, Busy(51)), 0)
    ensures forall i :: 1 <= i < |Busy(51)| ==> Busy(51)[i].Create? && Busy(51)[i].intent != Main
  {
    hide Code, Always, Active, FirstFree;
    BusyRun(50);
    var s := Run(Empty, Busy(50));
    assert Busy(51)[..|Busy(51)| - 1] == Busy(50);
    OneIsFree(s.pairings);
    FreshIs(s, WireTo("a"), 1, 51);
    BusyShape(51);
  }

  /** The step writes the file: a code can be allocated, or the message carries one. */
  predicate Writes(s: Store, e: Event) {
    match e
    case Create(intent, draws, _) => Allocated(s.pairings, intent, draws).Some?
    case Message(text, bot, _, _) => ExtractCode(text, bot).Some?
  }

  /** A step drops a record exactly when it writes the file, the file has 51 records, and the record is the oldest one. */
  lemma DroppedExactlyWhen(s: Store, e: Event, k: nat)
    requires Inv(s) && Kept(s, k)
    ensures !Kept(Next(s, e), k) <==> Writes(s, e) && |s.pairings| == KEPT + 1 && k == s.issued - |s.pairings|
  {
    hide FirstFree, ExtractCode, InvList, Tried, SupersedeAll;
    var b := Sweep(s.pairings);
    match e
    case Create(intent, draws, at) =>
      SameLength(b, intent);
    case Message(text, bot, sender, at) =>
      if code :| ExtractCode(text, bot) == Some(code) {
        TriedLength(b, code, sender, at);
      }
  }

  lemma {:induction false} BusyShape(n: nat)
    ensures |Busy(n)| == n + 1 && Busy(n)[0] == Create(Main, Always(0), 0)
    ensures forall i :: 1 <= i <= n ==> Busy(n)[i].Create? && Busy(n)[i].intent == WireTo("a")
  {
    hide Always;
    if n > 0 { BusyShape(n - 1); }
  }

  // ---------- The code ----------

  /** The first of 50 draws that no pending pairing uses. */
  method GenerateCode(active: set<string>, draws: Draws) returns (code: Option<string>)
    ensures code == FirstFree(draws, active)
    ensures code == None <==> forall i :: 0 <= i < 50 ==> Code(draws[i]) in active
    ensures code.Some? ==> code.value !in active
    ensures code.Some? ==> exists i :: 0 <= i < 50 && code.value == Code(draws[i]) && (forall j :: 0 <= j < i ==> Code(draws[j]) in active)
  {
    hide Code;
    FirstFreeIs(draws, active);
    for i := 0 to TRIES
      invariant FirstFree(draws, active) == FirstFree(draws[i..], active)
    {
      var candidate := Code(draws[i]);
      if candidate !in active {
        return Some(candidate);
      }
    }
    return None;
  }

  class TelegramPairing {
    var pairings: seq<Record>
    var issued: nat

    ghost function State(): Store
      reads this
    {
      Store(pairings, issued)
    }

    constructor ()
      ensures State() == Empty
    {
      pairings, issued := [], 0;
    }

    /** createPairing; None when no code could be allocated. */
    method CreatePairing(intent: Intent, draws: Draws, now: nat) returns (record: Option<Record>)
      modifies this
      ensures State() == Next(old(State()), Create(intent, draws, now))
      ensures record == None ==> State() == old(State())
      ensures record.Some? ==> State() != old(State()) && record.value == pairings[|pairings| - 1] && record.value.status == Pending
    {
      hide Code, FirstFree;
      var store := Sweep(pairings);
      ghost var b := store;
      for i := 0 to |store|
        invariant |store| == |b|
        invariant forall k :: 0 <= k < |b| ==> store[k] == if k < i then Superseded(b[k], intent) else b[k]
      {
        if store[i].status == Pending && store[i].intent == intent {
          store := store[i := store[i].(status := Invalidated)];
        }
      }
      assert store == SupersedeAll(b, intent);
      var code := GenerateCode(Active(store), draws);
      if code == None {
        return None;
      }
      record := Some(Record(issued, code.value, intent, now, Pending, []));
      pairings, issued := store + [record.value], issued + 1;
    }

    /** tryConsume: the consumed pairing, or None. */
    method TryConsume(text: string, bot: BotName, sender: Sender, now: nat) returns (record: Option<Record>)
      modifies this
      ensures State() == Next(old(State()), Message(text, bot, sender, now))
      ensures record.Some? <==>
              (ExtractCode(text, bot).Some? && exists r :: r in Sweep(old(pairings)) && Matches(r, ExtractCode(text, bot).value))
      ensures record.Some? ==> record.value in pairings && record.value.status == Consumed(sender, now)
    {
      hide ExtractCode;
      var code := ExtractCode(text, bot);
      if code == None {
        return None;
      }
      var store := Sweep(pairings);
      ghost var b := store;
      var found := FindPending(store, code.value);
      if found == -1 {
        var attempt := Attempt(code.value, sender.platformId, now, false);
        for i := 0 to |store|
          invariant |store| == |b|
          invariant forall k :: 0 <= k < |b| ==> store[k] == if k < i then Missed(b[k], attempt) else b[k]
        {
          if store[i].status == Pending {
            store := store[i := store[i].(attempts := Recent(store[i].attempts + [attempt]), status := Invalidated)];
          }
        }
        assert store == MissAll(b, attempt);
        pairings := store;
        return None;
      }
      var taken := Taken(store[found], sender, now);
      assert store[found] in b;
      pairings := store[found := taken];
      assert pairings[found] == taken;
      record := Some(taken);
    }
  }
}
