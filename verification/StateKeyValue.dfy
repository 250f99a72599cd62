/** The key-value table of src/state-sqlite.ts: expired rows stay until something happens to delete them. */
module KeyValue {
  import opened Options

  type Key = string
  type Value = string

  datatype Entry = Entry(value: Value, expiresAt: Option<nat>)

  type Table = map<Key, Entry>

  /** `pause` is the time between the two readings of the clock that get and setIfNotExists make. */
  datatype Op =
    | Get(key: Key, pause: nat)
    | Set(key: Key, value: Value, ttl: nat)
    | SetIfNotExists(key: Key, value: Value, ttl: nat, pause: nat)
    | Delete(key: Key)
    | Cleanup
    | Tick(elapsed: nat)

  datatype Output = Found(value: Option<Value>) | Inserted(yes: bool) | Nothing

  /** No time to live, or one of 0, means that the entry never expires. */
  function Expiry(now: nat, ttl: nat): Option<nat> {
    if ttl != 0 then Some(now + ttl) else None
  }

  // ---------- The table ----------

  /** The test made on a row that was read: no expiry and an expiry of 0 never count as past. */
  predicate Expired(e: Entry, now: nat) {
    e.expiresAt.Some? && e.expiresAt.value != 0 && e.expiresAt.value < now
  }

  /** DELETE ... WHERE expires_at IS NOT NULL AND expires_at < ? */
  function Clean(rows: Table, now: nat): Table {
    map k | k in rows && !(rows[k].expiresAt.Some? && rows[k].expiresAt.value < now) :: rows[k]
  }

  function Apply(rows: Table, now: nat, op: Op): (Table, Output) {
    match op
    case Get(key, pause) =>
      var cleaned := Clean(rows, now);
      if key !in cleaned then (cleaned, Found(None))
      else if Expired(cleaned[key], now + pause) then (cleaned - {key}, Found(None))
      else (cleaned, Found(Some(cleaned[key].value)))
    case Set(key, value, ttl) => (rows[key := Entry(value, Expiry(now, ttl))], Nothing)
    case SetIfNotExists(key, value, ttl, pause) =>
      var rows1 := if key in rows && Expired(rows[key], now) then rows - {key} else rows;
      if key in rows1 then (rows1, Inserted(false))
      else (rows1[key := Entry(value, Expiry(now + pause, ttl))], Inserted(true))
    case Delete(key) => (rows - {key}, Nothing)
    case Cleanup => (Clean(rows, now), Nothing)
    case Tick(_) => (rows, Nothing)
  }

  // ---------- The ideal: a map whose entries live until their expiry, and need no cleaning ----------

  predicate Alive(m: Table, now: nat, key: Key) {
    key in m && (m[key].expiresAt.Some? ==> m[key].expiresAt.value >= now)
  }

  function ApplyIdeal(m: Table, now: nat, op: Op): (Table, Output) {
    match op
    case Get(key, pause) => (m, Found(if Alive(m, now + pause, key) then Some(m[key].value) else None))
    case Set(key, value, ttl) => (m[key := Entry(value, Expiry(now, ttl))], Nothing)
    case SetIfNotExists(key, value, ttl, pause) =>
      if Alive(m, now, key) then (m, Inserted(false)) else (m[key := Entry(value, Expiry(now + pause, ttl))], Inserted(true))
    case Delete(key) => (m - {key}, Nothing)
    case Cleanup => (m, Nothing)
    case Tick(_) => (m, Nothing)
  }

  function Later(now: nat, op: Op): nat {
    match op
    case Tick(elapsed) => now + elapsed
    case Get(_, pause) => now + pause
    case SetIfNotExists(_, _, _, pause) => now + pause
    case _ => now
  }

  /** Every output of a run, for an implementation given by its step. */
  function Outputs(step: (Table, nat, Op) -> (Table, Output), m: Table, now: nat, ops: seq<Op>): seq<Output>
    decreases |ops|
  {
    if ops == [] then []
    else
      var (m', output) := step(m, now, ops[0]);
      [output] + Outputs(step, m', Later(now, ops[0]), ops[1..])
  }

  /** Same living entries, and no expiry of 0. */
  ghost predicate Refines(rows: Table, ideal: Table, now: nat) {
    && (forall k :: k in rows ==> rows[k].expiresAt != Some(0))
    && (forall k :: Alive(rows, now, k) <==> Alive(ideal, now, k))
    && (forall k :: Alive(rows, now, k) ==> rows[k] == ideal[k])
  }

  lemma CleanRefines(rows: Table, ideal: Table, now: nat)
    requires Refines(rows, ideal, now)
    ensures Refines(Clean(rows, now), ideal, now)
    ensures forall k :: k in Clean(rows, now) <==> Alive(rows, now, k)
  {
    var r := Clean(rows, now);
    forall k
      ensures Alive(r, now, k) <==> Alive(rows, now, k)
      ensures k in r <==> Alive(rows, now, k)
      ensures k in r ==> k in rows && r[k] == rows[k]
    {
    }
    forall k | Alive(r, now, k) ensures Alive(ideal, now, k) && r[k] == ideal[k] {
      assert Alive(rows, now, k);
    }
  }

  lemma PutRefines(rows: Table, ideal: Table, now: nat, key: Key, e: Entry)
    requires Refines(rows, ideal, now) && e.expiresAt != Some(0)
    ensures Refines(rows[key := e], ideal[key := e], now)
  {
    var r, i := rows[key := e], ideal[key := e];
    forall k ensures Alive(r, now, k) <==> Alive(i, now, k) {
      assert k != key ==> (Alive(r, now, k) <==> Alive(rows, now, k));
      assert k != key ==> (Alive(i, now, k) <==> Alive(ideal, now, k));
    }
    forall k | Alive(r, now, k) ensures r[k] == i[k] {
      assert k != key ==> Alive(rows, now, k);
      assert Alive(i, now, k);
    }
  }

  lemma DropRefines(rows: Table, ideal: Table, now: nat, key: Key)
    requires Refines(rows, ideal, now)
    ensures Refines(rows - {key}, ideal - {key}, now)
    ensures !Alive(rows, now, key) ==> Refines(rows - {key}, ideal, now)
  {
    var r, i := rows - {key}, ideal - {key};
    forall k
      ensures Alive(r, now, k) <==> k != key && Alive(rows, now, k)
      ensures Alive(i, now, k) <==> k != key && Alive(ideal, now, k)
      ensures k in r ==> k in rows && r[k] == rows[k]
      ensures k in i ==> k in ideal && i[k] == ideal[k]
    {
    }
    assert Refines(r, i, now) by {
      forall k | Alive(r, now, k) ensures r[k] == i[k] {
        assert Alive(rows, now, k) && Alive(i, now, k);
      }
    }
  }

  lemma TickRefines(rows: Table, ideal: Table, now: nat, elapsed: nat)
    requires Refines(rows, ideal, now)
    ensures Refines(rows, ideal, now + elapsed)
  {
    var later := now + elapsed;
    forall k ensures Alive(rows, later, k) <==> Alive(ideal, later, k) {
      assert Alive(rows, now, k) <==> Alive(ideal, now, k);
    }
    forall k | Alive(rows, later, k) ensures rows[k] == ideal[k] {
      assert Alive(rows, now, k);
    }
  }

  /** What a cleanup leaves is tested again at the second reading, so the answer is the ideal's at that time. */
  lemma GetRefines(rows: Table, ideal: Table, now: nat, key: Key, pause: nat)
    requires Refines(rows, ideal, now)
    ensures Apply(rows, now, Get(key, pause)).1 == ApplyIdeal(ideal, now, Get(key, pause)).1
    ensures Refines(Apply(rows, now, Get(key, pause)).0, ideal, now + pause)
  {
    hide Clean, Refines;
    var cleaned, later := Clean(rows, now), now + pause;
    CleanRefines(rows, ideal, now);
    TickRefines(cleaned, ideal, now, pause);
    DropRefines(cleaned, ideal, later, key);
    SameEntry(cleaned, ideal, later, key);
  }

  lemma SameEntry(rows: Table, ideal: Table, now: nat, key: Key)
    requires Refines(rows, ideal, now)
    ensures Alive(rows, now, key) <==> Alive(ideal, now, key)
    ensures Alive(rows, now, key) ==> rows[key] == ideal[key]
    ensures key in rows ==> (Expired(rows[key], now) <==> !Alive(rows, now, key))
  {
  }

  lemma InsertRefines(rows: Table, ideal: Table, now: nat, key: Key, value: Value, ttl: nat, pause: nat)
    requires Refines(rows, ideal, now)
    ensures
      var op := SetIfNotExists(key, value, ttl, pause);
      && Apply(rows, now, op).1 == ApplyIdeal(ideal, now, op).1
      && Refines(Apply(rows, now, op).0, ApplyIdeal(ideal, now, op).0, now + pause)
  {
    hide Refines;
    var e := Entry(value, Expiry(now + pause, ttl));
    SameEntry(rows, ideal, now, key);
    PutRefines(rows, ideal, now, key, e);
    TickRefines(rows, ideal, now, pause);
    TickRefines(rows[key := e], ideal[key := e], now, pause);
    assert (rows - {key})[key := e] == rows[key := e];
  }

  lemma StepRefines(rows: Table, ideal: Table, now: nat, op: Op)
    requires Refines(rows, ideal, now)
    ensures Apply(rows, now, op).1 == ApplyIdeal(ideal, now, op).1
    ensures Refines(Apply(rows, now, op).0, ApplyIdeal(ideal, now, op).0, Later(now, op))
  {
    hide Refines;
    match op
    case Get(key, pause) => GetRefines(rows, ideal, now, key, pause);
    case Set(key, value, ttl) => PutRefines(rows, ideal, now, key, Entry(value, Expiry(now, ttl)));
    case SetIfNotExists(key, value, ttl, pause) => InsertRefines(rows, ideal, now, key, value, ttl, pause);
    case Delete(key) => DropRefines(rows, ideal, now, key);
    case Cleanup => CleanRefines(rows, ideal, now);
    case Tick(elapsed) => TickRefines(rows, ideal, now, elapsed);
  }

  lemma {:induction false} RunRefines(rows: Table, ideal: Table, now: nat, ops: seq<Op>)
    requires Refines(rows, ideal, now)
    ensures Outputs(Apply, rows, now, ops) == Outputs(ApplyIdeal, ideal, now, ops)
    decreases |ops|
  {
    hide Apply, ApplyIdeal, Refines;
    if ops != [] {
      StepRefines(rows, ideal, now, ops[0]);
      RunRefines(Apply(rows, now, ops[0]).0, ApplyIdeal(ideal, now, ops[0]).0, Later(now, ops[0]), ops[1..]);
    }
  }

  /**
   Main result: over every run, whatever cleanups happen in between, the table answers like the ideal
   map in which an entry simply stops being there once its expiry has passed.
   */
  lemma TableIsTtlMap(now: nat, ops: seq<Op>)
    ensures Outputs(Apply, map[], now, ops) == Outputs(ApplyIdeal, map[], now, ops)
  {
    RunRefines(map[], map[], now, ops);
  }

  // ---------- How long an entry lasts ----------

  lemma {:induction false} ThreeOutputs(m: Table, now: nat, a: Op, b: Op, c: Op)
    ensures
      var (m1, o1) := Apply(m, now, a);
      var (m2, o2) := Apply(m1, Later(now, a), b);
      Outputs(Apply, m, now, [a, b, c]) == [o1, o2, Apply(m2, Later(Later(now, a), b), c).1]
  {
    hide Apply;
    assert [a, b, c][1..] == [b, c] && [b, c][1..] == [c] && [c][1..] == [];
    var (m1, o1) := Apply(m, now, a);
    var (m2, o2) := Apply(m1, Later(now, a), b);
    assert Outputs(Apply, m2, Later(Later(now, a), b), [c]) == [Apply(m2, Later(Later(now, a), b), c).1];
    assert Outputs(Apply, m1, Later(now, a), [b, c]) == [o2] + Outputs(Apply, m2, Later(Later(now, a), b), [c]);
  }

  /**
   An entry stored with a time to live is found for exactly that long, counted to the second clock reading
   of the get; one stored without, or with 0, is found for ever.
   */
  lemma FoundForItsTime(rows: Table, now: nat, key: Key, value: Value, ttl: nat, elapsed: nat, pause: nat)
    ensures Outputs(Apply, rows, now, [Set(key, value, ttl), Tick(elapsed), Get(key, pause)]) ==
            [Nothing, Nothing, Found(if ttl == 0 || elapsed + pause <= ttl then Some(value) else None)]
  {
    ThreeOutputs(rows, now, Set(key, value, ttl), Tick(elapsed), Get(key, pause));
  }

  /**
   A conditional insert succeeds exactly when nothing unexpired is there; what it stores keeps others out
   for exactly its time to live, counted from its second clock reading.
   */
  lemma InsertKeepsOut(rows: Table, now: nat, key: Key, value: Value, ttl: nat, pause: nat, elapsed: nat, other: Value, ttl2: nat, pause2: nat)
    requires key !in rows || (rows[key].expiresAt.Some? && 0 < rows[key].expiresAt.value < now)
    ensures Outputs(Apply, rows, now,
              [SetIfNotExists(key, value, ttl, pause), Tick(elapsed), SetIfNotExists(key, other, ttl2, pause2)]) ==
            [Inserted(true), Nothing, Inserted(ttl != 0 && elapsed > ttl)]
  {
    ThreeOutputs(rows, now, SetIfNotExists(key, value, ttl, pause), Tick(elapsed), SetIfNotExists(key, other, ttl2, pause2));
  }

  /** What is there and unexpired refuses an insert and stays. */
  lemma InsertRefused(rows: Table, now: nat, key: Key, value: Value, ttl: nat, pause: nat)
    requires key in rows && (rows[key].expiresAt.Some? && rows[key].expiresAt.value != 0 ==> rows[key].expiresAt.value >= now)
    ensures Apply(rows, now, SetIfNotExists(key, value, ttl, pause)) == (rows, Inserted(false))
  {
  }

  /** A cleanup, and the one a get makes, deletes exactly the entries whose expiry has passed. */
  lemma CleanupDeletes(rows: Table, now: nat)
    ensures
      var rows' := Apply(rows, now, Cleanup).0;
      && (forall k :: k in rows' <==> k in rows && (rows[k].expiresAt.Some? ==> rows[k].expiresAt.value >= now))
      && (forall k :: k in rows' ==> rows'[k] == rows[k])
      && forall key, pause: nat, k :: k in Apply(rows, now, Get(key, pause)).0 && k != key <==> k in rows' && k != key
  {
  }

  /** After a delete the key is gone, for a get as for an insert, and the other keys are as they were. */
  lemma DeletedIsGone(rows: Table, now: nat, key: Key, elapsed: nat, pause: nat, value: Value, ttl: nat)
    ensures Outputs(Apply, rows, now, [Delete(key), Tick(elapsed), Get(key, pause)]) == [Nothing, Nothing, Found(None)]
    ensures Outputs(Apply, rows, now, [Delete(key), Tick(elapsed), SetIfNotExists(key, value, ttl, pause)]) ==
            [Nothing, Nothing, Inserted(true)]
    ensures forall k :: k != key ==>
              var rows' := Apply(rows, now, Delete(key)).0;
              (k in rows' <==> k in rows) && (k in rows ==> rows'[k] == rows[k])
  {
    ThreeOutputs(rows, now, Delete(key), Tick(elapsed), Get(key, pause));
    ThreeOutputs(rows, now, Delete(key), Tick(elapsed), SetIfNotExists(key, value, ttl, pause));
  }
}
