/** The queues of src/state-sqlite.ts: list rows numbered from MAX(idx) + 1, trimmed by deleting up to a cutoff. */
module Lists {
  import opened Options

  type Value = string

  datatype Row = Row(value: Value, expiresAt: Option<nat>)

  /** The rows of one list key, by idx. */
  type Rows = map<nat, Row>

  lemma {:induction false} HasMax(keys: set<nat>)
    requires keys != {}
    ensures exists m :: m in keys && forall k :: k in keys ==> k <= m
    decreases |keys|
  {
    var x :| x in keys;
    if keys != {x} {
      HasMax(keys - {x});
      var m :| m in keys - {x} && forall k :: k in keys - {x} ==> k <= m;
      var top := if x > m then x else m;
      forall k | k in keys ensures k <= top {
        assert k == x || k in keys - {x};
      }
      assert top in keys;
    } else {
      assert x in keys && forall k :: k in keys ==> k <= x;
    }
  }

  lemma {:induction false} HasMin(keys: set<nat>, x: nat)
    requires x in keys
    ensures exists m :: m in keys && forall k :: k in keys ==> m <= k
    decreases x
  {
    if y: nat :| y in keys && y < x {
      HasMin(keys, y);
    } else {
      assert x in keys && forall k :: k in keys ==> x <= k;
    }
  }

  /** SELECT MAX(idx), with -1 for no rows. */
  function MaxIdx(rows: Rows): int {
    if rows == map[] then -1
    else
      HasMax(rows.Keys);
      var m :| m in rows.Keys && forall k :: k in rows.Keys ==> k <= m;
      m
  }

  /** SELECT ... ORDER BY idx ASC LIMIT 1. */
  function MinIdx(rows: Rows): nat
    requires rows != map[]
  {
    assert exists m :: m in rows.Keys && forall k :: k in rows.Keys ==> m <= k by {
      var x :| x in rows;
      HasMin(rows.Keys, x);
    }
    var m :| m in rows.Keys && forall k :: k in rows.Keys ==> m <= k;
    m
  }

  /** appendToList; a maximum length of 0 counts as none. */
  function Append(rows: Rows, value: Value, maxLength: int, expiresAt: Option<nat>): Rows {
    var next := MaxIdx(rows) + 1;
    var added := rows[next := Row(value, expiresAt)];
    var cutoff := next - maxLength;
    if maxLength != 0 && cutoff >= 0 then map i | i in added && i > cutoff :: added[i] else added
  }

  function Enqueue(rows: Rows, value: Value, maxSize: int): Rows {
    Append(rows, value, maxSize, None)
  }

  function Dequeue(rows: Rows): (Rows, Option<Value>) {
    if rows == map[] then (rows, None) else (rows - {MinIdx(rows)}, Some(rows[MinIdx(rows)].value))
  }

  function Clean(rows: Rows, now: nat): Rows {
    map i | i in rows && !(rows[i].expiresAt.Some? && rows[i].expiresAt.value < now) :: rows[i]
  }

  /** An append, for any rows: behind the highest index, with its expiry, trimmed to the newest `maxLength` indices. */
  lemma AppendIs(rows: Rows, value: Value, maxLength: int, expiresAt: Option<nat>)
    ensures
      var next := if rows == map[] then 0 else MaxIdx(rows) + 1;
      var rows' := Append(rows, value, maxLength, expiresAt);
      && next >= 0 && next !in rows && (forall i :: i in rows ==> i < next) && (next > 0 ==> next - 1 in rows)
      && (forall i: nat :: i in rows' <==> (i in rows || i == next) && (maxLength == 0 || next < maxLength || i > next - maxLength))
      && (forall i: nat :: i in rows' ==> rows'[i] == if i == next then Row(value, expiresAt) else rows[i])
  {
  }

  /** A cleanup deletes exactly the rows whose expiry has passed. */
  lemma CleanIs(rows: Rows, now: nat)
    ensures forall i: nat :: i in Clean(rows, now) <==> i in rows && (rows[i].expiresAt.Some? ==> rows[i].expiresAt.value >= now)
    ensures forall i: nat :: i in Clean(rows, now) ==> Clean(rows, now)[i] == rows[i]
  {
  }

  /** A dequeue removes the row with the lowest index and returns its value. */
  lemma DequeueIs(rows: Rows)
    requires rows != map[]
    ensures exists lowest: nat :: lowest in rows && (forall i :: i in rows ==> lowest <= i) &&
              Dequeue(rows) == (rows - {lowest}, Some(rows[lowest].value))
  {
    assert MinIdx(rows) in rows.Keys;
  }

  // ---------- The ideal: a sequence that drops its oldest ----------

  function IdealEnqueue(items: seq<Value>, value: Value, maxSize: int): seq<Value> {
    if maxSize < 0 then []
    else if maxSize == 0 || |items| < maxSize then items + [value]
    else items[|items| + 1 - maxSize..] + [value]
  }

  /** The rows are numbered without gaps from `lo` on and hold `items` in order, none of them with an expiry. */
  ghost predicate Holds(rows: Rows, lo: nat, items: seq<Value>) {
    && (forall i: nat :: i in rows <==> lo <= i < lo + |items|)
    && forall i: nat :: i in rows ==> rows[i] == Row(items[i - lo], None)
  }

  ghost predicate Represents(rows: Rows, items: seq<Value>) {
    exists lo: nat :: Holds(rows, lo, items)
  }

  lemma MaxOfHeld(rows: Rows, lo: nat, items: seq<Value>)
    requires Holds(rows, lo, items)
    ensures MaxIdx(rows) == if items == [] then -1 else lo + |items| - 1
  {
    if items == [] {
      assert rows == map[];
    } else {
      assert lo + |items| - 1 in rows;
    }
  }

  lemma {:induction false} HeldCount(rows: Rows, lo: nat, items: seq<Value>)
    requires Holds(rows, lo, items)
    ensures |rows| == |items|
    decreases |items|
  {
    if items == [] {
      assert rows == map[];
    } else {
      var rest := rows - {lo};
      assert lo in rows && rows.Keys == rest.Keys + {lo};
      assert Holds(rest, lo + 1, items[1..]);
      HeldCount(rest, lo + 1, items[1..]);
    }
  }

  /**
   One enqueue: with a maximum of at least 1 exactly the last min(len + 1, maxSize) entries stay;
   with 0 nothing is trimmed; with a negative one everything goes, the new entry included.
   */
  lemma EnqueueRefines(rows: Rows, items: seq<Value>, value: Value, maxSize: int)
    requires Represents(rows, items)
    ensures Represents(Enqueue(rows, value, maxSize), IdealEnqueue(items, value, maxSize))
    ensures |Enqueue(rows, value, maxSize)| == |IdealEnqueue(items, value, maxSize)|
  {
    var lo: nat :| Holds(rows, lo, items);
    MaxOfHeld(rows, lo, items);
    var rows', items' := Enqueue(rows, value, maxSize), IdealEnqueue(items, value, maxSize);
    // An empty queue starts numbering at 0 again.
    var base := if items == [] then 0 else lo;
    var next := base + |items|;
    var lo' := if maxSize < 0 then next + 1 else if maxSize == 0 || |items| < maxSize then base else next - maxSize + 1;
    assert next == MaxIdx(rows) + 1;
    forall i: nat ensures i in rows' <==> lo' <= i < lo' + |items'| {
    }
    assert Holds(rows', lo', items');
    HeldCount(rows', lo', items');
  }

  lemma DequeueRefines(rows: Rows, items: seq<Value>)
    requires Represents(rows, items)
    ensures Dequeue(rows).1 == if items == [] then None else Some(items[0])
    ensures Represents(Dequeue(rows).0, if items == [] then [] else items[1..])
  {
    var lo: nat :| Holds(rows, lo, items);
    if items == [] {
      assert rows == map[];
    } else {
      assert lo in rows;
      assert MinIdx(rows) == lo;
      assert Holds(rows - {lo}, lo + 1, items[1..]);
    }
  }

  lemma CleanKeepsQueue(rows: Rows, items: seq<Value>, now: nat)
    requires Represents(rows, items)
    ensures Clean(rows, now) == rows
  {
  }

  // ---------- Runs ----------

  /**
   The code awaits between the two halves of an enqueue, so they are two operations: the append, which
   answers nothing, and the count, which answers for the call.
   */
  datatype Op = Put(value: Value, maxSize: int) | Depth | Take | Cleanup(now: nat)

  datatype Output = Count(n: nat) | Taken(value: Option<Value>) | Nothing

  function Apply(rows: Rows, op: Op): (Rows, Output) {
    match op
    case Put(value, maxSize) => (Enqueue(rows, value, maxSize), Nothing)
    case Depth => (rows, Count(|rows|))
    case Take => (Dequeue(rows).0, Taken(Dequeue(rows).1))
    case Cleanup(now) => (Clean(rows, now), Nothing)
  }

  function ApplyIdeal(items: seq<Value>, op: Op): (seq<Value>, Output) {
    match op
    case Put(value, maxSize) => (IdealEnqueue(items, value, maxSize), Nothing)
    case Depth => (items, Count(|items|))
    case Take => if items == [] then (items, Taken(None)) else (items[1..], Taken(Some(items[0])))
    case Cleanup(_) => (items, Nothing)
  }

  function Outputs<T>(step: (T, Op) -> (T, Output), s: T, ops: seq<Op>): seq<Output>
    decreases |ops|
  {
    if ops == [] then [] else [step(s, ops[0]).1] + Outputs(step, step(s, ops[0]).0, ops[1..])
  }

  /** The state a run ends in. */
  function After<T>(step: (T, Op) -> (T, Output), s: T, ops: seq<Op>): T
    decreases |ops|
  {
    if ops == [] then s else After(step, step(s, ops[0]).0, ops[1..])
  }

  lemma StepRefines(rows: Rows, items: seq<Value>, op: Op)
    requires Represents(rows, items)
    ensures Represents(Apply(rows, op).0, ApplyIdeal(items, op).0)
    ensures Apply(rows, op).1 == ApplyIdeal(items, op).1
  {
    hide Enqueue, IdealEnqueue, Dequeue, Clean;
    match op
    case Put(value, maxSize) => EnqueueRefines(rows, items, value, maxSize);
    case Depth =>
      var lo: nat :| Holds(rows, lo, items);
      HeldCount(rows, lo, items);
    case Take => DequeueRefines(rows, items);
    case Cleanup(now) => CleanKeepsQueue(rows, items, now);
  }

  lemma {:induction false} RunRefines(rows: Rows, items: seq<Value>, ops: seq<Op>)
    requires Represents(rows, items)
    ensures Outputs(Apply, rows, ops) == Outputs(ApplyIdeal, items, ops)
    ensures Represents(After(Apply, rows, ops), After(ApplyIdeal, items, ops))
    decreases |ops|
  {
    hide Apply, ApplyIdeal, Represents;
    if ops != [] {
      StepRefines(rows, items, ops[0]);
      RunRefines(Apply(rows, ops[0]).0, ApplyIdeal(items, ops[0]).0, ops[1..]);
    }
  }

  /**
   Main result: over every run, in which the halves of enqueues and all other calls may interleave in
   any way, the stored queue answers like a first-in-first-out sequence that drops its oldest.
   */
  lemma QueueIsDropOldestFifo(ops: seq<Op>)
    ensures Outputs(Apply, map[], ops) == Outputs(ApplyIdeal, [], ops)
  {
    assert Holds(map[], 0, []);
    RunRefines(map[], [], ops);
  }

  // ---------- What an enqueue returns ----------

  /** The length of a queue of `n` entries after an operation. */
  function LengthAfter(n: nat, op: Op): nat {
    match op
    case Put(_, maxSize) => if maxSize < 0 then 0 else if maxSize == 0 || n < maxSize then n + 1 else maxSize
    case Take => if n == 0 then 0 else n - 1
    case _ => n
  }

  function LengthAfterAll(n: nat, ops: seq<Op>): nat
    decreases |ops|
  {
    if ops == [] then n else LengthAfterAll(LengthAfter(n, ops[0]), ops[1..])
  }

  lemma {:induction false} IdealLength(items: seq<Value>, ops: seq<Op>)
    ensures |After(ApplyIdeal, items, ops)| == LengthAfterAll(|items|, ops)
    decreases |ops|
  {
    if ops != [] {
      IdealLength(ApplyIdeal(items, ops[0]).0, ops[1..]);
    }
  }

  /** What a call of enqueue returns when `between` runs while it is suspended. */
  function Returned(rows: Rows, value: Value, maxSize: int, between: seq<Op>): nat {
    |After(Apply, Enqueue(rows, value, maxSize), between)|
  }

  /** The depth just after the call's own append. */
  function OwnDepth(items: seq<Value>, value: Value, maxSize: int): nat {
    LengthAfter(|items|, Put(value, maxSize))
  }

  /** The operation changes the length of a queue of `n` entries. */
  predicate Disturbs(n: nat, op: Op) {
    match op
    case Put(_, maxSize) => if maxSize > 0 then n != maxSize else maxSize == 0 || n != 0
    case Take => n != 0
    case _ => false
  }

  lemma DisturbsIs(n: nat, op: Op)
    ensures LengthAfter(n, op) == n <==> !Disturbs(n, op)
  {
  }

  /**
   An enqueue returns what the calls that ran in between have made of its own depth, which their kinds
   and sizes determine.
   */
  lemma EnqueueReturns(rows: Rows, items: seq<Value>, value: Value, maxSize: int, between: seq<Op>)
    requires Represents(rows, items)
    ensures Returned(rows, value, maxSize, between) == LengthAfterAll(OwnDepth(items, value, maxSize), between)
  {
    hide Represents, Enqueue, Apply, ApplyIdeal;
    var items' := IdealEnqueue(items, value, maxSize);
    EnqueueRefines(rows, items, value, maxSize);
    RunRefines(Enqueue(rows, value, maxSize), items', between);
    IdealLength(items', between);
    Counted(After(Apply, Enqueue(rows, value, maxSize), between), After(ApplyIdeal, items', between));
  }

  lemma Counted(rows: Rows, items: seq<Value>)
    requires Represents(rows, items)
    ensures |rows| == |items|
  {
    var lo: nat :| Holds(rows, lo, items);
    HeldCount(rows, lo, items);
  }

  lemma {:induction false} SteadyExactlyWhen(n: nat, ops: seq<Op>)
    ensures (forall k :: 0 <= k <= |ops| ==> LengthAfterAll(n, ops[..k]) == n) <==> forall i :: 0 <= i < |ops| ==> !Disturbs(n, ops[i])
    decreases |ops|
  {
    hide LengthAfter, Disturbs;
    if ops == [] {
      assert ops[..0] == [];
    } else {
      var rest := ops[1..];
      DisturbsIs(n, ops[0]);
      SteadyExactlyWhen(n, rest);
      FirstStep(n, ops);
      if Disturbs(n, ops[0]) {
        assert LengthAfterAll(n, ops[..1]) != n;
      } else {
        forall k | 0 <= k <= |rest| ensures LengthAfterAll(n, ops[..k + 1]) == LengthAfterAll(n, rest[..k]) {
          assert ops[..k + 1][1..] == rest[..k];
        }
        assert forall k :: 1 <= k <= |ops| ==> LengthAfterAll(n, ops[..k]) == LengthAfterAll(n, rest[..k - 1]);
        assert forall i :: 0 <= i < |rest| ==> rest[i] == ops[i + 1];
        assert forall i :: 1 <= i < |ops| ==> ops[i] == rest[i - 1];
      }
    }
  }

  lemma FirstStep(n: nat, ops: seq<Op>)
    requires ops != []
    ensures LengthAfterAll(n, ops[..0]) == n && LengthAfterAll(n, ops[..1]) == LengthAfter(n, ops[0])
  {
    assert ops[..1][1..] == [];
  }

  /**
   Main result: an enqueue returns the depth of its own append, whenever during `between` its second half
   comes, if and only if none of those calls changes the length of the queue: no put except on a queue that
   is full for it, and no take except of an empty one.  In particular this holds when there is no put or
   take between the halves at all.
   */
  lemma OwnDepthExactlyWhen(rows: Rows, items: seq<Value>, value: Value, maxSize: int, between: seq<Op>)
    requires Represents(rows, items)
    ensures
      var own := OwnDepth(items, value, maxSize);
      (forall k :: 0 <= k <= |between| ==> Returned(rows, value, maxSize, between[..k]) == own) <==>
      forall i :: 0 <= i < |between| ==> !Disturbs(own, between[i])
  {
    hide Represents, Returned, Disturbs, LengthAfterAll;
    forall k | 0 <= k <= |between|
      ensures Returned(rows, value, maxSize, between[..k]) == LengthAfterAll(OwnDepth(items, value, maxSize), between[..k])
    {
      EnqueueReturns(rows, items, value, maxSize, between[..k]);
    }
    SteadyExactlyWhen(OwnDepth(items, value, maxSize), between);
  }

  /** Two enqueues of the same moment on an empty queue both return 2; one overtaken by a dequeue returns 0. */
  lemma OverlappingEnqueues(a: Value, b: Value, maxSize: int)
    requires maxSize == 0 || maxSize >= 2
    ensures Outputs(Apply, map[], [Put(a, maxSize), Put(b, maxSize), Depth, Depth]) == [Nothing, Nothing, Count(2), Count(2)]
    ensures Outputs(Apply, map[], [Put(a, maxSize), Take, Depth]) == [Nothing, Taken(Some(a)), Count(0)]
  {
    hide Apply;
    QueueIsDropOldestFifo([Put(a, maxSize), Put(b, maxSize), Depth, Depth]);
    QueueIsDropOldestFifo([Put(a, maxSize), Take, Depth]);
    assert [] + [a] == [a] && [a] + [b] == [a, b] && [a][1..] == [];
    assert ApplyIdeal([], Put(a, maxSize)) == ([a], Nothing);
    assert ApplyIdeal([a], Put(b, maxSize)) == ([a, b], Nothing);
    assert ApplyIdeal([a], Take) == ([], Taken(Some(a)));
    FourOutputs([], Put(a, maxSize), Put(b, maxSize), Depth, Depth);
    ThreeOutputs([], Put(a, maxSize), Take, Depth);
  }

  lemma ThreeOutputs(s: seq<Value>, a: Op, b: Op, c: Op)
    ensures
      var s1 := ApplyIdeal(s, a).0;
      var s2 := ApplyIdeal(s1, b).0;
      Outputs(ApplyIdeal, s, [a, b, c]) == [ApplyIdeal(s, a).1, ApplyIdeal(s1, b).1, ApplyIdeal(s2, c).1]
  {
    hide ApplyIdeal;
    var s1 := ApplyIdeal(s, a).0;
    var s2 := ApplyIdeal(s1, b).0;
    assert [a, b, c][1..] == [b, c] && [b, c][1..] == [c] && [c][1..] == [];
    assert Outputs(ApplyIdeal, s2, [c]) == [ApplyIdeal(s2, c).1];
    assert Outputs(ApplyIdeal, s1, [b, c]) == [ApplyIdeal(s1, b).1, ApplyIdeal(s2, c).1];
  }

  lemma FourOutputs(s: seq<Value>, a: Op, b: Op, c: Op, d: Op)
    ensures
      var s1 := ApplyIdeal(s, a).0;
      var s2 := ApplyIdeal(s1, b).0;
      var s3 := ApplyIdeal(s2, c).0;
      Outputs(ApplyIdeal, s, [a, b, c, d]) ==
      [ApplyIdeal(s, a).1, ApplyIdeal(s1, b).1, ApplyIdeal(s2, c).1, ApplyIdeal(s3, d).1]
  {
    hide ApplyIdeal;
    assert [a, b, c, d][1..] == [b, c, d];
    ThreeOutputs(ApplyIdeal(s, a).0, b, c, d);
  }

  /**
   What the ideal promises: with a maximum of at least 1 the new entry is last and at most `maxSize` stay,
   the newest ones; with 0 the new entry is last and all stay; with a negative one nothing does.
   */
  lemma IdealKeepsNewest(items: seq<Value>, value: Value, maxSize: int)
    ensures
      var kept := IdealEnqueue(items, value, maxSize);
      var n := if maxSize < 0 then 0 else if maxSize == 0 || |items| + 1 <= maxSize then |items| + 1 else maxSize;
      |kept| == n && kept == (items + [value])[|items| + 1 - n..]
  {
  }
}
