/** The SQLite state adapter (src/state-sqlite.ts) over its three tables; `now` is what Date.now() returns in a call, the first time. */
module StateAdapter {
  import opened Options
  import KeyValue
  import Locks
  import Lists

  class SqliteStateAdapter {
    var kv: KeyValue.Table
    var lists: map<string, Lists.Rows>
    var locks: map<Locks.Thread, Locks.Row>
    /** The lock objects handed out, and the number of tokens issued. */
    var leases: map<Locks.Token, Locks.Lease>
    var nextToken: Locks.Token

    ghost function LockView(now: nat): Locks.State
      reads this
    {
      Locks.State(now, locks, leases, nextToken)
    }

    function Rows(key: string): Lists.Rows
      reads this
    {
      if key in lists then lists[key] else map[]
    }

    /** Every table loses its expired rows. */
    method Cleanup(now: nat)
      modifies this`kv, this`lists, this`locks
      ensures kv == KeyValue.Apply(old(kv), now, KeyValue.Cleanup).0
      ensures LockView(now) == Locks.Step(old(LockView(now)), Locks.Cleanup)
      ensures forall key :: Rows(key) == Lists.Clean(old(Rows(key)), now)
    {
      kv := map k | k in kv && !(kv[k].expiresAt.Some? && kv[k].expiresAt.value < now) :: kv[k];
      locks := map t | t in locks && locks[t].expiresAt >= now :: locks[t];
      lists := map key | key in lists :: Lists.Clean(lists[key], now);
    }

    /** The clock is read by the cleanup, at `now`, and again `pause` later for the test on the row found. */
    method Get(key: string, now: nat, pause: nat) returns (r: Option<string>)
      modifies this`kv, this`lists, this`locks
      ensures KeyValue.Apply(old(kv), now, KeyValue.Get(key, pause)) == (kv, KeyValue.Found(r))
      ensures LockView(now) == Locks.Step(old(LockView(now)), Locks.Cleanup)
      ensures forall key :: Rows(key) == Lists.Clean(old(Rows(key)), now)
    {
      Cleanup(now);
      if key !in kv {
        return None;
      }
      var row := kv[key];
      if row.expiresAt.Some? && row.expiresAt.value != 0 && row.expiresAt.value < now + pause {
        kv := kv - {key};
        return None;
      }
      r := Some(row.value);
    }

    method Set(key: string, value: string, ttl: nat, now: nat)
      modifies this`kv
      ensures kv == KeyValue.Apply(old(kv), now, KeyValue.Set(key, value, ttl)).0
    {
      var expiresAt := if ttl != 0 then Some(now + ttl) else None;
      kv := kv[key := KeyValue.Entry(value, expiresAt)];
    }

    method SetIfNotExists(key: string, value: string, ttl: nat, now: nat, pause: nat) returns (inserted: bool)
      modifies this`kv
      ensures KeyValue.Apply(old(kv), now, KeyValue.SetIfNotExists(key, value, ttl, pause)) == (kv, KeyValue.Inserted(inserted))
    {
      if key in kv && kv[key].expiresAt.Some? && kv[key].expiresAt.value != 0 && kv[key].expiresAt.value < now {
        kv := kv - {key};
      }
      var expiresAt := if ttl != 0 then Some(now + pause + ttl) else None;
      inserted := key !in kv;
      if inserted {
        kv := kv[key := KeyValue.Entry(value, expiresAt)];
      }
    }

    method Delete(key: string)
      modifies this`kv
      ensures forall now :: kv == KeyValue.Apply(old(kv), now, KeyValue.Delete(key)).0
    {
      kv := kv - {key};
    }

    method AcquireLock(thread: string, ttl: nat, now: nat) returns (token: Option<Locks.Token>)
      modifies this`locks, this`leases, this`nextToken
      ensures LockView(now) == Locks.Step(old(LockView(now)), Locks.AcquireLock(thread, ttl))
      ensures token == if old(Locks.Acquirable(LockView(now), thread)) then Some(old(nextToken)) else None
    {
      if thread in locks && locks[thread].expiresAt < now {
        locks := locks - {thread};
      }
      if thread in locks {
        return None;
      }
      token := Some(nextToken);
      locks := locks[thread := Locks.Row(nextToken, now + ttl)];
      leases := leases[nextToken := Locks.Lease(thread, now + ttl, false)];
      nextToken := nextToken + 1;
    }

    method ReleaseLock(token: Locks.Token, now: nat)
      requires token in leases
      modifies this`locks, this`leases
      ensures LockView(now) == Locks.Step(old(LockView(now)), Locks.ReleaseLock(token))
    {
      var lease := leases[token];
      if lease.thread in locks && locks[lease.thread].token == token {
        locks := locks - {lease.thread};
      }
      leases := leases[token := lease.(released := true)];
    }

    method ExtendLock(token: Locks.Token, ttl: nat, now: nat) returns (extended: bool)
      requires token in leases
      modifies this`locks, this`leases
      ensures LockView(now) == Locks.Step(old(LockView(now)), Locks.ExtendLock(token, ttl))
      ensures extended == old(Locks.Holds(LockView(now), token))
    {
      var lease := leases[token];
      extended := lease.thread in locks && locks[lease.thread].token == token;
      if extended {
        locks := locks[lease.thread := Locks.Row(token, now + ttl)];
        leases := leases[token := lease.(expiresAt := now + ttl)];
      }
    }

    method ForceReleaseLock(thread: string)
      modifies this`locks
      ensures forall now :: LockView(now) == Locks.Step(old(LockView(now)), Locks.ForceRelease(thread))
    {
      locks := locks - {thread};
    }

    method AppendToList(key: string, value: string, maxLength: int, expiresAt: Option<nat>)
      modifies this`lists
      ensures Rows(key) == Lists.Append(old(Rows(key)), value, maxLength, expiresAt)
      ensures forall other :: other != key ==> Rows(other) == old(Rows(other))
    {
      var rows := Rows(key);
      var next := Lists.MaxIdx(rows) + 1;
      rows := rows[next := Lists.Row(value, expiresAt)];
      if maxLength != 0 {
        var cutoff := next - maxLength;
        if cutoff >= 0 {
          rows := map i | i in rows && i > cutoff :: rows[i];
        }
      }
      lists := lists[key := rows];
    }

    /** enqueue up to its await. */
    method BeginEnqueue(thread: string, entry: string, maxSize: int)
      modifies this`lists
      ensures Lists.Apply(old(Rows("queue:" + thread)), Lists.Put(entry, maxSize)) == (Rows("queue:" + thread), Lists.Nothing)
      ensures forall other :: other != "queue:" + thread ==> Rows(other) == old(Rows(other))
    {
      AppendToList("queue:" + thread, entry, maxSize, None);
    }

    /** The rest of enqueue, on the queue as it is by then; the result is what the call returns. */
    method ResumeEnqueue(thread: string) returns (depth: nat)
      ensures forall items :: Lists.Represents(Rows("queue:" + thread), items) ==> depth == |items|
      ensures Lists.Apply(Rows("queue:" + thread), Lists.Depth) == (Rows("queue:" + thread), Lists.Count(depth))
    {
      depth := QueueDepth(thread);
    }

    /** Counting the rows gives the length of the queue they hold. */
    method QueueDepth(thread: string) returns (depth: nat)
      ensures forall items :: Lists.Represents(Rows("queue:" + thread), items) ==> depth == |items|
      ensures Lists.Apply(Rows("queue:" + thread), Lists.Depth) == (Rows("queue:" + thread), Lists.Count(depth))
    {
      depth := |Rows("queue:" + thread)|;
      forall items | Lists.Represents(Rows("queue:" + thread), items) ensures depth == |items| {
        Lists.Counted(Rows("queue:" + thread), items);
      }
    }

    method Dequeue(thread: string) returns (entry: Option<string>)
      modifies this`lists
      ensures Lists.Apply(old(Rows("queue:" + thread)), Lists.Take) == (Rows("queue:" + thread), Lists.Taken(entry))
      ensures forall other :: other != "queue:" + thread ==> Rows(other) == old(Rows(other))
    {
      var key := "queue:" + thread;
      var rows := Rows(key);
      if rows == map[] {
        return None;
      }
      var idx := Lists.MinIdx(rows);
      entry := Some(rows[idx].value);
      lists := lists[key := rows - {idx}];
    }
  }
}
