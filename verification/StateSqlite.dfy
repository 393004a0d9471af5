/** `SqliteStateAdapter` of src/state-sqlite.ts: the class over its three tables. Every method reads the clock
    through its arguments, one for each `Date.now()` it evaluates. */
module StateSqlite {
  import opened Prelude
  import TimedMap
  import Lease
  import TrimmedList

  /** The lock object handed to a holder; `extendLock` updates it in place. */
  class Lock {
    const threadId: string
    const token: string
    var expiresAt: int

    constructor (threadId: string, token: string, expiresAt: int)
      ensures this.threadId == threadId && this.token == token && this.expiresAt == expiresAt
    {
      this.threadId, this.token, this.expiresAt := threadId, token, expiresAt;
    }
  }

  class SqliteStateAdapter {
    var kv: TimedMap.Table
    var locks: Lease.Table
    var lists: TrimmedList.Table

    constructor ()
      ensures kv == map[] && locks == map[] && lists == map[]
    {
      kv, locks, lists := map[], map[], map[];
    }

    /** `expires_at` is absent, or not before that time. */
    static ghost predicate LivesOn(expiresAt: Option<int>, now: int) {
      expiresAt.Some? ==> expiresAt.value >= now
    }

    /** `expires_at` is there, not 0, and before that time. */
    static ghost predicate Shut(expiresAt: Option<int>, now: int) {
      expiresAt.Some? && expiresAt.value != 0 && expiresAt.value < now
    }

    // ---- Key-value ----

    method Get(key: string, swept: int, read: int) returns (value: Option<string>)
      modifies this
      ensures (kv, TimedMap.Found(value)) == TimedMap.Lazy(old(kv), TimedMap.Get(key, swept, read))
      ensures locks == Lease.Swept(old(locks), swept) && lists == TrimmedList.Swept(old(lists), swept)
      ensures value ==
              if key in old(kv) && LivesOn(old(kv)[key].expiresAt, swept) && !Shut(old(kv)[key].expiresAt, read)
              then Some(old(kv)[key].value) else None
    {
      Cleanup(swept);
      if key !in kv {
        return None;
      }
      var row := kv[key];
      if row.expiresAt.Some? && row.expiresAt.value != 0 && row.expiresAt.value < read {
        kv := kv - {key};
        return None;
      }
      value := Some(row.value);
    }

    method Set(key: string, value: string, ttl: int, now: int)
      modifies `kv
      ensures kv == TimedMap.Lazy(old(kv), TimedMap.Set(key, value, ttl, now)).0
      ensures kv == old(kv)[key := TimedMap.Entry(value, if ttl == 0 then None else Some(now + ttl))]
    {
      var expiresAt := if ttl != 0 then Some(now + ttl) else None;
      kv := kv[key := TimedMap.Entry(value, expiresAt)];
    }

    method SetIfNotExists(key: string, value: string, ttl: int, checked: int, now: int) returns (stored: bool)
      modifies `kv
      ensures (kv, TimedMap.Stored(stored))
              == TimedMap.Lazy(old(kv), TimedMap.SetIfNotExists(key, value, ttl, checked, now))
      ensures stored <==> key !in old(kv) || Shut(old(kv)[key].expiresAt, checked)
      ensures kv == if !stored then old(kv) else
                old(kv)[key := TimedMap.Entry(value, if ttl == 0 then None else Some(now + ttl))]
    {
      if key in kv {
        var expiry := kv[key].expiresAt;
        if expiry.Some? && expiry.value != 0 && expiry.value < checked {
          kv := kv - {key};
        }
      }
      var expiresAt := if ttl != 0 then Some(now + ttl) else None;
      stored := key !in kv;
      if stored {
        kv := kv[key := TimedMap.Entry(value, expiresAt)];
      }
    }

    method Delete(key: string, now: int)
      modifies `kv
      ensures kv == TimedMap.Lazy(old(kv), TimedMap.Delete(key, now)).0
      ensures kv == old(kv) - {key}
    {
      kv := kv - {key};
    }

    // ---- Locks ----

    method AcquireLock(threadId: string, ttl: int, now: int, token: string) returns (lock: Lock?)
      modifies `locks
      ensures
        var op := Lease.Acquire(threadId, token, ttl, now);
        && locks == Lease.Step(old(locks), op)
        && (lock != null <==> Lease.Granted(old(locks), op))
        && (lock != null ==> fresh(lock) && Matches(lock) && lock.threadId == threadId && lock.token == token)
      ensures lock != null <==> threadId !in old(locks) || old(locks)[threadId].expiresAt < now
      ensures locks == if lock == null then old(locks) else old(locks)[threadId := Lease.Row(token, now + ttl)]
    {
      var expiresAt := now + ttl;
      if threadId in locks && locks[threadId].expiresAt < now {
        locks := locks - {threadId};
      }
      if threadId in locks {
        return null;
      }
      locks := locks[threadId := Lease.Row(token, expiresAt)];
      lock := new Lock(threadId, token, expiresAt);
    }

    /** The holder's object shows the expiry its row has. */
    ghost predicate Matches(lock: Lock)
      reads this, lock
    {
      lock.threadId in locks && locks[lock.threadId] == Lease.Row(lock.token, lock.expiresAt)
    }

    method ReleaseLock(lock: Lock)
      modifies `locks
      ensures locks == Lease.Step(old(locks), Lease.Release(lock.threadId, lock.token))
      ensures locks ==
              if lock.threadId in old(locks) && old(locks)[lock.threadId].token == lock.token
              then old(locks) - {lock.threadId} else old(locks)
    {
      if lock.threadId in locks && locks[lock.threadId].token == lock.token {
        locks := locks - {lock.threadId};
      }
    }

    method ExtendLock(lock: Lock, ttl: int, now: int) returns (extended: bool)
      modifies `locks, lock
      ensures
        var op := Lease.Extend(lock.threadId, lock.token, ttl, now);
        && locks == Lease.Step(old(locks), op)
        && (extended <==> Lease.Granted(old(locks), op))
      ensures if extended then Matches(lock) else lock.expiresAt == old(lock.expiresAt)
      ensures extended <==> lock.threadId in old(locks) && old(locks)[lock.threadId].token == lock.token
      ensures locks ==
              if extended then old(locks)[lock.threadId := Lease.Row(lock.token, now + ttl)] else old(locks)
    {
      var newExpiry := now + ttl;
      if lock.threadId in locks && locks[lock.threadId].token == lock.token {
        locks := locks[lock.threadId := locks[lock.threadId].(expiresAt := newExpiry)];
        lock.expiresAt := newExpiry;
        return true;
      }
      extended := false;
    }

    method ForceReleaseLock(threadId: string)
      modifies `locks
      ensures locks == Lease.Step(old(locks), Lease.ForceRelease(threadId))
      ensures locks == old(locks) - {threadId}
    {
      locks := locks - {threadId};
    }

    // ---- Lists ----

    method AppendToList(key: string, value: string, maxLength: int, ttl: int, now: int)
      modifies `lists
      ensures lists == TrimmedList.Append(
                         old(lists), key, TrimmedList.Row(value, TimedMap.Expiry(ttl, now)), maxLength)
      ensures exists next: nat ::
                && IsNext(old(lists), key, next)
                && Appended(old(lists), lists, key, next, maxLength,
                     TrimmedList.Row(value, if ttl == 0 then None else Some(now + ttl)))
    {
      var expiresAt := if ttl != 0 then Some(now + ttl) else None;
      var nextIdx := TrimmedList.MaxIdx(lists, key) + 1;
      TrimmedList.NextIndexIsFree(lists, key);
      AtEnd(lists, key, nextIdx);
      lists := lists[(key, nextIdx) := TrimmedList.Row(value, expiresAt)];
      if maxLength != 0 {
        var cutoff := nextIdx - maxLength;
        if cutoff >= 0 {
          lists := map k | k in lists && !(k.0 == key && k.1 <= cutoff) :: lists[k];
        }
      }
      assert IsNext(old(lists), key, nextIdx);
      assert Appended(old(lists), lists, key, nextIdx, maxLength, TrimmedList.Row(value, expiresAt));
    }

    /** The index after the last of the rows under the key. */
    static ghost predicate IsNext(t: TrimmedList.Table, key: string, next: nat) {
      (forall i :: (key, i) in t ==> i < next) && (next > 0 ==> (key, next - 1) in t)
    }

    /** The new row is there at the next index, and of the rows under the key the last `maxLength` indices are left; a
        `maxLength` of 0 leaves all. */
    static ghost predicate Appended(
        before: TrimmedList.Table, after: TrimmedList.Table, key: string, next: nat, maxLength: int,
        row: TrimmedList.Row)
    {
      && (forall k :: k in after <==>
            (k in before || k == (key, next)) && !(k.0 == key && maxLength != 0 && k.1 + maxLength <= next))
      && (forall k :: k in after ==> after[k] == if k == (key, next) then row else before[k])
    }

    /** The values that are not expired, in the order of their indices. */
    method GetList(key: string, now: int) returns (values: seq<string>)
      ensures TrimmedList.IsListing(lists, key, now, values)
    {
      TrimmedList.GetListIsListing(lists, key, now);
      values := TrimmedList.GetList(lists, key, now);
    }

    // ---- Queue ----

    /** Undisturbed between its two halves. */
    method Enqueue(threadId: string, entry: string, maxSize: int, now: int) returns (depth: nat)
      modifies `lists
      ensures lists == TrimmedList.Step(old(lists), TrimmedList.Enqueue(threadId, entry, maxSize)).0
      ensures TrimmedList.Count(depth) == TrimmedList.Step(lists, TrimmedList.Depth(threadId)).1
    {
      AppendToList("queue:" + threadId, entry, maxSize, 0, now);
      depth := QueueDepth(threadId);
    }

    method Dequeue(threadId: string) returns (entry: Option<string>)
      modifies `lists
      ensures (lists, TrimmedList.Taken(entry)) == TrimmedList.Step(old(lists), TrimmedList.Dequeue(threadId))
      ensures
        var key := "queue:" + threadId;
        if forall i :: (key, i) !in old(lists) then entry == None && lists == old(lists)
        else exists i: nat ::
               && (key, i) in old(lists) && (forall j :: (key, j) in old(lists) ==> i <= j)
               && entry == Some(old(lists)[(key, i)].value) && lists == old(lists) - {(key, i)}
    {
      var key := "queue:" + threadId;
      assert forall i :: i in TrimmedList.Indices(lists, key) <==> (key, i) in lists;
      if TrimmedList.Indices(lists, key) == {} {
        return None;
      }
      var idx := TrimmedList.MinIdx(lists, key);
      entry := Some(lists[(key, idx)].value);
      lists := lists - {(key, idx)};
    }

    method QueueDepth(threadId: string) returns (depth: nat)
      ensures TrimmedList.Count(depth) == TrimmedList.Step(lists, TrimmedList.Depth(threadId)).1
    {
      depth := |TrimmedList.Indices(lists, "queue:" + threadId)|;
    }

    // ---- Cleanup ----

    method Cleanup(now: int)
      modifies this
      ensures kv == TimedMap.Swept(old(kv), now)
      ensures locks == Lease.Swept(old(locks), now)
      ensures lists == TrimmedList.Swept(old(lists), now)
      ensures forall k :: k in kv <==> k in old(kv) && LivesOn(old(kv)[k].expiresAt, now)
      ensures forall k :: k in locks <==> k in old(locks) && old(locks)[k].expiresAt >= now
      ensures forall k :: k in lists <==> k in old(lists) && LivesOn(old(lists)[k].expiresAt, now)
      ensures (forall k :: k in kv ==> kv[k] == old(kv)[k]) && (forall k :: k in locks ==> locks[k] == old(locks)[k])
      ensures forall k :: k in lists ==> lists[k] == old(lists)[k]
    {
      kv := map k | k in kv && !(kv[k].expiresAt.Some? && kv[k].expiresAt.value < now) :: kv[k];
      locks := map k | k in locks && !(locks[k].expiresAt < now) :: locks[k];
      lists := map k | k in lists && !(lists[k].expiresAt.Some? && lists[k].expiresAt.value < now) :: lists[k];
    }
  }

  lemma AtEnd(t: TrimmedList.Table, key: string, next: nat)
    requires next == TrimmedList.MaxIdx(t, key) + 1
    ensures SqliteStateAdapter.IsNext(t, key, next)
  {
    assert forall i :: i in TrimmedList.Indices(t, key) <==> (key, i) in t;
  }
}
