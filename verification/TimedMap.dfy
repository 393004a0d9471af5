/** The `chat_sdk_kv` table of src/state-sqlite.ts as values: entries that expire, removed lazily. Clock
    readings are arguments, one for each `Date.now()` the source evaluates; values are their JSON text. */
module TimedMap {
  import opened Prelude

  datatype Entry = Entry(value: string, expiresAt: Option<int>)

  type Table = map<string, Entry>

  // ---- The table operations ----

  /** `expires_at IS NOT NULL AND expires_at < ?` */
  predicate Expired(e: Entry, now: int) {
    e.expiresAt.Some? && e.expiresAt.value < now
  }

  /** `row.expires_at && row.expires_at < Date.now()`: an expiry of 0 is falsy, so it never passes this test. */
  predicate SeenExpired(e: Entry, now: int) {
    e.expiresAt.Some? && e.expiresAt.value != 0 && e.expiresAt.value < now
  }

  /** `ttlMs ? Date.now() + ttlMs : null`, an absent ttl standing for 0. */
  function Expiry(ttl: int, now: int): Option<int> {
    if ttl == 0 then None else Some(now + ttl)
  }

  /** The table without its expired rows: what `cleanup` leaves. */
  function Swept(t: Table, now: int): Table {
    map k | k in t && !Expired(t[k], now) :: t[k]
  }

  datatype Answer = Found(value: Option<string>) | Stored(isNew: bool) | Done

  datatype Op =
    | Get(key: string, swept: int, read: int)
    | Set(key: string, value: string, ttl: int, at: int)
    | SetIfNotExists(key: string, value: string, ttl: int, checked: int, at: int)
    | Delete(key: string, at: int)
    | Cleanup(at: int)

  function Lazy(t: Table, op: Op): (Table, Answer) {
    match op
    case Get(key, swept, read) =>
      var t1 := Swept(t, swept);
      if key !in t1 then (t1, Found(None))
      else if SeenExpired(t1[key], read) then (t1 - {key}, Found(None))
      else (t1, Found(Some(t1[key].value)))
    case Set(key, value, ttl, at) => (t[key := Entry(value, Expiry(ttl, at))], Done)
    case SetIfNotExists(key, value, ttl, checked, at) =>
      var t1 := if key in t && SeenExpired(t[key], checked) then t - {key} else t;
      if key in t1 then (t1, Stored(false)) else (t1[key := Entry(value, Expiry(ttl, at))], Stored(true))
    case Delete(key, _) => (t - {key}, Done)
    case Cleanup(at) => (Swept(t, at), Done)
  }

  // ---- The simple object: every entry vanishes the moment its expiry is past ----

  function Eager(t: Table, op: Op): (Table, Answer) {
    var live := Swept(t, Moment(op));
    match op
    case Get(key, _, _) => (live, Found(if key in live then Some(live[key].value) else None))
    case Set(key, value, ttl, at) => (live[key := Entry(value, Expiry(ttl, at))], Done)
    case SetIfNotExists(key, value, ttl, _, at) =>
      if key in live then (live, Stored(false))
      else (live[key := Entry(value, Expiry(ttl, at))], Stored(true))
    case Delete(key, _) => (live - {key}, Done)
    case Cleanup(_) => (live, Done)
  }

  /** When an operation takes effect. */
  function Moment(op: Op): int {
    match op
    case Get(_, _, read) => read
    case SetIfNotExists(_, _, _, checked, _) => checked
    case Set(_, _, _, at) => at
    case Delete(_, at) => at
    case Cleanup(at) => at
  }

  function Begins(op: Op): int {
    if op.Get? then op.swept else Moment(op)
  }

  function Ends(op: Op): int {
    if op.SetIfNotExists? then op.at else Moment(op)
  }

  function LazyAnswers(t: Table, ops: seq<Op>): seq<Answer>
    decreases |ops|
  {
    if ops == [] then [] else [Lazy(t, ops[0]).1] + LazyAnswers(Lazy(t, ops[0]).0, ops[1..])
  }

  function EagerAnswers(t: Table, ops: seq<Op>): seq<Answer>
    decreases |ops|
  {
    if ops == [] then [] else [Eager(t, ops[0]).1] + EagerAnswers(Eager(t, ops[0]).0, ops[1..])
  }

  // ---- The clock ----

  /** The clock never runs backwards, and no expiry lands exactly on 0. A positive clock with non-negative
      ttls, which is all the callers use, never does. */
  predicate Timely(ops: seq<Op>, now: int) {
    ops == [] || (now <= Begins(ops[0]) <= Ends(ops[0]) && !ExpiresAtZero(ops[0]) && Timely(ops[1..], Ends(ops[0])))
  }

  predicate ExpiresAtZero(op: Op) {
    (op.Set? || op.SetIfNotExists?) && op.ttl != 0 && op.at + op.ttl == 0
  }

  // ---- Refinement ----

  predicate NoZero(t: Table) {
    forall k :: k in t ==> t[k].expiresAt != Some(0)
  }

  /** What a key holds at a moment. */
  function LiveAt(t: Table, key: string, now: int): Option<Entry> {
    if key in t && !Expired(t[key], now) then Some(t[key]) else None
  }

  /** The two tables agree on what is still alive. */
  ghost predicate Agree(lazy: Table, eager: Table, now: int) {
    NoZero(lazy) && NoZero(eager) && forall k :: LiveAt(lazy, k, now) == LiveAt(eager, k, now)
  }

  lemma SweptIsInvisible(t: Table, early: int, late: int)
    requires early <= late && NoZero(t)
    ensures NoZero(Swept(t, early))
    ensures forall k :: LiveAt(Swept(t, early), k, late) == LiveAt(t, k, late)
  {
  }

  lemma StillAgree(lazy: Table, eager: Table, early: int, late: int)
    requires Agree(lazy, eager, early) && early <= late
    ensures Agree(lazy, eager, late)
  {
    forall k ensures LiveAt(lazy, k, late) == LiveAt(eager, k, late) {
      assert LiveAt(lazy, k, early) == LiveAt(eager, k, early);
    }
  }

  lemma SweptAgree(lazy: Table, eager: Table, early: int, now: int)
    requires Agree(lazy, eager, now) && early <= now
    ensures Agree(Swept(lazy, early), Swept(eager, now), now)
  {
    SweptIsInvisible(lazy, early, now);
    SweptIsInvisible(eager, now, now);
  }

  lemma WriteAgrees(lazy: Table, eager: Table, now: int, key: string, e: Entry)
    requires Agree(lazy, eager, now) && e.expiresAt != Some(0)
    ensures Agree(lazy[key := e], eager[key := e], now)
  {
    var lazy1, eager1 := lazy[key := e], eager[key := e];
    forall k ensures LiveAt(lazy1, k, now) == LiveAt(eager1, k, now) {
      assert LiveAt(lazy, k, now) == LiveAt(eager, k, now);
    }
  }

  lemma DeleteAgrees(lazy: Table, eager: Table, now: int, key: string)
    requires Agree(lazy, eager, now)
    ensures Agree(lazy - {key}, eager - {key}, now)
    ensures LiveAt(eager, key, now).None? ==> Agree(lazy - {key}, eager, now)
  {
    forall k ensures LiveAt(lazy - {key}, k, now) == LiveAt(eager - {key}, k, now) {
      assert LiveAt(lazy, k, now) == LiveAt(eager, k, now);
    }
    forall k | LiveAt(eager, key, now).None? ensures LiveAt(lazy - {key}, k, now) == LiveAt(eager, k, now) {
      assert LiveAt(lazy, k, now) == LiveAt(eager, k, now);
    }
  }

  lemma StepAgrees(lazy: Table, eager: Table, now: int, op: Op)
    requires Agree(lazy, eager, now)
    requires now <= Begins(op) <= Ends(op) && !ExpiresAtZero(op)
    ensures Lazy(lazy, op).1 == Eager(eager, op).1
    ensures Agree(Lazy(lazy, op).0, Eager(eager, op).0, Ends(op))
  {
    var m := Moment(op);
    StillAgree(lazy, eager, now, m);
    var live := Swept(eager, m);
    SweptIsInvisible(eager, m, m);
    match op
    case Get(key, swept, read) =>
      SweptAgree(lazy, eager, swept, read);
      DeleteAgrees(Swept(lazy, swept), live, read, key);
      assert LiveAt(Swept(lazy, swept), key, read) == LiveAt(live, key, read);
    case Set(key, value, ttl, at) =>
      WriteAgrees(lazy, live, at, key, Entry(value, Expiry(ttl, at)));
    case SetIfNotExists(key, value, ttl, checked, at) =>
      assert LiveAt(lazy, key, checked) == LiveAt(live, key, checked);
      DeleteAgrees(lazy, live, checked, key);
      var l1 := if key in lazy && SeenExpired(lazy[key], checked) then lazy - {key} else lazy;
      assert Agree(l1, live, checked);
      WriteAgrees(l1, live, checked, key, Entry(value, Expiry(ttl, at)));
      StillAgree(Lazy(lazy, op).0, Eager(eager, op).0, checked, at);
    case Delete(key, at) =>
      DeleteAgrees(lazy, live, at, key);
    case Cleanup(at) =>
      SweptAgree(lazy, eager, at, at);
  }

  lemma {:induction false} RunAgrees(lazy: Table, eager: Table, now: int, ops: seq<Op>)
    requires Agree(lazy, eager, now) && Timely(ops, now)
    ensures LazyAnswers(lazy, ops) == EagerAnswers(eager, ops)
    decreases |ops|
  {
    if ops != [] {
      StepAgrees(lazy, eager, now, ops[0]);
      RunAgrees(Lazy(lazy, ops[0]).0, Eager(eager, ops[0]).0, Ends(ops[0]), ops[1..]);
    }
  }

  /** Lazy clean-up is invisible: over any run, the table answers as if entries vanished on time. */
  lemma {:induction false} LazyIsEager(ops: seq<Op>, now: int)
    requires Timely(ops, now)
    ensures LazyAnswers(map[], ops) == EagerAnswers(map[], ops)
  {
    RunAgrees(map[], map[], now, ops);
  }

  /** `setIfNotExists` stores exactly when no live entry is there, and then the key holds the new value. */
  lemma SetIfNotExistsIsExact(t: Table, key: string, value: string, ttl: int, checked: int, at: int)
    requires NoZero(t)
    ensures
      var (t1, answer) := Lazy(t, SetIfNotExists(key, value, ttl, checked, at));
      && (answer == Stored(true) <==> key !in Swept(t, checked))
      && key in t1
      && t1[key] == if answer == Stored(true) then Entry(value, Expiry(ttl, at)) else t[key]
  {
  }

  // ---- What a time to live means ----

  function LazyRun(t: Table, ops: seq<Op>): Table
    decreases |ops|
  {
    if ops == [] then t else Lazy(LazyRun(t, ops[..|ops| - 1]), ops[|ops| - 1]).0
  }

  /** The operation of that index wrote the key: a `set`, or a `setIfNotExists` that stored. */
  predicate Writes(ops: seq<Op>, i: int, key: string)
    requires 0 <= i < |ops|
  {
    var op := ops[i];
    || (op.Set? && op.key == key)
    || (op.SetIfNotExists? && op.key == key && Lazy(LazyRun(map[], ops[..i]), op).1 == Stored(true))
  }

  /** It wrote the key, and nothing wrote or deleted the key later. */
  ghost predicate LastWrite(ops: seq<Op>, i: int, key: string) {
    && 0 <= i < |ops| && Writes(ops, i, key)
    && forall k :: i < k < |ops| ==> !Writes(ops, k, key) && !(ops[k].Delete? && ops[k].key == key)
  }

  /** The write's time to live is not over at that time; none, or 0, never is. */
  predicate StillLives(op: Op, now: int)
    requires op.Set? || op.SetIfNotExists?
  {
    op.ttl == 0 || op.at + op.ttl >= now
  }

  function TimeAfter(ops: seq<Op>, now: int): int {
    if ops == [] then now else Ends(ops[|ops| - 1])
  }

  lemma {:induction false} TimelyButLast(ops: seq<Op>, op: Op, now: int)
    requires Timely(ops + [op], now)
    ensures Timely(ops, now) && TimeAfter(ops, now) <= Begins(op) <= Ends(op) && !ExpiresAtZero(op)
    decreases |ops|
  {
    if ops != [] {
      assert (ops + [op])[1..] == ops[1..] + [op];
      TimelyButLast(ops[1..], op, Ends(ops[0]));
    } else {
      assert ([] + [op])[1..] == [];
    }
  }

  /** What the table has for a key that a write set last. */
  ghost predicate KeepsWrite(t: Table, key: string, op: Op, now: int)
    requires op.Set? || op.SetIfNotExists?
  {
    if key in t then t[key] == Entry(op.value, if op.ttl == 0 then None else Some(op.at + op.ttl))
    else op.ttl != 0 && op.at + op.ttl < now
  }

  /** ... and for every key. */
  ghost predicate KeepsLast(ops: seq<Op>, t: Table, key: string, now: int) {
    && (forall i :: LastWrite(ops, i, key) ==> KeepsWrite(t, key, ops[i], now))
    && (key in t ==> exists i :: LastWrite(ops, i, key))
  }

  lemma LastWriteOneMore(ops: seq<Op>, op: Op, key: string)
    ensures
      var all := ops + [op];
      && (LastWrite(all, |ops|, key) <==> Writes(all, |ops|, key))
      && forall i: nat :: i < |ops| ==>
           (LastWrite(all, i, key) <==>
            LastWrite(ops, i, key) && !Writes(all, |ops|, key) && !(op.Delete? && op.key == key))
  {
    var all := ops + [op];
    assert all[..|ops|] == ops;
    forall i: nat | i < |ops| ensures Writes(all, i, key) <==> Writes(ops, i, key) {
      assert all[..i] == ops[..i];
    }
    forall i: nat | i < |ops|
      ensures LastWrite(all, i, key) <==>
              LastWrite(ops, i, key) && !Writes(all, |ops|, key) && !(op.Delete? && op.key == key)
    {
      assert all[|ops|] == op;
      assert forall k :: 0 <= k < |ops| ==> all[k] == ops[k];
    }
  }

  /** A step that neither writes nor deletes the key only removes it when its time is over. */
  lemma QuietStepKeeps(t: Table, key: string, op: Op, write: Op, now: int)
    requires now <= Begins(op) <= Ends(op) && (write.Set? || write.SetIfNotExists?) && !ExpiresAtZero(write)
    requires KeepsWrite(t, key, write, now)
    requires !(op.Set? && op.key == key) && !(op.Delete? && op.key == key)
    requires !(op.SetIfNotExists? && op.key == key && Lazy(t, op).1 == Stored(true))
    ensures KeepsWrite(Lazy(t, op).0, key, write, Ends(op))
  {
  }

  lemma {:induction false} StepKeepsLast(ops: seq<Op>, op: Op, key: string, now: int)
    requires Timely(ops + [op], now) && KeepsLast(ops, LazyRun(map[], ops), key, TimeAfter(ops, now))
    requires forall i :: LastWrite(ops, i, key) ==> !ExpiresAtZero(ops[i])
    ensures KeepsLast(ops + [op], Lazy(LazyRun(map[], ops), op).0, key, Ends(op))
  {
    var (all, t) := (ops + [op], LazyRun(map[], ops));
    var n := Lazy(t, op).0;
    TimelyButLast(ops, op, now);
    LastWriteOneMore(ops, op, key);
    assert all[..|ops|] == ops && all[|ops|] == op;
    forall i | LastWrite(all, i, key) ensures KeepsWrite(n, key, all[i], Ends(op)) {
      if i < |ops| {
        assert all[i] == ops[i] && LastWrite(ops, i, key) && !Writes(all, |ops|, key);
        QuietStepKeeps(t, key, op, ops[i], TimeAfter(ops, now));
      }
    }
    if key in n {
      if Writes(all, |ops|, key) {
        assert LastWrite(all, |ops|, key);
      } else {
        var i :| LastWrite(ops, i, key);
        assert LastWrite(all, i, key);
      }
    }
  }

  lemma {:induction false} NoneAtZero(ops: seq<Op>, now: int)
    requires Timely(ops, now)
    ensures forall i :: 0 <= i < |ops| ==> !ExpiresAtZero(ops[i])
    decreases |ops|
  {
    if ops != [] {
      NoneAtZero(ops[1..], Ends(ops[0]));
      assert forall i :: 0 < i < |ops| ==> ops[i] == ops[1..][i - 1];
    }
  }

  lemma {:induction false} RunKeepsLast(ops: seq<Op>, key: string, now: int)
    requires Timely(ops, now)
    ensures KeepsLast(ops, LazyRun(map[], ops), key, TimeAfter(ops, now))
    decreases |ops|
  {
    if ops != [] {
      var init, last := ops[..|ops| - 1], ops[|ops| - 1];
      assert ops == init + [last];
      TimelyButLast(init, last, now);
      RunKeepsLast(init, key, now);
      NoneAtZero(init, now);
      StepKeepsLast(init, last, key, now);
    }
  }

  /** Over every run, a `get` answers with the value of the last write of its key, if nothing deleted the key since,
      exactly when the write had no time to live or its time is not over; and with nothing otherwise. */
  lemma {:induction false} GetAnswersExactly(ops: seq<Op>, key: string, swept: int, read: int, now: int)
    requires Timely(ops + [Get(key, swept, read)], now)
    ensures
      var answer := Lazy(LazyRun(map[], ops), Get(key, swept, read)).1;
      && (forall i :: LastWrite(ops, i, key) ==>
            answer == Found(if StillLives(ops[i], read) then Some(ops[i].value) else None))
      && ((forall i :: !LastWrite(ops, i, key)) ==> answer == Found(None))
  {
    TimelyButLast(ops, Get(key, swept, read), now);
    RunKeepsLast(ops, key, now);
    NoneAtZero(ops, now);
  }

  /** And a `setIfNotExists` stores exactly when such a `get` at its time would find nothing. */
  lemma {:induction false} SetIfNotExistsStoresExactly(
      ops: seq<Op>, key: string, value: string, ttl: int, checked: int, at: int, now: int)
    requires Timely(ops + [SetIfNotExists(key, value, ttl, checked, at)], now)
    ensures Lazy(LazyRun(map[], ops), SetIfNotExists(key, value, ttl, checked, at)).1 == Stored(true) <==>
            forall i :: LastWrite(ops, i, key) ==> !StillLives(ops[i], checked)
  {
    TimelyButLast(ops, SetIfNotExists(key, value, ttl, checked, at), now);
    RunKeepsLast(ops, key, now);
    NoneAtZero(ops, now);
  }

  // ---- An expiry of exactly 0 ----

  predicate HasZero(t: Table, key: string) {
    key in t && t[key].expiresAt == Some(0)
  }

  /** What removes such an entry: an overwrite, a delete, or a clean-up at a positive time, which every `get` begins
      with. */
  predicate Clears(op: Op, key: string) {
    match op
    case Get(_, swept, _) => swept > 0
    case Set(k, _, _, _) => k == key
    case SetIfNotExists(_, _, _, _, _) => false
    case Delete(k, _) => k == key
    case Cleanup(at) => at > 0
  }

  /** The operation may itself give the key an expiry of 0. */
  predicate MakesZero(op: Op, key: string) {
    ExpiresAtZero(op) && op.key == key
  }

  lemma ZeroStaysOneMore(t: Table, key: string, op: Op)
    requires HasZero(t, key)
    ensures !Clears(op, key) ==> HasZero(Lazy(t, op).0, key)
    ensures Clears(op, key) && !MakesZero(op, key) ==> !HasZero(Lazy(t, op).0, key)
  {
  }

  lemma ZeroIsNotMade(t: Table, key: string, op: Op)
    requires !HasZero(t, key) && !MakesZero(op, key)
    ensures !HasZero(Lazy(t, op).0, key)
  {
  }

  lemma {:induction false} ZeroStays(t: Table, key: string, ops: seq<Op>)
    requires HasZero(t, key) && forall i :: 0 <= i < |ops| ==> !Clears(ops[i], key)
    ensures HasZero(LazyRun(t, ops), key)
    decreases |ops|
  {
    if ops != [] {
      ZeroStays(t, key, ops[..|ops| - 1]);
      ZeroStaysOneMore(LazyRun(t, ops[..|ops| - 1]), key, ops[|ops| - 1]);
    }
  }

  /** An entry that expires at 0 stays exactly as long as no operation clears it. */
  lemma {:induction false} ZeroExpiryStaysExactly(t: Table, key: string, ops: seq<Op>)
    requires HasZero(t, key) && forall i :: 0 <= i < |ops| ==> !MakesZero(ops[i], key)
    ensures HasZero(LazyRun(t, ops), key) <==> forall i :: 0 <= i < |ops| ==> !Clears(ops[i], key)
    decreases |ops|
  {
    if ops != [] {
      var init, last := ops[..|ops| - 1], ops[|ops| - 1];
      ZeroExpiryStaysExactly(t, key, init);
      assert (forall i :: 0 <= i < |ops| ==> !Clears(ops[i], key)) <==>
             (forall i :: 0 <= i < |init| ==> !Clears(init[i], key)) && !Clears(last, key);
      if HasZero(LazyRun(t, init), key) {
        ZeroStaysOneMore(LazyRun(t, init), key, last);
      } else {
        ZeroIsNotMade(LazyRun(t, init), key, last);
      }
    }
  }

  /** As long as it stays, it is dead to `cleanup` at every positive time, and blocks every `setIfNotExists` of its key.
      */
  lemma {:induction false} ZeroExpiryBlocks(
      t: Table, key: string, ops: seq<Op>, value: string, ttl: int, checked: int, at: int)
    requires HasZero(t, key) && checked > 0
    requires forall i :: 0 <= i < |ops| ==> !Clears(ops[i], key)
    ensures
      var later := LazyRun(t, ops);
      key !in Swept(later, checked) && Lazy(later, SetIfNotExists(key, value, ttl, checked, at)).1 == Stored(false)
  {
    ZeroStays(t, key, ops);
  }
}
