/** The `chat_sdk_locks` table of src/state-sqlite.ts as values: locks that are leases with tokens. */
module Lease {
  datatype Row = Row(token: string, expiresAt: int)

  type Table = map<string, Row>

  datatype Op =
    | Acquire(thread: string, token: string, ttl: int, at: int)
    | Release(thread: string, token: string)
    | Extend(thread: string, token: string, ttl: int, at: int)
    | ForceRelease(thread: string)
    | Cleanup(at: int)

  /** `DELETE ... WHERE expires_at < ?` */
  function Swept(t: Table, now: int): Table {
    map k | k in t && !(t[k].expiresAt < now) :: t[k]
  }

  predicate Holds(t: Table, thread: string, token: string) {
    thread in t && t[thread].token == token
  }

  function Step(t: Table, op: Op): Table {
    match op
    case Acquire(thread, token, ttl, at) =>
      if Granted(t, op) then t[thread := Row(token, at + ttl)] else t
    case Release(thread, token) => if Holds(t, thread, token) then t - {thread} else t
    case Extend(thread, token, ttl, at) =>
      if Granted(t, op) then t[thread := Row(token, at + ttl)] else t
    case ForceRelease(thread) => t - {thread}
    case Cleanup(at) => Swept(t, at)
  }

  /** Whether an acquire gets the lock, or an extension is made. */
  predicate Granted(t: Table, op: Op) {
    match op
    case Acquire(thread, _, _, at) => thread !in t || t[thread].expiresAt < at
    case Extend(thread, token, _, _) => Holds(t, thread, token)
    case _ => false
  }

  function Run(t: Table, ops: seq<Op>): Table
    decreases |ops|
  {
    if ops == [] then t else Run(Step(t, ops[0]), ops[1..])
  }

  // ---- Runs ----

  /** The clock never runs backwards. */
  predicate Timely(ops: seq<Op>) {
    forall i, j :: 0 <= i < j < |ops| && HasClock(ops[i]) && HasClock(ops[j]) ==> ops[i].at <= ops[j].at
  }

  predicate HasClock(op: Op) {
    op.Acquire? || op.Extend? || op.Cleanup?
  }

  /** `crypto.randomUUID()`: no two acquires draw the same token. */
  predicate UniqueTokens(ops: seq<Op>) {
    forall i, j :: 0 <= i < j < |ops| && ops[i].Acquire? && ops[j].Acquire? ==> ops[i].token != ops[j].token
  }

  predicate GrantAt(ops: seq<Op>, i: nat) {
    i < |ops| && ops[i].Acquire? && Granted(Before(ops, i), ops[i])
  }

  function Before(ops: seq<Op>, i: nat): Table
    requires i <= |ops|
  {
    Run(map[], ops[..i])
  }

  /** The expiry of the lease granted at `i`, as extended before step `k`. */
  function ExpiryAt(ops: seq<Op>, i: nat, k: nat): int
    requires i < k <= |ops| && ops[i].Acquire?
    decreases k
  {
    var last := ops[k - 1];
    if k == i + 1 then last.at + last.ttl
    else if last.Extend? && last.thread == ops[i].thread && last.token == ops[i].token
            && Granted(Before(ops, k - 1), last) then last.at + last.ttl
    else ExpiryAt(ops, i, k - 1)
  }

  predicate GivesUp(op: Op, thread: string, token: string) {
    op == Release(thread, token) || op == ForceRelease(thread)
  }

  lemma {:induction false} RunSnoc(t: Table, ops: seq<Op>, op: Op)
    ensures Run(t, ops + [op]) == Step(Run(t, ops), op)
    decreases |ops|
  {
    if ops == [] {
      assert ops + [op] == [op] && [op][1..] == [];
    } else {
      assert (ops + [op])[1..] == ops[1..] + [op];
      RunSnoc(Step(t, ops[0]), ops[1..], op);
    }
  }

  lemma BeforeNext(ops: seq<Op>, k: nat)
    requires k < |ops|
    ensures Before(ops, k + 1) == Step(Before(ops, k), ops[k])
  {
    assert ops[..k + 1] == ops[..k] + [ops[k]];
    RunSnoc(map[], ops[..k], ops[k]);
  }

  // ---- Exclusion ----

  /** While nobody gives the lease up, either its row still stands with the expiry it was last given, or that
      expiry is past at every later reading of the clock. */
  lemma {:induction false} LeaseStands(ops: seq<Op>, i: nat, k: nat, at: int)
    requires Timely(ops) && UniqueTokens(ops) && GrantAt(ops, i) && i < k <= |ops|
    requires forall m :: i < m < k ==> !GivesUp(ops[m], ops[i].thread, ops[i].token)
    requires forall m :: i <= m < k && HasClock(ops[m]) ==> ops[m].at <= at
    ensures
      var thread, token, e := ops[i].thread, ops[i].token, ExpiryAt(ops, i, k);
      if Holds(Before(ops, k), thread, token) then Before(ops, k)[thread].expiresAt == e else e < at
    decreases k
  {
    var thread, token := ops[i].thread, ops[i].token;
    BeforeNext(ops, k - 1);
    if k > i + 1 {
      var last, t := ops[k - 1], Before(ops, k - 1);
      LeaseStands(ops, i, k - 1, at);
      if Holds(t, thread, token) && !Holds(Step(t, last), thread, token) {
        assert HasClock(last) && t[thread].expiresAt < last.at;
      }
    }
  }

  /** Two grants of one lock, with nobody releasing the first in between, are separated by the first one's
      expiry as extended. Clean-up, failed attempts and other threads' operations may come anywhere. */
  lemma {:induction false} GrantsAreSeparated(ops: seq<Op>, i: nat, j: nat)
    requires Timely(ops) && UniqueTokens(ops)
    requires i < j && GrantAt(ops, i) && GrantAt(ops, j) && ops[i].thread == ops[j].thread
    requires forall m :: i < m < j ==> !GivesUp(ops[m], ops[i].thread, ops[i].token)
    ensures ExpiryAt(ops, i, j) < ops[j].at
  {
    LeaseStands(ops, i, j, ops[j].at);
  }

  // ---- Fencing ----

  /** Once a later grant of the same lock is made, the earlier token never holds it again. */
  lemma {:induction false} TokenStaysStale(ops: seq<Op>, i: nat, j: nat, k: nat)
    requires UniqueTokens(ops)
    requires i < j < k <= |ops| && GrantAt(ops, i) && GrantAt(ops, j) && ops[i].thread == ops[j].thread
    ensures !Holds(Before(ops, k), ops[i].thread, ops[i].token)
    decreases k
  {
    BeforeNext(ops, k - 1);
    if k > j + 1 {
      TokenStaysStale(ops, i, j, k - 1);
    }
  }

  /** A holder that was superseded can neither release nor extend the later holder's lock. */
  lemma StaleTokenIsPowerless(ops: seq<Op>, i: nat, j: nat, k: nat, ttl: int, at: int)
    requires UniqueTokens(ops)
    requires i < j < k <= |ops| && GrantAt(ops, i) && GrantAt(ops, j) && ops[i].thread == ops[j].thread
    ensures
      var t, thread, token := Before(ops, k), ops[i].thread, ops[i].token;
      && Step(t, Release(thread, token)) == t
      && !Granted(t, Extend(thread, token, ttl, at))
      && Step(t, Extend(thread, token, ttl, at)) == t
  {
    TokenStaysStale(ops, i, j, k);
  }

  // ---- How long a holder can extend ----

  /** What ends the lease granted at `i`: it is given up, or, after its expiry, cleaned up or taken by another acquire.
      */
  predicate EndsLease(ops: seq<Op>, i: nat, m: nat)
    requires i < m < |ops| && ops[i].Acquire?
  {
    var (op, thread) := (ops[m], ops[i].thread);
    || GivesUp(op, thread, ops[i].token)
    || (op.Cleanup? && ExpiryAt(ops, i, m) < op.at)
    || (op.Acquire? && op.thread == thread && ExpiryAt(ops, i, m) < op.at)
  }

  lemma {:induction false} HoldsExactly(ops: seq<Op>, i: nat, k: nat)
    requires UniqueTokens(ops) && GrantAt(ops, i) && i < k <= |ops|
    ensures
      var (t, thread, token) := (Before(ops, k), ops[i].thread, ops[i].token);
      && (Holds(t, thread, token) <==> forall m :: i < m < k ==> !EndsLease(ops, i, m))
      && (Holds(t, thread, token) ==> t[thread].expiresAt == ExpiryAt(ops, i, k))
    decreases k
  {
    BeforeNext(ops, k - 1);
    if k > i + 1 {
      HoldsExactly(ops, i, k - 1);
      HoldsOneMore(ops, i, k);
      assert (forall m :: i < m < k ==> !EndsLease(ops, i, m)) <==>
             (forall m :: i < m < k - 1 ==> !EndsLease(ops, i, m)) && !EndsLease(ops, i, k - 1);
    }
  }

  lemma HoldsOneMore(ops: seq<Op>, i: nat, k: nat)
    requires UniqueTokens(ops) && GrantAt(ops, i) && i + 1 < k <= |ops|
    requires
      var (t, thread, token) := (Before(ops, k - 1), ops[i].thread, ops[i].token);
      Holds(t, thread, token) ==> t[thread].expiresAt == ExpiryAt(ops, i, k - 1)
    ensures
      var (t, thread, token) := (Before(ops, k), ops[i].thread, ops[i].token);
      && (Holds(t, thread, token) <==> Holds(Before(ops, k - 1), thread, token) && !EndsLease(ops, i, k - 1))
      && (Holds(t, thread, token) ==> t[thread].expiresAt == ExpiryAt(ops, i, k))
  {
    BeforeNext(ops, k - 1);
  }

  /** `extendLock` looks at the token and not at the clock. Over every run, the holder of a grant can still extend it
      exactly when nothing ended it: that its expiry is past is no matter by itself. */
  lemma HolderCanExtendExactly(ops: seq<Op>, i: nat, k: nat, ttl: int, at: int)
    requires UniqueTokens(ops) && GrantAt(ops, i) && i < k <= |ops|
    ensures Granted(Before(ops, k), Extend(ops[i].thread, ops[i].token, ttl, at)) <==>
            forall m :: i < m < k ==> !EndsLease(ops, i, m)
  {
    HoldsExactly(ops, i, k);
  }

  /** So a lapsed lease that nothing ended can be revived: others could have had the lock at that very moment, and
      cannot for the time of the extension. */
  lemma {:induction false} LapsedLeaseCanBeRevived(
      ops: seq<Op>, i: nat, k: nat, ttl: int, at: int, other: string, otherTtl: int, later: int)
    requires UniqueTokens(ops) && GrantAt(ops, i) && i < k <= |ops|
    requires forall m :: i < m < k ==> !EndsLease(ops, i, m)
    requires ExpiryAt(ops, i, k) < at && later <= at + ttl
    ensures
      var (t, thread) := (Before(ops, k), ops[i].thread);
      var revived := Step(t, Extend(thread, ops[i].token, ttl, at));
      && Granted(t, Acquire(thread, other, otherTtl, at))
      && !Granted(revived, Acquire(thread, other, otherTtl, later))
  {
    HoldsExactly(ops, i, k);
  }
}
