/** The `chat_sdk_lists` table of src/state-sqlite.ts as values: index-trimmed lists, and the bounded queues
    built on them. */
module TrimmedList {
  import opened Prelude

  datatype Row = Row(value: string, expiresAt: Option<int>)

  /** Primary key `(key, idx)`. */
  type Table = map<(string, nat), Row>

  // ---- The table operations ----

  function Indices(t: Table, key: string): set<nat> {
    set k | k in t && k.0 == key :: k.1
  }

  /** `SELECT MAX(idx)`, -1 when there is no row. */
  function MaxIdx(t: Table, key: string): (m: int)
    ensures Indices(t, key) == {} ==> m == -1
    ensures Indices(t, key) != {} ==> m in Indices(t, key) && forall i :: i in Indices(t, key) ==> i <= m
  {
    var s := Indices(t, key);
    if s == {} then -1 else
    MaxExists(s);
    var m :| m in s && forall i :: i in s ==> i <= m;
    m
  }

  /** The index `ORDER BY idx ASC LIMIT 1` finds. */
  function MinIdx(t: Table, key: string): (m: nat)
    requires Indices(t, key) != {}
    ensures m in Indices(t, key) && forall i :: i in Indices(t, key) ==> m <= i
  {
    var s := Indices(t, key);
    MinExists(s);
    var m :| m in s && forall i :: i in s ==> m <= i;
    m
  }

  lemma {:induction false} MaxExists(s: set<nat>)
    requires s != {}
    ensures exists m :: m in s && forall i :: i in s ==> i <= m
    decreases |s|
  {
    var x :| x in s;
    if s != {x} {
      var rest := s - {x};
      MaxExists(rest);
      var m :| m in rest && forall i :: i in rest ==> i <= m;
      var top := if m < x then x else m;
      forall i | i in s ensures i <= top {
        assert i == x || i in rest;
      }
    }
  }

  lemma MinExists(s: set<nat>)
    requires s != {}
    ensures exists m :: m in s && forall i :: i in s ==> m <= i
  {
    var x :| x in s;
    MinFrom(s, x);
  }

  lemma {:induction false} MinFrom(s: set<nat>, x: nat)
    requires x in s
    ensures exists m :: m in s && forall i :: i in s ==> m <= i
    decreases x
  {
    if y :| y in s && y < x {
      MinFrom(s, y);
    }
  }

  /** `appendToList`. A `maxLength` of 0 is falsy and trims nothing; a negative one puts the cutoff past the
      new row, so the list ends up empty. */
  function Append(t: Table, key: string, row: Row, maxLength: int): Table {
    var next := MaxIdx(t, key) + 1;
    var grown := t[(key, next) := row];
    var cutoff := next - maxLength;
    if maxLength != 0 && cutoff >= 0 then Trimmed(grown, key, cutoff) else grown
  }

  function Trimmed(t: Table, key: string, cutoff: int): Table {
    map k | k in t && !(k.0 == key && k.1 <= cutoff) :: t[k]
  }

  function Swept(t: Table, now: int): Table {
    map k | k in t && !(t[k].expiresAt.Some? && t[k].expiresAt.value < now) :: t[k]
  }

  function QueueKey(thread: string): string {
    "queue:" + thread
  }

  // ---- Queues over runs ----

  datatype Op =
    | Enqueue(thread: string, value: string, maxSize: int)
    | Dequeue(thread: string)
    | Depth(thread: string)
    | AppendList(key: string, row: Row, maxLength: int)
    | Cleanup(now: int)

  datatype Answer = Done | Taken(value: Option<string>) | Count(n: nat)

  /** The first half of `enqueue` is `Enqueue`; the second half, which runs after an `await`, is `Depth`. */
  function Step(t: Table, op: Op): (Table, Answer) {
    match op
    case Enqueue(thread, value, maxSize) => (Append(t, QueueKey(thread), Row(value, None), maxSize), Done)
    case Dequeue(thread) =>
      var key := QueueKey(thread);
      if Indices(t, key) == {} then (t, Taken(None))
      else (t - {(key, MinIdx(t, key))}, Taken(Some(t[(key, MinIdx(t, key))].value)))
    case Depth(thread) => (t, Count(|Indices(t, QueueKey(thread))|))
    case AppendList(key, row, maxLength) => (Append(t, key, row, maxLength), Done)
    case Cleanup(now) => (Swept(t, now), Done)
  }

  // ---- The simple object: bounded queues that drop their oldest entries ----

  type Queues = map<string, seq<string>>

  function QueueOf(q: Queues, thread: string): seq<string> {
    if thread in q then q[thread] else []
  }

  function Newest(s: seq<string>, maxSize: int): seq<string> {
    if maxSize == 0 || |s| <= maxSize then s
    else if maxSize < 0 then []
    else s[|s| - maxSize..]
  }

  function Ideal(q: Queues, op: Op): (Queues, Answer) {
    match op
    case Enqueue(thread, value, maxSize) => (q[thread := Newest(QueueOf(q, thread) + [value], maxSize)], Done)
    case Dequeue(thread) =>
      var s := QueueOf(q, thread);
      if s == [] then (q, Taken(None)) else (q[thread := s[1..]], Taken(Some(s[0])))
    case Depth(thread) => (q, Count(|QueueOf(q, thread)|))
    case AppendList(_, _, _) => (q, Done)
    case Cleanup(_) => (q, Done)
  }

  // ---- Refinement ----

  /** The rows under a key are exactly `s`, on consecutive indices from `lo`, and never expire. */
  ghost predicate Stored(t: Table, key: string, lo: nat, s: seq<string>) {
    && (forall i :: (key, i) in t <==> lo <= i < lo + |s|)
    && (forall i :: lo <= i < lo + |s| ==> t[(key, i)] == Row(s[i - lo], None))
  }

  ghost predicate Represents(t: Table, key: string, s: seq<string>) {
    exists lo: nat :: Stored(t, key, lo, s)
  }

  ghost predicate Refines(t: Table, q: Queues) {
    forall thread :: Represents(t, QueueKey(thread), QueueOf(q, thread))
  }

  lemma StoredIndices(t: Table, key: string, lo: nat, s: seq<string>)
    requires Stored(t, key, lo, s)
    ensures forall i :: i in Indices(t, key) <==> lo <= i < lo + |s|
    ensures |Indices(t, key)| == |s|
    ensures s != [] ==> MaxIdx(t, key) == lo + |s| - 1 && MinIdx(t, key) == lo
    ensures s == [] ==> Indices(t, key) == {}
  {
    assert forall i :: i in Indices(t, key) <==> (key, i) in t;
    IntervalSize(Indices(t, key), lo, |s|);
    if s != [] {
      assert lo in Indices(t, key) && lo + |s| - 1 in Indices(t, key);
    }
  }

  lemma {:induction false} IntervalSize(s: set<nat>, lo: nat, n: nat)
    requires forall i :: i in s <==> lo <= i < lo + n
    ensures |s| == n
    decreases n
  {
    if n == 0 {
      assert s == {};
    } else {
      IntervalSize(s - {lo + n - 1}, lo, n - 1);
    }
  }

  /** The index an append writes to is free: no row is ever overwritten. */
  lemma NextIndexIsFree(t: Table, key: string)
    ensures (key, MaxIdx(t, key) + 1) !in t
  {
    assert (key, MaxIdx(t, key) + 1) in t <==> MaxIdx(t, key) + 1 in Indices(t, key);
  }

  lemma GrowStored(t: Table, key: string, from: nat, s: seq<string>, value: string)
    requires Stored(t, key, from, s)
    ensures Stored(t[(key, from + |s|) := Row(value, None)], key, from, s + [value])
  {
  }

  lemma AppendRepresents(t: Table, key: string, s: seq<string>, value: string, maxSize: int)
    requires Represents(t, key, s)
    ensures Represents(Append(t, key, Row(value, None), maxSize), key, Newest(s + [value], maxSize))
  {
    var lo: nat :| Stored(t, key, lo, s);
    StoredIndices(t, key, lo, s);
    var from: nat := if s == [] then 0 else lo;
    var next := MaxIdx(t, key) + 1;
    var grown := t[(key, next) := Row(value, None)];
    GrowStored(t, key, from, s, value);
    if maxSize != 0 && next - maxSize >= 0 {
      TrimRepresents(grown, key, from, s + [value], maxSize);
    }
  }

  lemma TrimRepresents(t: Table, key: string, from: nat, s: seq<string>, maxSize: int)
    requires Stored(t, key, from, s) && s != [] && maxSize != 0
    requires from + |s| - 1 - maxSize >= 0
    ensures Represents(Trimmed(t, key, from + |s| - 1 - maxSize), key, Newest(s, maxSize))
  {
    var cutoff := from + |s| - 1 - maxSize;
    var kept := Trimmed(t, key, cutoff);
    if maxSize < 0 {
      assert Stored(kept, key, from, []);
    } else if |s| > maxSize {
      assert Stored(kept, key, cutoff + 1, s[|s| - maxSize..]);
    } else {
      assert Stored(kept, key, from, s);
    }
  }

  /** Rows under other keys do not matter. */
  lemma SameRows(t: Table, t1: Table, key: string, s: seq<string>)
    requires Represents(t, key, s)
    requires forall i :: (key, i) in t <==> (key, i) in t1
    requires forall i :: (key, i) in t ==> t[(key, i)] == t1[(key, i)]
    ensures Represents(t1, key, s)
  {
    var lo: nat :| Stored(t, key, lo, s);
    assert Stored(t1, key, lo, s);
  }

  lemma AppendElsewhere(
      t: Table, key: string, row: Row, maxLength: int, other: string, s: seq<string>)
    requires Represents(t, other, s) && key != other
    ensures Represents(Append(t, key, row, maxLength), other, s)
  {
    SameRows(t, Append(t, key, row, maxLength), other, s);
  }

  lemma QueueKeysDiffer(a: string, b: string)
    requires a != b
    ensures QueueKey(a) != QueueKey(b)
  {
    assert QueueKey(a)[6..] == a && QueueKey(b)[6..] == b;
  }

  lemma DequeueRepresents(t: Table, key: string, s: seq<string>)
    requires Represents(t, key, s) && s != []
    ensures Indices(t, key) != {} && (key, MinIdx(t, key)) in t
    ensures t[(key, MinIdx(t, key))].value == s[0]
    ensures Represents(t - {(key, MinIdx(t, key))}, key, s[1..])
  {
    var lo: nat :| Stored(t, key, lo, s);
    StoredIndices(t, key, lo, s);
    assert Stored(t - {(key, lo)}, key, lo + 1, s[1..]);
  }

  /** Queues are only written through the queue operations. */
  predicate Proper(op: Op) {
    op.AppendList? ==> !("queue:" <= op.key)
  }

  lemma StepRefines(t: Table, q: Queues, op: Op)
    requires Refines(t, q) && Proper(op)
    ensures Step(t, op).1 == Ideal(q, op).1
    ensures Refines(Step(t, op).0, Ideal(q, op).0)
  {
    var (t1, _) := Step(t, op);
    var (q1, _) := Ideal(q, op);
    if op.Dequeue? || op.Depth? {
      var key, s := QueueKey(op.thread), QueueOf(q, op.thread);
      assert Represents(t, key, s);
      var lo: nat :| Stored(t, key, lo, s);
      StoredIndices(t, key, lo, s);
      if op.Dequeue? && s != [] {
        DequeueRepresents(t, key, s);
      }
    }
    forall thread ensures Represents(t1, QueueKey(thread), QueueOf(q1, thread)) {
      var key, s := QueueKey(thread), QueueOf(q, thread);
      assert Represents(t, key, s);
      match op
      case Enqueue(other, value, maxSize) =>
        if other == thread {
          AppendRepresents(t, key, s, value, maxSize);
        } else {
          QueueKeysDiffer(other, thread);
          AppendElsewhere(t, QueueKey(other), Row(value, None), maxSize, key, s);
        }
      case Dequeue(other) =>
        if other != thread {
          QueueKeysDiffer(other, thread);
          SameRows(t, t1, key, s);
        }
      case Depth(_) =>
      case AppendList(other, row, maxLength) =>
        AppendElsewhere(t, other, row, maxLength, key, s);
      case Cleanup(now) =>
        var lo: nat :| Stored(t, key, lo, s);
        assert Stored(t1, key, lo, s);
    }
  }

  function Answers(t: Table, ops: seq<Op>): seq<Answer>
    decreases |ops|
  {
    if ops == [] then [] else [Step(t, ops[0]).1] + Answers(Step(t, ops[0]).0, ops[1..])
  }

  function IdealAnswers(q: Queues, ops: seq<Op>): seq<Answer>
    decreases |ops|
  {
    if ops == [] then [] else [Ideal(q, ops[0]).1] + IdealAnswers(Ideal(q, ops[0]).0, ops[1..])
  }

  lemma {:induction false} RunRefines(t: Table, q: Queues, ops: seq<Op>)
    requires Refines(t, q) && forall i :: 0 <= i < |ops| ==> Proper(ops[i])
    ensures Answers(t, ops) == IdealAnswers(q, ops)
    decreases |ops|
  {
    if ops != [] {
      StepRefines(t, q, ops[0]);
      RunRefines(Step(t, ops[0]).0, Ideal(q, ops[0]).0, ops[1..]);
    }
  }

  /** Over any run of queue operations, other lists' appends and clean-ups, the table answers like a family of
      first-in first-out queues that drop their oldest entries. */
  lemma {:induction false} QueuesAreBoundedFifos(ops: seq<Op>)
    requires forall i :: 0 <= i < |ops| ==> Proper(ops[i])
    ensures Answers(map[], ops) == IdealAnswers(map[], ops)
  {
    forall thread ensures Represents(map[], QueueKey(thread), QueueOf(map[], thread)) {
      assert Stored(map[], QueueKey(thread), 0, []);
    }
    RunRefines(map[], map[], ops);
  }

  /** Undisturbed, an enqueue ends with the depth its caller expects. */
  lemma EnqueueThenDepth(t: Table, q: Queues, thread: string, value: string, maxSize: int)
    requires Refines(t, q)
    ensures
      var depth := |QueueOf(q, thread)|;
      var t1 := Step(t, Enqueue(thread, value, maxSize)).0;
      Step(t1, Depth(thread)).1
        == Count(if maxSize == 0 then depth + 1 else if maxSize < 0 then 0
                 else if depth + 1 < maxSize then depth + 1 else maxSize)
  {
    var op := Enqueue(thread, value, maxSize);
    StepRefines(t, q, op);
    StepRefines(Step(t, op).0, Ideal(q, op).0, Depth(thread));
  }

  /** How many entries a queue of `depth` has after `n` enqueues with one bound. */
  function DepthAfter(depth: nat, n: nat, maxSize: int): nat {
    if n == 0 then depth
    else if maxSize == 0 then depth + n
    else if maxSize < 0 then 0
    else if depth + n < maxSize then depth + n
    else maxSize
  }

  function RunAll(t: Table, ops: seq<Op>): Table
    decreases |ops|
  {
    if ops == [] then t else Step(RunAll(t, ops[..|ops| - 1]), ops[|ops| - 1]).0
  }

  function IdealAll(q: Queues, ops: seq<Op>): Queues
    decreases |ops|
  {
    if ops == [] then q else Ideal(IdealAll(q, ops[..|ops| - 1]), ops[|ops| - 1]).0
  }

  lemma {:induction false} AllRefine(t: Table, q: Queues, ops: seq<Op>)
    requires Refines(t, q) && forall i :: 0 <= i < |ops| ==> Proper(ops[i])
    ensures Refines(RunAll(t, ops), IdealAll(q, ops))
    decreases |ops|
  {
    if ops != [] {
      AllRefine(t, q, ops[..|ops| - 1]);
      StepRefines(RunAll(t, ops[..|ops| - 1]), IdealAll(q, ops[..|ops| - 1]), ops[|ops| - 1]);
    }
  }

  /** What an enqueue reports when the operations of `gap` come into its `await`. */
  function Report(t: Table, thread: string, value: string, maxSize: int, gap: seq<Op>): Answer {
    Step(RunAll(Step(t, Enqueue(thread, value, maxSize)).0, gap), Depth(thread)).1
  }

  predicate Changes(op: Op, thread: string) {
    (op.Enqueue? || op.Dequeue?) && op.thread == thread
  }

  lemma {:induction false} UnchangedQueue(q: Queues, thread: string, ops: seq<Op>)
    requires forall i :: 0 <= i < |ops| ==> !Changes(ops[i], thread)
    ensures QueueOf(IdealAll(q, ops), thread) == QueueOf(q, thread)
    decreases |ops|
  {
    if ops != [] {
      UnchangedQueue(q, thread, ops[..|ops| - 1]);
      assert !Changes(ops[|ops| - 1], thread);
    }
  }

  /** The depth is read after an `await`. The report is the depth of the queue after everything that came in between; it
      is the depth after its own enqueue whenever nothing in between changed that queue. */
  lemma {:induction false} EnqueueReportsLaterDepth(
      t: Table, q: Queues, thread: string, value: string, maxSize: int, gap: seq<Op>)
    requires Refines(t, q) && forall i :: 0 <= i < |gap| ==> Proper(gap[i])
    ensures
      var own := Ideal(q, Enqueue(thread, value, maxSize)).0;
      && Report(t, thread, value, maxSize, gap) == Count(|QueueOf(IdealAll(own, gap), thread)|)
      && ((forall i :: 0 <= i < |gap| ==> !Changes(gap[i], thread)) ==>
            Report(t, thread, value, maxSize, gap) == Count(DepthAfter(|QueueOf(q, thread)|, 1, maxSize)))
  {
    var op := Enqueue(thread, value, maxSize);
    var own, later := Step(t, op).0, Ideal(q, op).0;
    StepRefines(t, q, op);
    AllRefine(own, later, gap);
    StepRefines(RunAll(own, gap), IdealAll(later, gap), Depth(thread));
    if forall i :: 0 <= i < |gap| ==> !Changes(gap[i], thread) {
      UnchangedQueue(later, thread, gap);
    }
  }

  /** A single operation that leaves a queue of `depth` entries as deep as it is. */
  predicate Harmless(op: Op, thread: string, depth: nat) {
    if !Changes(op, thread) then true
    else if op.Dequeue? then depth == 0
    else (op.maxSize > 0 && op.maxSize == depth) || (op.maxSize < 0 && depth == 0)
  }

  /** With one operation in between the report is right exactly when that operation is harmless: an enqueue whose bound
      is the depth there is (or, with a negative bound, an empty queue), a dequeue from an empty queue, or anything that
      does not change the queue. */
  lemma OneInBetweenExactly(
      t: Table, q: Queues, thread: string, value: string, maxSize: int, op: Op)
    requires Refines(t, q) && Proper(op)
    ensures
      var depth := DepthAfter(|QueueOf(q, thread)|, 1, maxSize);
      Report(t, thread, value, maxSize, [op]) == Count(depth) <==> Harmless(op, thread, depth)
  {
    var own := Ideal(q, Enqueue(thread, value, maxSize)).0;
    EnqueueReportsLaterDepth(t, q, thread, value, maxSize, [op]);
    assert [op][..0] == [];
    assert IdealAll(own, [op]) == Ideal(own, op).0;
  }

  function Enqueues(thread: string, values: seq<string>, maxSize: int): seq<Op> {
    seq(|values|, i requires 0 <= i < |values| => Enqueue(thread, values[i], maxSize))
  }

  lemma {:induction false} DepthOfEnqueues(q: Queues, thread: string, values: seq<string>, maxSize: int)
    ensures |QueueOf(IdealAll(q, Enqueues(thread, values, maxSize)), thread)| ==
            DepthAfter(|QueueOf(q, thread)|, |values|, maxSize)
    decreases |values|
  {
    if values != [] {
      var ops := Enqueues(thread, values, maxSize);
      assert ops[..|ops| - 1] == Enqueues(thread, values[..|values| - 1], maxSize);
      DepthOfEnqueues(q, thread, values[..|values| - 1], maxSize);
    }
  }

  /** When only enqueues with the same bound come in between, the report is right exactly when there were none or the
      queue was full. */
  lemma OverlappingEnqueuesReport(
      t: Table, q: Queues, thread: string, value: string, others: seq<string>, maxSize: int)
    requires Refines(t, q)
    ensures
      var depth := |QueueOf(q, thread)|;
      var report := Report(t, thread, value, maxSize, Enqueues(thread, others, maxSize));
      && report == Count(DepthAfter(depth, 1 + |others|, maxSize))
      && (report == Count(DepthAfter(depth, 1, maxSize)) <==> others == [] || (maxSize != 0 && depth + 1 >= maxSize))
  {
    EnqueueReportsLaterDepth(t, q, thread, value, maxSize, Enqueues(thread, others, maxSize));
    DepthOfEnqueues(Ideal(q, Enqueue(thread, value, maxSize)).0, thread, others, maxSize);
  }

  // ---- Reading a list ----

  /** `getList`: the values not yet expired, in index order. The comparison is strict, so a row is hidden at the
      very moment it expires, although `cleanup` keeps it one tick longer. */
  function ListFrom(t: Table, key: string, lo: nat, hi: nat, now: int): seq<string>
    requires lo <= hi
    decreases hi - lo
  {
    if lo == hi then []
    else
      var here := if (key, lo) in t && (t[(key, lo)].expiresAt.None? || t[(key, lo)].expiresAt.value > now)
                  then [t[(key, lo)].value] else [];
      here + ListFrom(t, key, lo + 1, hi, now)
  }

  function GetList(t: Table, key: string, now: int): seq<string> {
    if Indices(t, key) == {} then [] else ListFrom(t, key, MinIdx(t, key), MaxIdx(t, key) + 1, now)
  }

  /** The row of that index is there and not expired. */
  predicate Visible(t: Table, key: string, i: nat, now: int) {
    (key, i) in t && (t[(key, i)].expiresAt.None? || t[(key, i)].expiresAt.value > now)
  }

  /** The values are those of the visible rows from `lo` to `hi`, at the rising indices `at`. */
  ghost predicate Reads(
      t: Table, key: string, now: int, lo: nat, hi: nat, at: seq<nat>, values: seq<string>)
  {
    && |at| == |values|
    && (forall k :: 0 <= k < |at| ==>
          lo <= at[k] < hi && Visible(t, key, at[k], now) && values[k] == t[(key, at[k])].value)
    && (forall j, k :: 0 <= j < k < |at| ==> at[j] < at[k])
    && (forall i: nat :: lo <= i < hi && Visible(t, key, i, now) ==> i in at)
  }

  /** The values are those of exactly the visible rows, in the order of their indices. */
  ghost predicate IsListing(t: Table, key: string, now: int, values: seq<string>) {
    exists hi: nat, at :: Reads(t, key, now, 0, hi, at, values) && forall i :: (key, i) in t ==> i < hi
  }

  lemma ReadsCons(t: Table, key: string, now: int, lo: nat, hi: nat, at: seq<nat>, values: seq<string>)
    requires Reads(t, key, now, lo + 1, hi, at, values) && lo < hi && Visible(t, key, lo, now)
    ensures Reads(t, key, now, lo, hi, [lo] + at, [t[(key, lo)].value] + values)
  {
    forall i: nat | lo <= i < hi && Visible(t, key, i, now) ensures i in [lo] + at {
      assert i == lo || i in at;
    }
  }

  lemma ReadsSkip(t: Table, key: string, now: int, lo: nat, hi: nat, at: seq<nat>, values: seq<string>)
    requires Reads(t, key, now, lo + 1, hi, at, values) && !Visible(t, key, lo, now)
    ensures Reads(t, key, now, lo, hi, at, values)
  {
  }

  lemma {:induction false} ListFromReads(t: Table, key: string, lo: nat, hi: nat, now: int) returns (at: seq<nat>)
    requires lo <= hi
    ensures Reads(t, key, now, lo, hi, at, ListFrom(t, key, lo, hi, now))
    decreases hi - lo
  {
    if lo == hi {
      at := [];
    } else {
      at := ListFromReads(t, key, lo + 1, hi, now);
      var later := ListFrom(t, key, lo + 1, hi, now);
      if Visible(t, key, lo, now) {
        ReadsCons(t, key, now, lo, hi, at, later);
        at := [lo] + at;
      } else {
        ReadsSkip(t, key, now, lo, hi, at, later);
        assert [] + later == later;
      }
    }
  }

  lemma GetListIsListing(t: Table, key: string, now: int)
    ensures IsListing(t, key, now, GetList(t, key, now))
  {
    assert forall i :: i in Indices(t, key) <==> (key, i) in t;
    if Indices(t, key) == {} {
      assert Reads(t, key, now, 0, 0, [], []);
    } else {
      var (lo, hi) := (MinIdx(t, key), MaxIdx(t, key) + 1);
      var at := ListFromReads(t, key, lo, hi, now);
      assert Reads(t, key, now, 0, hi, at, ListFrom(t, key, lo, hi, now));
    }
  }

  lemma {:induction false} ListFromStored(t: Table, key: string, lo: nat, s: seq<string>, k: nat, now: int)
    requires Stored(t, key, lo, s) && k <= |s|
    ensures ListFrom(t, key, lo + k, lo + |s|, now) == s[k..]
    decreases |s| - k
  {
    if k < |s| {
      ListFromStored(t, key, lo, s, k + 1, now);
      assert (key, lo + k) in t;
    }
  }

  /** Read as a list, a queue shows its entries oldest first. */
  lemma QueueReadsInOrder(t: Table, q: Queues, thread: string, now: int)
    requires Refines(t, q)
    ensures GetList(t, QueueKey(thread), now) == QueueOf(q, thread)
  {
    var key, s := QueueKey(thread), QueueOf(q, thread);
    assert Represents(t, key, s);
    var lo: nat :| Stored(t, key, lo, s);
    StoredIndices(t, key, lo, s);
    ListFromStored(t, key, lo, s, 0, now);
  }
}
