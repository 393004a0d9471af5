/**
 * The retry of stuck messages: resetStuckProcessingRows of src/host-sweep.ts over the queries of
 * src/db/session-db.ts. Times are milliseconds. The database keeps whole seconds.
 */
module Retry {
  datatype Status = Pending | Completed | Failed

  /** A process_after column: absent, not a time, or a time. */
  datatype Stamp = Never | Bad | At(ms: nat)

  datatype Message = Message(status: Status, tries: nat, processAfter: Stamp, trigger: bool)

  /** One claim of a reset, with the clock when its row is updated. */
  datatype Claim = Claim(id: nat, clock: nat)

  const MAX_TRIES: nat := 5
  const BACKOFF_BASE_MS: nat := 5000
  const SECOND: nat := 1000

  function Pow2(n: nat): (r: nat)
    ensures r >= 1
  {
    if n == 0 then 1 else 2 * Pow2(n - 1)
  }

  /** What `datetime('now')` keeps of the time. */
  function WholeSecond(ms: nat): (r: nat)
    ensures r <= ms < r + SECOND && r % SECOND == 0
  {
    ms / SECOND * SECOND
  }

  function BackoffSeconds(tries: nat): nat {
    BACKOFF_BASE_MS * Pow2(tries) / SECOND
  }

  predicate Scheduled(m: Message, now: nat) {
    m.processAfter.At? && m.processAfter.ms > now
  }

  /** The rows a reset changes: pending and not already waiting for a later retry. */
  predicate Stuck(rows: map<nat, Message>, id: nat, now: nat) {
    id in rows && rows[id].status == Pending && !Scheduled(rows[id], now)
  }

  function Retried(m: Message, clock: nat): Message {
    m.(tries := m.tries + 1, processAfter := At(WholeSecond(clock) + BackoffSeconds(m.tries) * SECOND))
  }

  function ResetRow(rows: map<nat, Message>, claim: Claim, now: nat): map<nat, Message> {
    if !Stuck(rows, claim.id, now) then rows
    else if rows[claim.id].tries >= MAX_TRIES then rows[claim.id := rows[claim.id].(status := Failed)]
    else rows[claim.id := Retried(rows[claim.id], claim.clock)]
  }

  function Reset(rows: map<nat, Message>, claims: seq<Claim>, now: nat): map<nat, Message>
    decreases |claims|
  {
    if claims == [] then rows
    else ResetRow(Reset(rows, claims[..|claims| - 1], now), claims[|claims| - 1], now)
  }

  /** The clock does not run backwards while a reset runs. */
  ghost predicate Forward(claims: seq<Claim>, now: nat) {
    forall i :: 0 <= i < |claims| ==> claims[i].clock >= now
  }

  // ---- Idempotence ----

  lemma {:induction false} BackoffIsPow2(tries: nat)
    ensures BackoffSeconds(tries) == 5 * Pow2(tries) >= 5
  {
    if tries > 0 {
      BackoffIsPow2(tries - 1);
    }
  }

  /** What a reset makes of a stuck row: given up after the last retry, or one try more and its own backoff to wait,
      5 * 2^tries seconds from the second of the reset or later. */
  predicate Rescheduled(before: Message, after: Message, now: nat) {
    if before.tries >= MAX_TRIES then after == before.(status := Failed)
    else
      && after == before.(tries := before.tries + 1, processAfter := after.processAfter)
      && after.processAfter.At?
      && after.processAfter.ms >= WholeSecond(now) + BackoffSeconds(before.tries) * SECOND
  }

  lemma RowIsRescheduled(rows: map<nat, Message>, claim: Claim, now: nat)
    requires Stuck(rows, claim.id, now) && claim.clock >= now
    ensures
      var after := ResetRow(rows, claim, now);
      Rescheduled(rows[claim.id], after[claim.id], now) && !Stuck(after, claim.id, now)
  {
    BackoffIsPow2(rows[claim.id].tries);
  }

  lemma RescheduledWaits(before: Message, rows: map<nat, Message>, id: nat, now: nat)
    requires id in rows && Rescheduled(before, rows[id], now)
    ensures !Stuck(rows, id, now)
  {
    BackoffIsPow2(before.tries);
  }

  predicate Listed(claims: seq<Claim>, id: nat) {
    exists i :: 0 <= i < |claims| && claims[i].id == id
  }

  lemma ListedOneMore(claims: seq<Claim>, id: nat)
    requires claims != []
    ensures Listed(claims, id) <==> Listed(claims[..|claims| - 1], id) || claims[|claims| - 1].id == id
  {
    var init := claims[..|claims| - 1];
    if i :| 0 <= i < |init| && init[i].id == id {
      assert claims[i].id == id;
    }
    if i :| 0 <= i < |claims| && claims[i].id == id {
      assert i == |claims| - 1 || init[i].id == id;
    }
  }

  /** A reset changes its stuck rows and no others. */
  lemma {:induction false} ResetSchedules(rows: map<nat, Message>, claims: seq<Claim>, now: nat, id: nat)
    requires Forward(claims, now)
    ensures
      var after := Reset(rows, claims, now);
      && (id in after <==> id in rows)
      && (id in rows ==>
            if Listed(claims, id) && Stuck(rows, id, now) then Rescheduled(rows[id], after[id], now)
            else after[id] == rows[id])
    decreases |claims|
  {
    if claims != [] {
      var init, last := claims[..|claims| - 1], claims[|claims| - 1];
      ResetSchedules(rows, init, now, id);
      ListedOneMore(claims, id);
      var before := Reset(rows, init, now);
      if last.id == id && id in rows {
        if Listed(init, id) && Stuck(rows, id, now) {
          RescheduledWaits(rows[id], before, id, now);
        } else if Stuck(rows, id, now) {
          assert before[id] == rows[id];
          RowIsRescheduled(before, last, now);
        }
      }
    }
  }

  /** A reset changes nothing exactly when none of its claims is stuck. */
  lemma {:induction false} ResetIsIdleExactly(rows: map<nat, Message>, claims: seq<Claim>, now: nat)
    requires Forward(claims, now)
    ensures Reset(rows, claims, now) == rows <==>
            forall i :: 0 <= i < |claims| ==> !Stuck(rows, claims[i].id, now)
  {
    var after := Reset(rows, claims, now);
    forall id ensures id in after <==> id in rows {
      ResetSchedules(rows, claims, now, id);
    }
    if i :| 0 <= i < |claims| && Stuck(rows, claims[i].id, now) {
      ResetSchedules(rows, claims, now, claims[i].id);
      assert after[claims[i].id] != rows[claims[i].id];
    } else {
      forall id | id in rows ensures after[id] == rows[id] {
        ResetSchedules(rows, claims, now, id);
      }
    }
  }

  /** A pending row with a time to wait for. */
  predicate Waits(rows: map<nat, Message>, id: nat) {
    id in rows && rows[id].status == Pending && rows[id].processAfter.At?
  }

  /** Idempotence: a second reset of the same claims before any of their rows is due again changes no row; also when
      the claims could not be deleted, or are listed several times. */
  lemma {:induction false} SecondResetIsIdle(
      rows: map<nat, Message>, claims: seq<Claim>, now: nat, again: seq<Claim>, later: nat)
    requires Forward(claims, now) && Forward(again, later)
    requires forall j :: 0 <= j < |again| ==> Listed(claims, again[j].id)
    requires
      var after := Reset(rows, claims, now);
      forall i :: 0 <= i < |claims| && Waits(after, claims[i].id) ==> later < after[claims[i].id].processAfter.ms
    ensures Reset(Reset(rows, claims, now), again, later) == Reset(rows, claims, now)
  {
    var after := Reset(rows, claims, now);
    forall j | 0 <= j < |again| ensures !Stuck(after, again[j].id, later) {
      var i :| 0 <= i < |claims| && claims[i].id == again[j].id;
      ResetSchedules(rows, claims, now, claims[i].id);
    }
    ResetIsIdleExactly(after, again, later);
  }

  // ---- Retry spacing over runs ----

  /** The inbound rows, with the history of each row: the clock of each retry in milliseconds, and when it
      was given up. */
  datatype Queue = Queue(rows: map<nat, Message>, resets: map<nat, seq<nat>>, failedAt: map<nat, nat>)

  datatype Step =
    | Insert(id: nat, processAfter: Stamp, trigger: bool)
    | ResetClaims(claims: seq<Claim>, now: nat)
    | Acknowledge(ids: set<nat>)

  const EMPTY := Queue(map[], map[], map[])

  function Resets(q: Queue, id: nat): seq<nat> {
    if id in q.resets then q.resets[id] else []
  }

  function NoteReset(q: Queue, claim: Claim, now: nat): Queue {
    if !Stuck(q.rows, claim.id, now) then q
    else if q.rows[claim.id].tries >= MAX_TRIES then q.(failedAt := q.failedAt[claim.id := now])
    else q.(resets := q.resets[claim.id := Resets(q, claim.id) + [claim.clock]])
  }

  function ResetQueue(q: Queue, claims: seq<Claim>, now: nat): Queue
    decreases |claims|
  {
    if claims == [] then q else
      var before := ResetQueue(q, claims[..|claims| - 1], now);
      var claim := claims[|claims| - 1];
      NoteReset(before, claim, now).(rows := ResetRow(before.rows, claim, now))
  }

  /** syncProcessingAcks completes rows whatever their status. */
  function Acknowledged(rows: map<nat, Message>, ids: set<nat>): map<nat, Message> {
    map id | id in rows :: if id in ids then rows[id].(status := Completed) else rows[id]
  }

  function Apply(q: Queue, step: Step): Queue {
    match step
    case Insert(id, processAfter, trigger) =>
      if id in q.rows then q else q.(rows := q.rows[id := Message(Pending, 0, processAfter, trigger)])
    case ResetClaims(claims, now) => ResetQueue(q, claims, now)
    case Acknowledge(ids) => q.(rows := Acknowledged(q.rows, ids))
  }

  function Run(steps: seq<Step>): Queue
    decreases |steps|
  {
    if steps == [] then EMPTY else Apply(Run(steps[..|steps| - 1]), steps[|steps| - 1])
  }

  ghost predicate ClockForward(steps: seq<Step>) {
    forall i :: 0 <= i < |steps| && steps[i].ResetClaims? ==> Forward(steps[i].claims, steps[i].now)
  }

  /** Milliseconds from the first retry to the next after `k` of them, at least. */
  function Spacing(k: nat): nat {
    5 * SECOND * (Pow2(k) - 1)
  }

  /** Counted in whole seconds. */
  ghost predicate Spaced(resets: seq<nat>) {
    forall k :: 0 <= k < |resets| ==> WholeSecond(resets[k]) >= WholeSecond(resets[0]) + Spacing(k)
  }

  /** When a row that has been retried may be retried next. */
  function NextDue(resets: seq<nat>): nat
    requires resets != []
  {
    WholeSecond(resets[|resets| - 1]) + BackoffSeconds(|resets| - 1) * SECOND
  }

  ghost predicate RowSpaced(q: Queue, id: nat) {
    var resets := Resets(q, id);
    && Spaced(resets)
    && (if id in q.rows then |resets| == q.rows[id].tries <= MAX_TRIES else resets == [])
    && (resets != [] ==> q.rows[id].processAfter == At(NextDue(resets)))
    && (id in q.failedAt ==> |resets| == MAX_TRIES && q.failedAt[id] >= WholeSecond(resets[0]) + Spacing(MAX_TRIES))
    && (id in q.rows && q.rows[id].status == Failed ==> id in q.failedAt)
  }

  lemma SpacingGrows(k: nat)
    ensures Spacing(k) + BackoffSeconds(k) * SECOND == Spacing(k + 1)
  {
    BackoffIsPow2(k);
  }

  /** Seconds are compared with seconds. */
  lemma SecondReached(clock: nat, due: nat)
    requires due <= clock && due % SECOND == 0
    ensures due <= WholeSecond(clock)
  {
  }

  lemma SpacedAppend(resets: seq<nat>, clock: nat)
    requires Spaced(resets)
    requires resets != [] ==> WholeSecond(clock) >= WholeSecond(resets[0]) + Spacing(|resets|)
    ensures Spaced(resets + [clock])
  {
    assert Spacing(0) == 0;
  }

  lemma NextDueIsSpaced(resets: seq<nat>)
    requires resets != [] && Spaced(resets)
    ensures NextDue(resets) >= WholeSecond(resets[0]) + Spacing(|resets|) && NextDue(resets) % SECOND == 0
  {
    SpacingGrows(|resets| - 1);
    WholeBackoff(WholeSecond(resets[|resets| - 1]), BackoffSeconds(|resets| - 1));
  }

  lemma ResetRowSpaced(q: Queue, claim: Claim, now: nat, id: nat)
    requires RowSpaced(q, id) && claim.clock >= now
    ensures RowSpaced(NoteReset(q, claim, now).(rows := ResetRow(q.rows, claim, now)), id)
  {
    if claim.id == id && Stuck(q.rows, id, now) {
      var resets := Resets(q, id);
      if resets != [] {
        NextDueIsSpaced(resets);
        SecondReached(claim.clock, NextDue(resets));
      }
      SpacedAppend(resets, claim.clock);
    }
  }

  lemma WholeBackoff(second: nat, seconds: nat)
    requires second % SECOND == 0
    ensures (second + seconds * SECOND) % SECOND == 0
  {
  }

  lemma {:induction false} ResetSpaced(q: Queue, claims: seq<Claim>, now: nat, id: nat)
    requires RowSpaced(q, id) && Forward(claims, now)
    ensures RowSpaced(ResetQueue(q, claims, now), id)
    decreases |claims|
  {
    if claims != [] {
      ResetSpaced(q, claims[..|claims| - 1], now, id);
      ResetRowSpaced(ResetQueue(q, claims[..|claims| - 1], now), claims[|claims| - 1], now, id);
    }
  }

  /** The history changes nothing: its rows are those of the source's reset. */
  lemma {:induction false} QueueRowsAreReset(q: Queue, claims: seq<Claim>, now: nat)
    ensures ResetQueue(q, claims, now).rows == Reset(q.rows, claims, now)
    decreases |claims|
  {
    if claims != [] {
      QueueRowsAreReset(q, claims[..|claims| - 1], now);
    }
  }

  lemma StepSpaced(q: Queue, step: Step, id: nat)
    requires RowSpaced(q, id)
    requires step.ResetClaims? ==> Forward(step.claims, step.now)
    ensures RowSpaced(Apply(q, step), id)
  {
    if step.ResetClaims? {
      ResetSpaced(q, step.claims, step.now, id);
    }
  }

  /** In every run, for every row: it is retried at most five times, the (k+1)-th time at least 5 * (2^k - 1) seconds
      after the first, on the clock of whole seconds; in milliseconds, less than one second sooner. */
  lemma {:induction false} RetriesAreSpaced(steps: seq<Step>, id: nat)
    requires ClockForward(steps)
    ensures RowSpaced(Run(steps), id)
    ensures
      var resets := Resets(Run(steps), id);
      forall k :: 0 <= k < |resets| ==> resets[k] > resets[0] + Spacing(k) - SECOND
    decreases |steps|
  {
    if steps != [] {
      var init := steps[..|steps| - 1];
      RetriesAreSpaced(init, id);
      StepSpaced(Run(init), steps[|steps| - 1], id);
    }
    SecondsToMilliseconds(Resets(Run(steps), id));
  }

  lemma SecondsToMilliseconds(resets: seq<nat>)
    requires Spaced(resets)
    ensures forall k :: 0 <= k < |resets| ==> resets[k] > resets[0] + Spacing(k) - SECOND
  {
  }

  lemma FullSpacing()
    ensures Spacing(MAX_TRIES) == 155 * SECOND
  {
    assert Pow2(5) == 2 * Pow2(4) == 4 * Pow2(3) == 8 * Pow2(2) == 16 * Pow2(1) == 32;
  }

  /** A row is given up after five retries: at least 155 seconds after the second of its first retry, so more than 154
      seconds after that retry. */
  lemma {:induction false} GivenUpAfter155Seconds(steps: seq<Step>, id: nat)
    requires ClockForward(steps) && id in Run(steps).rows && Run(steps).rows[id].status == Failed
    ensures
      var (resets, failedAt) := (Resets(Run(steps), id), Run(steps).failedAt);
      && |resets| == 5 && id in failedAt
      && failedAt[id] >= WholeSecond(resets[0]) + 155 * SECOND
      && failedAt[id] > resets[0] + 154 * SECOND
  {
    RetriesAreSpaced(steps, id);
    FullSpacing();
  }

  // ---- Exactly when the bounds hold to the millisecond ----

  ghost predicate SpacedToTheMillisecond(q: Queue, id: nat) {
    var resets := Resets(q, id);
    forall k :: 0 <= k < |resets| ==> resets[k] >= resets[0] + Spacing(k)
  }

  ghost predicate GivenUpLate(q: Queue, id: nat) {
    id in q.failedAt && Resets(q, id) != [] ==> q.failedAt[id] >= Resets(q, id)[0] + 155 * SECOND
  }

  lemma {:induction false} NoteKeepsFirst(q: Queue, claims: seq<Claim>, now: nat, id: nat)
    ensures Resets(q, id) <= Resets(ResetQueue(q, claims, now), id)
    decreases |claims|
  {
    if claims != [] {
      NoteKeepsFirst(q, claims[..|claims| - 1], now, id);
    }
  }

  lemma {:induction false} FirstRetryStays(steps: seq<Step>, more: seq<Step>, id: nat)
    ensures Resets(Run(steps), id) <= Resets(Run(steps + more), id)
    decreases |more|
  {
    if more == [] {
      assert steps + more == steps;
    } else {
      var init, last := more[..|more| - 1], more[|more| - 1];
      FirstRetryStays(steps, init, id);
      RunOne(steps + init, last);
      assert steps + more == (steps + init) + [last];
      if last.ResetClaims? {
        NoteKeepsFirst(Run(steps + init), last.claims, last.now, id);
      }
    }
  }

  lemma {:induction false} RunOne(steps: seq<Step>, step: Step)
    ensures Run(steps + [step]) == Apply(Run(steps), step)
  {
    assert (steps + [step])[..|steps|] == steps;
  }

  /** A pending row, retried `n` times and each time but the first as soon as it was due. */
  ghost predicate OnTime(q: Queue, id: nat, first: nat, n: nat) {
    && Waits(q.rows, id) && q.rows[id].tries == n == |Resets(q, id)| && n >= 1
    && Resets(q, id)[0] == first
    && q.rows[id].processAfter.ms == WholeSecond(first) + Spacing(n)
    && (n > 1 ==> Resets(q, id)[1] == WholeSecond(first) + Spacing(1))
  }

  /** The reset of one claim at one moment. */
  function ResetAt(id: nat, now: nat): Step {
    ResetClaims([Claim(id, now)], now)
  }

  lemma ResetOne(q: Queue, id: nat, now: nat)
    ensures
      var claim := Claim(id, now);
      Apply(q, ResetAt(id, now)) == NoteReset(q, claim, now).(rows := ResetRow(q.rows, claim, now))
  {
    assert [Claim(id, now)][..0] == [];
    assert ResetQueue(q, [], now) == q;
  }

  lemma RetriedWhenDue(q: Queue, id: nat, first: nat, n: nat)
    requires OnTime(q, id, first, n) && n < MAX_TRIES
    ensures OnTime(Apply(q, ResetAt(id, WholeSecond(first) + Spacing(n))), id, first, n + 1)
  {
    var due := WholeSecond(first) + Spacing(n);
    ResetOne(q, id, due);
    SpacingGrows(n);
    WholeBackoff(WholeSecond(first), 5 * (Pow2(n) - 1));
  }

  /** Any number of retries up to five can come as soon as they are due. */
  lemma {:induction false} CanBeOnTime(steps: seq<Step>, id: nat, first: nat, n: nat) returns (more: seq<Step>)
    requires OnTime(Run(steps), id, first, 1) && 1 <= n <= MAX_TRIES
    ensures ClockForward(more) && OnTime(Run(steps + more), id, first, n)
  {
    if n == 1 {
      more := [];
      assert steps + more == steps;
    } else {
      var before := CanBeOnTime(steps, id, first, n - 1);
      var step := ResetAt(id, WholeSecond(first) + Spacing(n - 1));
      RetriedWhenDue(Run(steps + before), id, first, n - 1);
      RunOne(steps + before, step);
      more := before + [step];
      assert steps + more == (steps + before) + [step];
    }
  }

  lemma CanBeGivenUpOnTime(steps: seq<Step>, id: nat, first: nat) returns (more: seq<Step>)
    requires OnTime(Run(steps), id, first, 1)
    ensures
      var q := Run(steps + more);
      && ClockForward(more) && id in q.failedAt && Resets(q, id) != [] && Resets(q, id)[0] == first
      && q.failedAt[id] == WholeSecond(first) + 155 * SECOND
  {
    FullSpacing();
    var before := CanBeOnTime(steps, id, first, MAX_TRIES);
    var step := ResetAt(id, WholeSecond(first) + 155 * SECOND);
    ResetOne(Run(steps + before), id, WholeSecond(first) + 155 * SECOND);
    RunOne(steps + before, step);
    more := before + [step];
    assert steps + more == (steps + before) + [step];
  }

  /** A row was retried once. Whatever happens then, its retries keep their spacing to the millisecond, exactly when
      that first retry came at the very start of a second; and exactly then it is never given up sooner than 155 seconds
      after its first retry. */
  lemma {:induction false} MillisecondBoundsExactly(steps: seq<Step>, id: nat)
    requires ClockForward(steps) && |Resets(Run(steps), id)| == 1
    requires id in Run(steps).rows && Run(steps).rows[id].status == Pending
    ensures
      var wholeSecond := Resets(Run(steps), id)[0] % SECOND == 0;
      && (wholeSecond <==> forall more :: ClockForward(more) ==> SpacedToTheMillisecond(Run(steps + more), id))
      && (wholeSecond <==> forall more :: ClockForward(more) ==> GivenUpLate(Run(steps + more), id))
  {
    var first := Resets(Run(steps), id)[0];
    if first % SECOND == 0 {
      forall more | ClockForward(more)
        ensures SpacedToTheMillisecond(Run(steps + more), id) && GivenUpLate(Run(steps + more), id)
      {
        WholeSecondIsKept(steps, more, id);
      }
    } else {
      RetriesAreSpaced(steps, id);
      SpacingGrows(0);
      var twice := CanBeOnTime(steps, id, first, 2);
      assert !SpacedToTheMillisecond(Run(steps + twice), id);
      var failing := CanBeGivenUpOnTime(steps, id, first);
      assert !GivenUpLate(Run(steps + failing), id);
    }
  }

  lemma {:induction false} WholeSecondIsKept(steps: seq<Step>, more: seq<Step>, id: nat)
    requires ClockForward(steps) && ClockForward(more) && Resets(Run(steps), id) != []
    requires Resets(Run(steps), id)[0] % SECOND == 0
    ensures SpacedToTheMillisecond(Run(steps + more), id) && GivenUpLate(Run(steps + more), id)
  {
    RetriesAreSpaced(steps + more, id);
    FirstRetryStays(steps, more, id);
    FullSpacing();
  }
}
