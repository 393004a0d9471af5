/**
 * The outbound delivery loop of src/delivery.ts as a transition system. A step is the code between two awaits:
 * any number of poll chains run at once, and their steps interleave in any order, with writes by the containers
 * and with crashes of the host.
 */
module Delivery {
  import opened Prelude

  /** A row of a session's messages_out table. */
  datatype Row = Row(session: nat, id: nat)

  /** The status column of the delivered table. */
  datatype Status = Sent | GaveUp

  /** A drain in progress: the rows still to handle, and whether the adapter has taken the first of them. */
  datatype Frame = Frame(session: nat, todo: seq<nat>, accepted: bool)

  /** An attempt to deliver a row, by the drain of a chain. */
  datatype Attempt = Attempt(chain: nat, row: Row)

  /** What happened so far, for statements about runs. `settles` and `fails` count since the host started:
      attempts that ended, and those that ended in an exception. `lost` counts the rows that the adapter took
      and the host then failed to record. `log` has every attempt that ended, in order. */
  datatype History = History(
    accepts: multiset<Row>,
    lost: multiset<Row>,
    settles: multiset<Row>,
    fails: multiset<Row>,
    log: seq<Attempt>)

  datatype Host = Host(
    outbox: set<Row>,
    delivered: map<Row, Status>,
    attempts: map<nat, nat>,
    inflight: set<nat>,
    frames: map<nat, Frame>,
    history: History)

  datatype Step =
    | Write(row: Row)
    | Begin(chain: nat, session: nat, opens: bool, due: seq<nat>)
    | Accept(chain: nat)
    | Settle(chain: nat, ok: bool)
    | Finish(chain: nat)
    | Crash

  const MAX_DELIVERY_ATTEMPTS: nat := 3

  const FIRST_START := Host({}, map[], map[], {}, map[], History(multiset{}, multiset{}, multiset{}, multiset{}, []))

  // ---- The steps ----

  predicate Distinct(ids: seq<nat>) {
    forall i, j :: 0 <= i < j < |ids| ==> ids[i] != ids[j]
  }

  /** What the due query can answer: rows of the session, each once. */
  predicate IsDue(h: Host, session: nat, due: seq<nat>) {
    Distinct(due) && forall i :: 0 <= i < |due| ==> Row(session, due[i]) in h.outbox
  }

  function Undelivered(delivered: map<Row, Status>, session: nat, due: seq<nat>): seq<nat> {
    if due == [] then []
    else
      var rest := Undelivered(delivered, session, due[1..]);
      if Row(session, due[0]) in delivered then rest else [due[0]] + rest
  }

  /** A poll reaches a session: nothing happens while it is being drained, when its files cannot be opened, or when
      nothing is due. */
  function BeginStep(h: Host, chain: nat, session: nat, opens: bool, due: seq<nat>): Host {
    if chain in h.frames || session in h.inflight || !opens || !IsDue(h, session, due) then h else
      var todo := Undelivered(h.delivered, session, due);
      if todo == [] then h else
        h.(inflight := h.inflight + {session}, frames := h.frames[chain := Frame(session, todo, false)])
  }

  predicate Busy(h: Host, chain: nat) {
    chain in h.frames && h.frames[chain].todo != []
  }

  function Head(f: Frame): Row
    requires f.todo != []
  {
    Row(f.session, f.todo[0])
  }

  /** The adapter takes the message. */
  function AcceptStep(h: Host, chain: nat): Host {
    if !Busy(h, chain) || h.frames[chain].accepted then h else
      var f := h.frames[chain];
      h.(frames := h.frames[chain := f.(accepted := true)],
         history := h.history.(accepts := h.history.accepts + multiset{Head(f)}))
  }

  /** INSERT OR IGNORE. */
  function Mark(delivered: map<Row, Status>, row: Row, status: Status): map<Row, Status> {
    if row in delivered then delivered else delivered[row := status]
  }

  function AttemptsSoFar(attempts: map<nat, nat>, id: nat): nat {
    if id in attempts then attempts[id] else 0
  }

  function Recorded(history: History, attempt: Attempt, ok: bool, accepted: bool): History {
    var row := attempt.row;
    history.(
      settles := history.settles + multiset{row},
      fails := if ok then history.fails else history.fails + multiset{row},
      lost := if !ok && accepted then history.lost + multiset{row} else history.lost,
      log := history.log + [attempt])
  }

  /** deliverMessage returns or throws, and the outcome is recorded. */
  function SettleStep(h: Host, chain: nat, ok: bool): Host {
    if !Busy(h, chain) then h else
      var f := h.frames[chain];
      var row := Head(f);
      var tries := AttemptsSoFar(h.attempts, row.id) + 1;
      var next := h.(
        frames := h.frames[chain := Frame(f.session, f.todo[1..], false)],
        history := Recorded(h.history, Attempt(chain, row), ok, f.accepted));
      if ok then next.(delivered := Mark(h.delivered, row, Sent), attempts := h.attempts - {row.id})
      else if tries >= MAX_DELIVERY_ATTEMPTS then
        next.(delivered := Mark(h.delivered, row, GaveUp), attempts := h.attempts - {row.id})
      else next.(attempts := h.attempts[row.id := tries])
  }

  /** The drain returns, and the guard is released. */
  function FinishStep(h: Host, chain: nat): Host {
    if chain !in h.frames || h.frames[chain].todo != [] then h else
      h.(inflight := h.inflight - {h.frames[chain].session}, frames := h.frames - {chain})
  }

  /** The rows that the adapter has and the host has not recorded yet. */
  function Pending(h: Host): set<Row> {
    set c | c in h.frames && h.frames[c].todo != [] && h.frames[c].accepted :: Head(h.frames[c])
  }

  /** The tables stay; everything in memory goes. */
  function CrashStep(h: Host): Host {
    Host(h.outbox, h.delivered, map[], {}, map[],
      History(h.history.accepts, h.history.lost + multiset(Pending(h)), multiset{}, multiset{}, h.history.log))
  }

  function Apply(h: Host, step: Step): Host {
    match step
    case Write(row) => h.(outbox := h.outbox + {row})
    case Begin(chain, session, opens, due) => BeginStep(h, chain, session, opens, due)
    case Accept(chain) => AcceptStep(h, chain)
    case Settle(chain, ok) => SettleStep(h, chain, ok)
    case Finish(chain) => FinishStep(h, chain)
    case Crash => CrashStep(h)
  }

  function Run(h: Host, steps: seq<Step>): Host
    decreases |steps|
  {
    if steps == [] then h else Apply(Run(h, steps[..|steps| - 1]), steps[|steps| - 1])
  }

  // ---- Drains exclude each other, and the snapshot stays exact ----

  /** Every drain holds the guard of its session, the guard is held for nothing else, and no two drains share a
      session. */
  ghost predicate Exclusive(h: Host) {
    && (forall c :: c in h.frames ==> h.frames[c].session in h.inflight)
    && (forall s :: s in h.inflight ==> exists c :: c in h.frames && h.frames[c].session == s)
    && (forall c, d :: c in h.frames && d in h.frames && c != d ==> h.frames[c].session != h.frames[d].session)
  }

  /** What a drain read when it began still says which of its remaining rows are delivered: none. */
  ghost predicate SnapshotExact(h: Host, f: Frame) {
    && Distinct(f.todo)
    && (f.todo == [] ==> !f.accepted)
    && forall i :: 0 <= i < |f.todo| ==>
         Row(f.session, f.todo[i]) in h.outbox && Row(f.session, f.todo[i]) !in h.delivered
  }

  ghost predicate Safe(h: Host) {
    && Exclusive(h)
    && (forall c :: c in h.frames ==> SnapshotExact(h, h.frames[c]))
    && (forall row :: row in h.delivered ==> row in h.outbox)
  }

  function NotDelivered(delivered: map<Row, Status>, session: nat): nat -> bool {
    (id: nat) => Row(session, id) !in delivered
  }

  /** `ids` are those of the due rows that are not delivered, in the order in which the query gave them. */
  ghost predicate IsBacklog(delivered: map<Row, Status>, session: nat, due: seq<nat>, ids: seq<nat>) {
    Filters(due, NotDelivered(delivered, session), ids)
  }

  lemma BacklogCons(delivered: map<Row, Status>, session: nat, id: nat, later: seq<nat>, rest: seq<nat>)
    requires IsBacklog(delivered, session, later, rest)
    ensures IsBacklog(delivered, session, [id] + later, if Row(session, id) in delivered then rest else [id] + rest)
  {
    FiltersCons(later, NotDelivered(delivered, session), rest, id);
  }

  /** The filter keeps exactly the undelivered rows, and keeps their order. */
  lemma {:induction false} UndeliveredIsExact(delivered: map<Row, Status>, session: nat, due: seq<nat>)
    ensures IsBacklog(delivered, session, due, Undelivered(delivered, session, due))
  {
    if due == [] {
      FiltersNone(NotDelivered(delivered, session));
    } else {
      UndeliveredIsExact(delivered, session, due[1..]);
      assert due == [due[0]] + due[1..];
      BacklogCons(delivered, session, due[0], due[1..], Undelivered(delivered, session, due[1..]));
    }
  }

  lemma BacklogIsSnapshot(h: Host, session: nat, due: seq<nat>, ids: seq<nat>)
    requires IsDue(h, session, due) && IsBacklog(h.delivered, session, due, ids)
    ensures SnapshotExact(h, Frame(session, ids, false))
  {
    var keep := NotDelivered(h.delivered, session);
    var at :| Picks(due, at, ids) && Keeps(due, keep, at);
    forall k | 0 <= k < |ids| ensures Row(session, ids[k]) !in h.delivered {
      assert at[k] in at && keep(due[at[k]]);
    }
  }

  lemma {:induction false} UndeliveredIsSnapshot(h: Host, session: nat, due: seq<nat>)
    requires IsDue(h, session, due)
    ensures SnapshotExact(h, Frame(session, Undelivered(h.delivered, session, due), false))
  {
    UndeliveredIsExact(h.delivered, session, due);
    BacklogIsSnapshot(h, session, due, Undelivered(h.delivered, session, due));
  }

  lemma BeginIsSafe(h: Host, chain: nat, session: nat, opens: bool, due: seq<nat>)
    requires Safe(h)
    ensures Safe(BeginStep(h, chain, session, opens, due))
  {
    if IsDue(h, session, due) {
      UndeliveredIsSnapshot(h, session, due);
      var n := BeginStep(h, chain, session, opens, due);
      if n != h {
        assert n.frames[chain].session == session;
        forall s | s in n.inflight ensures exists c :: c in n.frames && n.frames[c].session == s {
          if s != session {
            var c :| c in h.frames && h.frames[c].session == s;
            assert c in n.frames && n.frames[c].session == s;
          }
        }
      }
    }
  }

  lemma SettleIsSafe(h: Host, chain: nat, ok: bool)
    requires Safe(h)
    ensures Safe(SettleStep(h, chain, ok))
  {
    if Busy(h, chain) {
      var n := SettleStep(h, chain, ok);
      var f := h.frames[chain];
      assert f.todo[0] !in f.todo[1..];
      assert SnapshotExact(n, n.frames[chain]);
      ExclusiveByFrames(h, n);
      forall c | c in n.frames && c != chain ensures SnapshotExact(n, n.frames[c]) {
        assert n.frames[c] == h.frames[c] && h.frames[c].session != f.session;
      }
    }
  }

  /** Exclusion only depends on which chain drains which session. */
  lemma ExclusiveByFrames(h: Host, n: Host)
    requires Exclusive(h) && n.inflight == h.inflight && n.frames.Keys == h.frames.Keys
    requires forall c :: c in h.frames ==> n.frames[c].session == h.frames[c].session
    ensures Exclusive(n)
  {
    forall s | s in n.inflight ensures exists c :: c in n.frames && n.frames[c].session == s {
      var c :| c in h.frames && h.frames[c].session == s;
      assert c in n.frames && n.frames[c].session == s;
    }
  }

  lemma FinishIsSafe(h: Host, chain: nat)
    requires Safe(h)
    ensures Safe(FinishStep(h, chain))
  {
    var n := FinishStep(h, chain);
    forall s | s in n.inflight ensures exists c :: c in n.frames && n.frames[c].session == s {
      var c :| c in h.frames && h.frames[c].session == s;
      assert c in n.frames && n.frames[c].session == s;
    }
  }

  lemma WriteIsSafe(h: Host, row: Row)
    requires Safe(h)
    ensures Safe(Apply(h, Write(row)))
  {
    var n := Apply(h, Write(row));
    ExclusiveByFrames(h, n);
    assert forall f :: SnapshotExact(h, f) ==> SnapshotExact(n, f);
  }

  lemma AcceptIsSafe(h: Host, chain: nat)
    requires Safe(h)
    ensures Safe(AcceptStep(h, chain))
  {
    if Busy(h, chain) {
      var n := AcceptStep(h, chain);
      ExclusiveByFrames(h, n);
      assert forall f :: SnapshotExact(h, f) ==> SnapshotExact(n, f);
      assert SnapshotExact(n, n.frames[chain]);
    }
  }

  lemma StepIsSafe(h: Host, step: Step)
    requires Safe(h)
    ensures Safe(Apply(h, step))
  {
    match step
    case Write(row) => WriteIsSafe(h, row);
    case Begin(chain, session, opens, due) => BeginIsSafe(h, chain, session, opens, due);
    case Accept(chain) => AcceptIsSafe(h, chain);
    case Settle(chain, ok) => SettleIsSafe(h, chain, ok);
    case Finish(chain) => FinishIsSafe(h, chain);
    case Crash =>
  }

  /** In every run, whatever the interleaving: drains of one session exclude each other, and no drain ever comes to
      a row that is already delivered. */
  lemma {:induction false} DrainsAreExclusive(steps: seq<Step>)
    ensures Safe(Run(FIRST_START, steps))
    decreases |steps|
  {
    if steps != [] {
      DrainsAreExclusive(steps[..|steps| - 1]);
      StepIsSafe(Run(FIRST_START, steps[..|steps| - 1]), steps[|steps| - 1]);
    }
  }

  // ---- The order of attempts ----

  function RowsOf(session: nat, ids: seq<nat>): seq<Row> {
    seq(|ids|, i requires 0 <= i < |ids| => Row(session, ids[i]))
  }

  /** The rows that a chain has attempted, in order. */
  function Attempted(log: seq<Attempt>, chain: nat): seq<Row>
    decreases |log|
  {
    if log == [] then [] else
      var before, last := Attempted(log[..|log| - 1], chain), log[|log| - 1];
      if last.chain == chain then before + [last.row] else before
  }

  /** What a chain has attempted, followed by what its drain still has to attempt. */
  function Course(h: Host, chain: nat): seq<Row>
    requires chain in h.frames
  {
    Attempted(h.history.log, chain) + RowsOf(h.frames[chain].session, h.frames[chain].todo)
  }

  lemma SettleKeepsCourse(h: Host, chain: nat, ok: bool, other: nat)
    requires other in h.frames
    ensures Course(SettleStep(h, chain, ok), other) == Course(h, other)
  {
    if Busy(h, chain) {
      var n, f := SettleStep(h, chain, ok), h.frames[chain];
      assert n.history.log[..|h.history.log|] == h.history.log;
      assert RowsOf(f.session, f.todo) == [Head(f)] + RowsOf(f.session, f.todo[1..]);
    }
  }

  lemma StepKeepsCourse(h: Host, step: Step, chain: nat)
    requires chain in h.frames && chain in Apply(h, step).frames
    ensures Apply(h, step).frames[chain].session == h.frames[chain].session
    ensures Course(Apply(h, step), chain) == Course(h, chain)
  {
    if step.Settle? {
      SettleKeepsCourse(h, step.chain, step.ok, chain);
    } else {
      OthersKeepCourse(h, step, chain);
    }
  }

  lemma OthersKeepCourse(h: Host, step: Step, chain: nat)
    requires chain in h.frames && chain in Apply(h, step).frames && !step.Settle?
    ensures
      var (f, n) := (h.frames[chain], Apply(h, step).frames[chain]);
      n.session == f.session && n.todo == f.todo && Apply(h, step).history.log == h.history.log
  {
  }

  /** The drain of the chain goes on all the while. */
  ghost predicate KeepsDraining(h: Host, chain: nat, more: seq<Step>) {
    forall i :: 0 <= i <= |more| ==> chain in Run(h, more[..i]).frames
  }

  lemma {:induction false} CourseStays(h: Host, chain: nat, more: seq<Step>)
    requires KeepsDraining(h, chain, more)
    ensures chain in h.frames && chain in Run(h, more).frames
    ensures Run(h, more).frames[chain].session == h.frames[chain].session
    ensures Course(Run(h, more), chain) == Course(h, chain)
    decreases |more|
  {
    assert more[..|more|] == more && chain in Run(h, more[..0]).frames;
    if more != [] {
      var init := more[..|more| - 1];
      assert forall i :: 0 <= i <= |init| ==> init[..i] == more[..i];
      CourseStays(h, chain, init);
      StepKeepsCourse(Run(h, init), more[|more| - 1], chain);
    }
  }

  /** In every run, whatever else happens: what a drain has attempted, and what it still has to attempt, are together
      the rows that were due and undelivered when it began, in the order in which the query gave them. */
  lemma {:induction false} DrainKeepsTheOrder(h: Host, chain: nat, session: nat, due: seq<nat>, more: seq<Step>)
    requires chain !in h.frames
    requires KeepsDraining(Apply(h, Begin(chain, session, true, due)), chain, more)
    ensures
      var n := Run(Apply(h, Begin(chain, session, true, due)), more);
      && chain in n.frames && n.frames[chain].session == session
      && exists ids ::
           && IsBacklog(h.delivered, session, due, ids)
           && Course(n, chain) == Attempted(h.history.log, chain) + RowsOf(session, ids)
  {
    CourseStays(Apply(h, Begin(chain, session, true, due)), chain, more);
    UndeliveredIsExact(h.delivered, session, due);
  }

  // ---- At most once ----

  /** The adapter took a row once more than its loss was noted only while or after that one time is recorded. */
  ghost predicate OnceAtMost(h: Host, row: Row) {
    h.history.accepts[row] <=
    h.history.lost[row] + if row in Pending(h) || (row in h.delivered && h.delivered[row] == Sent) then 1 else 0
  }

  lemma PendingHeads(h: Host)
    requires Safe(h)
    ensures forall row :: row in Pending(h) ==> row !in h.delivered
    ensures forall c :: c in h.frames && h.frames[c].todo != [] ==>
              (Head(h.frames[c]) in Pending(h) <==> h.frames[c].accepted)
  {
    forall c | c in h.frames && h.frames[c].todo != []
      ensures Head(h.frames[c]) in Pending(h) <==> h.frames[c].accepted
    {
      if Head(h.frames[c]) in Pending(h) {
        var d :| && d in h.frames && h.frames[d].todo != [] && h.frames[d].accepted
                 && Head(h.frames[d]) == Head(h.frames[c]);
        assert c == d;
      }
    }
  }

  /** A step of one chain leaves the pending rows of the others alone. */
  lemma PendingElsewhere(h: Host, n: Host, chain: nat)
    requires chain in h.frames && n.frames.Keys <= h.frames.Keys
    requires forall c :: c in h.frames && c != chain ==> c in n.frames && n.frames[c] == h.frames[c]
    requires h.frames[chain].todo != []
    ensures forall row :: row in Pending(h) && row != Head(h.frames[chain]) ==> row in Pending(n)
  {
    forall row | row in Pending(h) && row != Head(h.frames[chain]) ensures row in Pending(n) {
      var d :| d in h.frames && h.frames[d].todo != [] && h.frames[d].accepted && Head(h.frames[d]) == row;
      assert d in n.frames && n.frames[d].todo != [] && n.frames[d].accepted && Head(n.frames[d]) == row;
    }
  }

  lemma AcceptOnce(h: Host, chain: nat, row: Row)
    requires Safe(h) && OnceAtMost(h, row)
    ensures OnceAtMost(AcceptStep(h, chain), row)
  {
    var n := AcceptStep(h, chain);
    if n != h {
      var own := Head(h.frames[chain]);
      PendingHeads(h);
      assert own !in h.delivered && own !in Pending(h);
      assert Head(n.frames[chain]) in Pending(n);
      if row != own {
        PendingElsewhere(h, n, chain);
      }
    }
  }

  lemma SettleOnce(h: Host, chain: nat, ok: bool, row: Row)
    requires Safe(h) && OnceAtMost(h, row)
    ensures OnceAtMost(SettleStep(h, chain, ok), row)
  {
    if Busy(h, chain) {
      PendingHeads(h);
      PendingElsewhere(h, SettleStep(h, chain, ok), chain);
    }
  }

  lemma PendingGrows(h: Host, n: Host)
    requires forall c :: c in h.frames && h.frames[c].todo != [] ==> c in n.frames && n.frames[c] == h.frames[c]
    ensures Pending(h) <= Pending(n)
  {
    forall row | row in Pending(h) ensures row in Pending(n) {
      var d :| d in h.frames && h.frames[d].todo != [] && h.frames[d].accepted && Head(h.frames[d]) == row;
      assert d in n.frames && n.frames[d].todo != [] && n.frames[d].accepted && Head(n.frames[d]) == row;
    }
  }

  lemma StepOnce(h: Host, step: Step, row: Row)
    requires Safe(h) && OnceAtMost(h, row)
    ensures OnceAtMost(Apply(h, step), row)
  {
    match step
    case Accept(chain) => AcceptOnce(h, chain, row);
    case Settle(chain, ok) => SettleOnce(h, chain, ok, row);
    case Crash => PendingHeads(h);
    case _ => PendingGrows(h, Apply(h, step));
  }

  /** In every run, the adapter takes each row at most once, plus once for every time that it took the row and the
      host crashed, or threw, before recording it. */
  lemma {:induction false} DeliveredAtMostOnce(steps: seq<Step>, row: Row)
    ensures OnceAtMost(Run(FIRST_START, steps), row)
    ensures
      var history := Run(FIRST_START, steps).history;
      history.accepts[row] <= 1 + history.lost[row]
    decreases |steps|
  {
    if steps != [] {
      var before := steps[..|steps| - 1];
      DeliveredAtMostOnce(before, row);
      DrainsAreExclusive(before);
      StepOnce(Run(FIRST_START, before), steps[|steps| - 1], row);
    }
  }

  /** A row with a final status is never attempted again and keeps its status: not even a crash reopens it. */
  lemma FinalIsFinal(h: Host, step: Step, row: Row)
    requires Safe(h) && row in h.delivered
    ensures
      var n := Apply(h, step);
      && row in n.delivered && n.delivered[row] == h.delivered[row]
      && n.history.accepts[row] == h.history.accepts[row]
      && n.history.settles[row] <= h.history.settles[row]
  {
  }

  // ---- Three attempts ----

  ghost predicate UniqueIds(rows: set<Row>) {
    forall a, b :: a in rows && b in rows && a.id == b.id ==> a == b
  }

  /** The counter of a row without a final status is its failures since the host started, at most two; a final row
      has no counter, and was attempted at most three times since the host started. */
  ghost predicate CountsOwnFailures(h: Host, row: Row) {
    var (settles, fails) := (h.history.settles[row], h.history.fails[row]);
    if row !in h.delivered then
      && settles == fails == AttemptsSoFar(h.attempts, row.id)
      && fails < MAX_DELIVERY_ATTEMPTS
      && (row.id in h.attempts ==> fails > 0)
    else
      && row.id !in h.attempts
      && settles <= MAX_DELIVERY_ATTEMPTS
      && (settles > 0 ==> fails == if h.delivered[row] == Sent then settles - 1 else MAX_DELIVERY_ATTEMPTS)
  }

  ghost predicate Counting(h: Host) {
    forall row :: row in h.outbox ==> CountsOwnFailures(h, row)
  }

  /** Nothing is counted for a row that no container wrote. */
  ghost predicate NoStrays(h: Host) {
    && (forall row :: h.history.settles[row] > 0 || h.history.fails[row] > 0 ==> row in h.outbox)
    && (forall id :: id in h.attempts ==> exists row :: row in h.outbox && row.id == id)
  }

  lemma SettleCountsItsRow(h: Host, chain: nat, ok: bool)
    requires Busy(h, chain) && CountsOwnFailures(h, Head(h.frames[chain])) && Head(h.frames[chain]) !in h.delivered
    ensures CountsOwnFailures(SettleStep(h, chain, ok), Head(h.frames[chain]))
  {
  }

  lemma SettleCountsOtherRows(h: Host, chain: nat, ok: bool, row: Row)
    requires Busy(h, chain) && CountsOwnFailures(h, row) && row.id != Head(h.frames[chain]).id
    ensures CountsOwnFailures(SettleStep(h, chain, ok), row)
  {
  }

  lemma SettleLeavesNoStrays(h: Host, chain: nat, ok: bool)
    requires Busy(h, chain) && Head(h.frames[chain]) in h.outbox && NoStrays(h)
    ensures NoStrays(SettleStep(h, chain, ok))
  {
    var n := SettleStep(h, chain, ok);
    var own := Head(h.frames[chain]);
    forall id | id in n.attempts ensures exists row :: row in n.outbox && row.id == id {
      if id == own.id {
        assert own in n.outbox;
      } else {
        var row :| row in h.outbox && row.id == id;
        assert row in n.outbox;
      }
    }
  }

  lemma SettleCounts(h: Host, chain: nat, ok: bool)
    requires Safe(h) && UniqueIds(h.outbox) && Counting(h) && NoStrays(h)
    ensures Counting(SettleStep(h, chain, ok)) && NoStrays(SettleStep(h, chain, ok))
  {
    if Busy(h, chain) {
      var own := Head(h.frames[chain]);
      assert SnapshotExact(h, h.frames[chain]);
      assert own in h.outbox && own !in h.delivered;
      forall row | row in h.outbox ensures CountsOwnFailures(SettleStep(h, chain, ok), row) {
        assert CountsOwnFailures(h, row);
        if row == own {
          SettleCountsItsRow(h, chain, ok);
        } else {
          SettleCountsOtherRows(h, chain, ok, row);
        }
      }
      SettleLeavesNoStrays(h, chain, ok);
    }
  }

  /** The counts only depend on the tables, the counters and the counted history. */
  lemma SameCounts(h: Host, n: Host)
    requires Counting(h) && NoStrays(h)
    requires n.outbox == h.outbox && n.delivered == h.delivered && n.attempts == h.attempts
    requires n.history.settles == h.history.settles && n.history.fails == h.history.fails
    ensures Counting(n) && NoStrays(n)
  {
    forall row | row in n.outbox ensures CountsOwnFailures(n, row) {
      assert CountsOwnFailures(h, row);
    }
  }

  lemma WriteCounts(h: Host, row: Row)
    requires Safe(h) && UniqueIds(h.outbox + {row}) && Counting(h) && NoStrays(h)
    ensures Counting(Apply(h, Write(row))) && NoStrays(Apply(h, Write(row)))
  {
    var n := Apply(h, Write(row));
    forall id | id in n.attempts ensures exists r :: r in n.outbox && r.id == id {
      var r :| r in h.outbox && r.id == id;
      assert r in n.outbox;
    }
    forall r | r in n.outbox ensures CountsOwnFailures(n, r) {
      if r in h.outbox {
        assert CountsOwnFailures(h, r);
      } else {
        forall q | q in h.outbox ensures q.id != r.id {
          assert q in n.outbox;
        }
      }
    }
  }

  lemma CrashCounts(h: Host)
    requires Counting(h) && NoStrays(h)
    ensures Counting(CrashStep(h)) && NoStrays(CrashStep(h))
  {
    forall row | row in h.outbox ensures CountsOwnFailures(CrashStep(h), row) {
      assert CountsOwnFailures(h, row);
    }
  }

  lemma OthersCountNothing(h: Host, step: Step)
    requires step.Begin? || step.Accept? || step.Finish?
    ensures
      var n := Apply(h, step);
      && n.outbox == h.outbox && n.delivered == h.delivered && n.attempts == h.attempts
      && n.history.settles == h.history.settles && n.history.fails == h.history.fails
  {
  }

  lemma StepCounts(h: Host, step: Step)
    requires Safe(h) && UniqueIds(Apply(h, step).outbox) && Counting(h) && NoStrays(h)
    ensures Counting(Apply(h, step)) && NoStrays(Apply(h, step))
  {
    match step
    case Write(row) => WriteCounts(h, row);
    case Settle(chain, ok) => SettleCounts(h, chain, ok);
    case Crash => CrashCounts(h);
    case _ =>
      OthersCountNothing(h, step);
      SameCounts(h, Apply(h, step));
  }

  lemma {:induction false} UniqueIdsCount(steps: seq<Step>)
    requires UniqueIds(Run(FIRST_START, steps).outbox)
    ensures Counting(Run(FIRST_START, steps)) && NoStrays(Run(FIRST_START, steps))
    decreases |steps|
  {
    if steps != [] {
      var before := Run(FIRST_START, steps[..|steps| - 1]);
      assert before.outbox <= Run(FIRST_START, steps).outbox;
      UniqueIdsCount(steps[..|steps| - 1]);
      DrainsAreExclusive(steps[..|steps| - 1]);
      StepCounts(before, steps[|steps| - 1]);
    }
  }

  /** The counters are keyed by message id alone, so two sessions that use one id count on the same entry: here
      the other session's row has a failure on its counter without an attempt. */
  lemma SharedIdMiscounts(a: Row, b: Row)
    requires a.id == b.id && a != b
    ensures
      var h := Run(FIRST_START, [Write(a), Write(b), Begin(0, a.session, true, [a.id]), Settle(0, false)]);
      b in h.outbox && !CountsOwnFailures(h, b)
  {
    var h2 := Apply(Apply(FIRST_START, Write(a)), Write(b));
    assert [Write(a), Write(b)][..1] == [Write(a)] && [Write(a)][..0] == [];
    assert Run(FIRST_START, [Write(a)]) == Apply(FIRST_START, Write(a));
    assert Run(FIRST_START, [Write(a), Write(b)]) == h2;
    var begin := Begin(0, a.session, true, [a.id]);
    assert Undelivered(map[], a.session, [a.id]) == [a.id];
    assert [Write(a), Write(b), begin][..2] == [Write(a), Write(b)];
    assert Run(FIRST_START, [Write(a), Write(b), begin]) == Apply(h2, begin);
    assert [Write(a), Write(b), begin, Settle(0, false)][..3] == [Write(a), Write(b), begin];
  }

  ghost predicate WritesOnly(steps: seq<Step>, rows: set<Row>) {
    forall i :: 0 <= i < |steps| && steps[i].Write? ==> steps[i].row in rows
  }

  lemma {:induction false} OutboxIsWritten(steps: seq<Step>, rows: set<Row>)
    requires WritesOnly(steps, rows)
    ensures Run(FIRST_START, steps).outbox <= rows
    decreases |steps|
  {
    if steps != [] {
      OutboxIsWritten(steps[..|steps| - 1], rows);
    }
  }

  /** In every run each counter is its own row's failures, exactly when no two sessions can write one message id. */
  lemma CountersAreOwnExactlyForUniqueIds(rows: set<Row>)
    ensures UniqueIds(rows) <==>
            forall steps :: WritesOnly(steps, rows) ==> Counting(Run(FIRST_START, steps))
  {
    if UniqueIds(rows) {
      forall steps | WritesOnly(steps, rows) ensures Counting(Run(FIRST_START, steps)) {
        OutboxIsWritten(steps, rows);
        UniqueIdsCount(steps);
      }
    } else {
      var a, b :| a in rows && b in rows && a.id == b.id && a != b;
      var steps := MiscountingSteps(rows, a, b);
    }
  }

  lemma MiscountingSteps(rows: set<Row>, a: Row, b: Row) returns (steps: seq<Step>)
    requires a in rows && b in rows && a.id == b.id && a != b
    ensures WritesOnly(steps, rows) && !Counting(Run(FIRST_START, steps))
  {
    steps := [Write(a), Write(b), Begin(0, a.session, true, [a.id]), Settle(0, false)];
    SharedIdMiscounts(a, b);
  }

  // ---- ... and the bound itself ----

  /** One poll that finds just this row due, and fails to deliver it. */
  function FailingPoll(row: Row): seq<Step> {
    [Begin(0, row.session, true, [row.id]), Settle(0, false), Finish(0)]
  }

  /** Nothing is being drained, and the row waits for an attempt. */
  predicate Idle(h: Host, row: Row) {
    h.frames == map[] && h.inflight == {} && row in h.outbox && row !in h.delivered
  }

  /** What a failed attempt leaves. */
  function Failed(h: Host, row: Row): Host {
    var tries := AttemptsSoFar(h.attempts, row.id) + 1;
    var gone := tries >= MAX_DELIVERY_ATTEMPTS;
    h.(delivered := if gone then h.delivered[row := GaveUp] else h.delivered,
       attempts := if gone then h.attempts - {row.id} else h.attempts[row.id := tries],
       history := Recorded(h.history, Attempt(0, row), false, false))
  }

  lemma {:induction false} PollFails(h: Host, row: Row)
    requires Idle(h, row)
    ensures Run(h, FailingPoll(row)) == Failed(h, row)
  {
    var steps := FailingPoll(row);
    assert Undelivered(h.delivered, row.session, []) == [];
    assert Undelivered(h.delivered, row.session, [row.id]) == [row.id];
    assert steps[..2] == [steps[0], steps[1]] && steps[..2][..1] == [steps[0]] && [steps[0]][..0] == [];
    var begun := Apply(h, steps[0]);
    assert begun.frames == map[0 := Frame(row.session, [row.id], false)];
    assert Run(h, [steps[0]]) == begun;
    var settled := Apply(begun, steps[1]);
    assert settled.frames == map[0 := Frame(row.session, [], false)];
    assert Run(h, steps[..2]) == settled;
    assert settled.frames - {0} == h.frames && settled.inflight - {row.session} == h.inflight;
  }

  /** Failing polls, one after another. */
  function FailingPolls(rows: seq<Row>): seq<Step>
    decreases |rows|
  {
    if rows == [] then [] else FailingPolls(rows[..|rows| - 1]) + FailingPoll(rows[|rows| - 1])
  }

  lemma {:induction false} OnePollMore(h: Host, rows: seq<Row>, row: Row)
    requires Idle(Run(h, FailingPolls(rows)), row)
    ensures Run(h, FailingPolls(rows + [row])) == Failed(Run(h, FailingPolls(rows)), row)
  {
    assert (rows + [row])[..|rows|] == rows;
    RunMore(h, FailingPolls(rows), FailingPoll(row));
    PollFails(Run(h, FailingPolls(rows)), row);
  }

  /** When two sessions use one id, the third failure on their counter is put down to whichever of them is polled then.
      It gives that row up and deletes the counter of both. */
  lemma {:induction false} ThirdFailureForgetsBoth(h: Host, a: Row, b: Row)
    requires a.id == b.id && a != b && Idle(h, a) && Idle(h, b) && a.id !in h.attempts
    ensures
      var n := Run(h, FailingPolls([a, b, a]));
      Idle(n, b) && a.id !in n.attempts && n.history.settles[b] == h.history.settles[b] + 1
  {
    assert FailingPolls([]) == [] && Run(h, []) == h;
    OnePollMore(h, [], a);
    assert [] + [a] == [a] && [a] + [b] == [a, b] && [a, b] + [a] == [a, b, a];
    OnePollMore(h, [a], b);
    OnePollMore(h, [a, b], a);
  }

  /** A row without a counter can fail three times. */
  lemma {:induction false} ThreeMoreFailures(h: Host, rows: seq<Row>, b: Row)
    requires Idle(Run(h, FailingPolls(rows)), b) && b.id !in Run(h, FailingPolls(rows)).attempts
    ensures Run(h, FailingPolls(rows + [b] + [b] + [b])).history.settles[b] ==
            Run(h, FailingPolls(rows)).history.settles[b] + 3
  {
    OnePollMore(h, rows, b);
    OnePollMore(h, rows + [b], b);
    OnePollMore(h, rows + [b] + [b], b);
  }

  lemma SharedIdIsTriedFourTimes(a: Row, b: Row)
    requires a.id == b.id && a != b
    ensures Run(FIRST_START, [Write(a), Write(b)] + FailingPolls([a, b, a] + [b] + [b] + [b])).history.settles[b] == 4
  {
    var h := Run(FIRST_START, [Write(a), Write(b)]);
    assert [Write(a), Write(b)][..1] == [Write(a)] && [Write(a)][..0] == [];
    assert Run(FIRST_START, [Write(a)]) == Apply(FIRST_START, Write(a));
    assert h == Apply(Apply(FIRST_START, Write(a)), Write(b));
    ThirdFailureForgetsBoth(h, a, b);
    ThreeMoreFailures(h, [a, b, a], b);
    RunMore(FIRST_START, [Write(a), Write(b)], FailingPolls([a, b, a] + [b] + [b] + [b]));
  }

  lemma {:induction false} PollsWriteNothing(rows: seq<Row>, writes: seq<Step>, written: set<Row>)
    requires WritesOnly(writes, written)
    ensures WritesOnly(writes + FailingPolls(rows), written)
    decreases |rows|
  {
    if rows == [] {
      assert writes + FailingPolls(rows) == writes;
    } else {
      PollsWriteNothing(rows[..|rows| - 1], writes, written);
      assert writes + FailingPolls(rows) ==
             (writes + FailingPolls(rows[..|rows| - 1])) + FailingPoll(rows[|rows| - 1]);
    }
  }

  /** At most three attempts for each message since the host started, in every run, exactly when no two sessions can
      write one message id. */
  lemma ThreeAttemptsExactlyForUniqueIds(rows: set<Row>)
    ensures UniqueIds(rows) <==>
            forall steps, row :: WritesOnly(steps, rows) ==> Run(FIRST_START, steps).history.settles[row] <= 3
  {
    if UniqueIds(rows) {
      forall steps, row | WritesOnly(steps, rows) ensures Run(FIRST_START, steps).history.settles[row] <= 3 {
        OutboxIsWritten(steps, rows);
        UniqueIdsCount(steps);
        if row in Run(FIRST_START, steps).outbox {
          assert CountsOwnFailures(Run(FIRST_START, steps), row);
        }
      }
    } else {
      var a, b :| a in rows && b in rows && a.id == b.id && a != b;
      var polls := [a, b, a] + [b] + [b] + [b];
      SharedIdIsTriedFourTimes(a, b);
      PollsWriteNothing(polls, [Write(a), Write(b)], rows);
      assert Run(FIRST_START, [Write(a), Write(b)] + FailingPolls(polls)).history.settles[b] == 4;
    }
  }

  // ---- The source's state and its methods ----

  /** What a call of deliverMessage does: whether the adapter takes the message, and whether the call returns. */
  datatype Outcome = Outcome(accepted: bool, ok: bool)

  /** What happens to one message, when no other code comes in between. */
  function Handling(chain: nat, outcome: Outcome): seq<Step> {
    if outcome.accepted then [Accept(chain), Settle(chain, outcome.ok)] else [Settle(chain, outcome.ok)]
  }

  /** ... and to several, one after another. */
  function HandlingAll(chain: nat, ids: seq<nat>, outcomes: nat -> Outcome): seq<Step>
    decreases |ids|
  {
    if ids == [] then []
    else HandlingAll(chain, ids[..|ids| - 1], outcomes) + Handling(chain, outcomes(ids[|ids| - 1]))
  }

  class DeliveryHost {
    var outbox: set<Row>
    var delivered: map<Row, Status>
    var deliveryAttempts: map<nat, nat>
    var inflightDeliveries: set<nat>
    var frames: map<nat, Frame>
    ghost var history: History

    ghost function View(): Host
      reads this
    {
      Host(outbox, delivered, deliveryAttempts, inflightDeliveries, frames, history)
    }

    constructor ()
      ensures View() == FIRST_START
    {
      outbox, delivered, deliveryAttempts, inflightDeliveries, frames := {}, map[], map[], {}, map[];
      history := History(multiset{}, multiset{}, multiset{}, multiset{}, []);
    }

    /** From the call to the first await: the guard, the query and the filter. */
    method Enter(chain: nat, session: nat, opens: bool, due: seq<nat>)
      requires chain !in frames && IsDue(View(), session, due)
      modifies `inflightDeliveries, `frames
      ensures View() == Apply(old(View()), Begin(chain, session, opens, due))
      ensures
        var todo := Undelivered(delivered, session, due);
        if session in old(inflightDeliveries) || !opens || todo == [] then
          inflightDeliveries == old(inflightDeliveries) && frames == old(frames)
        else
          && inflightDeliveries == old(inflightDeliveries) + {session}
          && frames == old(frames)[chain := Frame(session, todo, false)]
    {
      if session in inflightDeliveries {
        return;
      }
      inflightDeliveries := inflightDeliveries + {session};
      var undelivered := [];
      if opens {
        for i := |due| downto 0
          invariant undelivered == Undelivered(delivered, session, due[i..])
        {
          assert due[i..][1..] == due[i + 1..];
          if Row(session, due[i]) !in delivered {
            undelivered := [due[i]] + undelivered;
          }
        }
        assert due[0..] == due;
      }
      if undelivered == [] {
        inflightDeliveries := inflightDeliveries - {session};
      } else {
        frames := frames[chain := Frame(session, undelivered, false)];
      }
    }

    method TakeMessage(chain: nat)
      requires Busy(View(), chain) && !frames[chain].accepted
      modifies `frames, `history
      ensures View() == Apply(old(View()), Accept(chain))
      ensures frames == old(frames)[chain := old(frames[chain]).(accepted := true)]
      ensures
        var row := Row(frames[chain].session, frames[chain].todo[0]);
        history == old(history).(accepts := old(history.accepts) + multiset{row})
    {
      history := history.(accepts := history.accepts + multiset{Head(frames[chain])});
      frames := frames[chain := frames[chain].(accepted := true)];
    }

    /** The code after deliverMessage, in its two branches. */
    method RecordOutcome(chain: nat, ok: bool)
      requires Busy(View(), chain)
      modifies `delivered, `deliveryAttempts, `frames, `history
      ensures View() == Apply(old(View()), Settle(chain, ok))
      ensures frames == old(frames)[chain := Frame(old(frames[chain].session), old(frames[chain].todo)[1..], false)]
      ensures
        var row := Row(old(frames[chain].session), old(frames[chain].todo)[0]);
        var failures := (if row.id in old(deliveryAttempts) then old(deliveryAttempts)[row.id] else 0) + 1;
        && history.log == old(history.log) + [Attempt(chain, row)]
        && deliveryAttempts ==
           (if ok || failures >= 3 then old(deliveryAttempts) - {row.id}
            else old(deliveryAttempts)[row.id := failures])
        && delivered ==
           (if row in old(delivered) || (!ok && failures < 3) then old(delivered)
            else old(delivered)[row := if ok then Sent else GaveUp])
    {
      var f := frames[chain];
      var row := Head(f);
      if ok {
        delivered := Mark(delivered, row, Sent);
        deliveryAttempts := deliveryAttempts - {row.id};
      } else {
        var attempts := AttemptsSoFar(deliveryAttempts, row.id) + 1;
        deliveryAttempts := deliveryAttempts[row.id := attempts];
        if attempts >= MAX_DELIVERY_ATTEMPTS {
          delivered := Mark(delivered, row, GaveUp);
          deliveryAttempts := deliveryAttempts - {row.id};
        }
      }
      frames := frames[chain := Frame(f.session, f.todo[1..], false)];
      history := Recorded(history, Attempt(chain, row), ok, f.accepted);
      assert old(deliveryAttempts)[row.id := AttemptsSoFar(old(deliveryAttempts), row.id) + 1] - {row.id} ==
             old(deliveryAttempts) - {row.id};
    }

    method Leave(chain: nat)
      requires chain in frames && frames[chain].todo == []
      modifies `inflightDeliveries, `frames
      ensures View() == Apply(old(View()), Finish(chain))
      ensures inflightDeliveries == old(inflightDeliveries) - {old(frames[chain].session)}
      ensures frames == old(frames) - {chain}
    {
      inflightDeliveries := inflightDeliveries - {frames[chain].session};
      frames := frames - {chain};
    }

    /** One turn of the loop, with no other code in between. */
    method HandleFirst(chain: nat, outcome: Outcome) returns (ghost steps: seq<Step>)
      requires Busy(View(), chain) && !frames[chain].accepted
      modifies this
      ensures View() == Run(old(View()), steps) && steps == Handling(chain, outcome)
      ensures inflightDeliveries == old(inflightDeliveries)
      ensures frames == old(frames)[chain := Frame(old(frames[chain].session), old(frames[chain].todo)[1..], false)]
      ensures history.log ==
                old(history.log) + [Attempt(chain, Row(old(frames[chain].session), old(frames[chain].todo)[0]))]
      ensures history.settles == old(history.settles) + multiset{Head(old(frames[chain]))}
    {
      steps := [];
      if outcome.accepted {
        RunOne(View(), [], Accept(chain));
        TakeMessage(chain);
        steps := steps + [Accept(chain)];
      }
      RunOne(old(View()), steps, Settle(chain, outcome.ok));
      RecordOutcome(chain, outcome.ok);
      steps := steps + [Settle(chain, outcome.ok)];
    }

    /** The loop of drainSession, with no other code in between. */
    method Drain(chain: nat, outcomes: nat -> Outcome) returns (ghost steps: seq<Step>)
      requires chain in frames && !frames[chain].accepted
      modifies this
      ensures View() == Run(old(View()), steps)
      ensures steps == HandlingAll(chain, old(frames[chain].todo), outcomes)
      ensures inflightDeliveries == old(inflightDeliveries)
      ensures frames == old(frames)[chain := Frame(old(frames[chain].session), [], false)]
      ensures history.log ==
                old(history.log) + AttemptsOn(chain, old(frames[chain].session), old(frames[chain].todo))
      ensures history.settles == old(history.settles) +
                multiset(RowsOf(old(frames[chain].session), old(frames[chain].todo)))
    {
      ghost var all, done := frames[chain].todo, 0;
      steps := [];
      while frames[chain].todo != []
        invariant done <= |all| && chain in frames
        invariant frames[chain] == Frame(old(frames[chain].session), all[done..], false)
        invariant View() == Run(old(View()), steps) && steps == HandlingAll(chain, all[..done], outcomes)
        decreases |all| - done
      {
        var more := HandleFirst(chain, outcomes(frames[chain].todo[0]));
        RunMore(old(View()), steps, more);
        HandlingOneMore(chain, all, done, outcomes);
        steps := steps + more;
        done := done + 1;
      }
      assert all[..done] == all;
      HandlingRuns(old(View()), chain, |all|, outcomes);
    }

    /** From the loop to the `finally`. */
    method DrainAndLeave(chain: nat, outcomes: nat -> Outcome) returns (ghost steps: seq<Step>)
      requires chain in frames && !frames[chain].accepted
      modifies this
      ensures View() == Run(old(View()), steps)
      ensures steps == HandlingAll(chain, old(frames[chain].todo), outcomes) + [Finish(chain)]
      ensures inflightDeliveries == old(inflightDeliveries) - {old(frames[chain].session)}
      ensures frames == old(frames) - {chain}
      ensures history.log ==
                old(history.log) + AttemptsOn(chain, old(frames[chain].session), old(frames[chain].todo))
      ensures history.settles == old(history.settles) +
                multiset(RowsOf(old(frames[chain].session), old(frames[chain].todo)))
    {
      steps := Drain(chain, outcomes);
      RunOne(old(View()), steps, Finish(chain));
      Leave(chain);
      steps := steps + [Finish(chain)];
    }

    /** The guard and the drain, from the call to the return. */
    method DeliverBacklog(
        chain: nat, session: nat, opens: bool, due: seq<nat>, outcomes: nat -> Outcome)
        returns (ghost steps: seq<Step>, ghost ids: seq<nat>)
      requires chain !in frames && IsDue(View(), session, due)
      modifies this
      ensures View() == Run(old(View()), steps)
      ensures steps == [Begin(chain, session, opens, due)] +
                if ids == [] then [] else HandlingAll(chain, ids, outcomes) + [Finish(chain)]
      ensures frames == old(frames) && inflightDeliveries == old(inflightDeliveries)
      ensures ids ==
              if session in old(inflightDeliveries) || !opens then [] else Undelivered(old(delivered), session, due)
      ensures history.log == old(history.log) + AttemptsOn(chain, session, ids)
      ensures history.settles == old(history.settles) + multiset(RowsOf(session, ids))
    {
      ghost var begin := Begin(chain, session, opens, due);
      RunFirst(View(), begin, []);
      Enter(chain, session, opens, due);
      if chain !in frames {
        return [begin], [];
      }
      ids := frames[chain].todo;
      var more := DrainAndLeave(chain, outcomes);
      RunFirst(old(View()), begin, more);
      assert frames == old(frames) && inflightDeliveries == old(inflightDeliveries);
      steps := [begin] + more;
    }

    /** deliverSessionMessages when no other code runs in between: a run of the same steps, after which the guard
        and the drains are as before, and the rows that were due and undelivered have been attempted, each once and in
        the order of the query. */
    method DeliverSessionMessages(
        chain: nat, session: nat, opens: bool, due: seq<nat>, outcomes: nat -> Outcome)
        returns (ghost steps: seq<Step>, ghost ids: seq<nat>)
      requires chain !in frames && IsDue(View(), session, due)
      modifies this
      ensures View() == Run(old(View()), steps)
      ensures steps == [Begin(chain, session, opens, due)] +
                if ids == [] then [] else HandlingAll(chain, ids, outcomes) + [Finish(chain)]
      ensures frames == old(frames) && inflightDeliveries == old(inflightDeliveries)
      ensures if session in old(inflightDeliveries) || !opens then ids == []
              else IsBacklog(old(delivered), session, due, ids)
      ensures history.log == old(history.log) + AttemptsOn(chain, session, ids)
      ensures history.settles == old(history.settles) + multiset(RowsOf(session, ids))
    {
      steps, ids := DeliverBacklog(chain, session, opens, due, outcomes);
      BacklogOf(old(delivered), session, due, ids, session in old(inflightDeliveries) || !opens);
    }
  }

  lemma {:induction false} BacklogOf(
      delivered: map<Row, Status>, session: nat, due: seq<nat>, ids: seq<nat>, skipped: bool)
    requires ids == if skipped then [] else Undelivered(delivered, session, due)
    ensures !skipped ==> IsBacklog(delivered, session, due, ids)
  {
    UndeliveredIsExact(delivered, session, due);
  }

  function AttemptsOn(chain: nat, session: nat, ids: seq<nat>): seq<Attempt> {
    seq(|ids|, i requires 0 <= i < |ids| => Attempt(chain, Row(session, ids[i])))
  }

  lemma {:induction false} HandlingOneMore(chain: nat, all: seq<nat>, done: nat, outcomes: nat -> Outcome)
    requires done < |all|
    ensures HandlingAll(chain, all[..done + 1], outcomes) ==
            HandlingAll(chain, all[..done], outcomes) + Handling(chain, outcomes(all[done]))
  {
    assert all[..done + 1][..done] == all[..done];
  }

  /** What a drain has done after `n` of its rows. */
  ghost predicate HandledRows(h: Host, chain: nat, n: nat, after: Host)
    requires chain in h.frames && n <= |h.frames[chain].todo|
  {
    var (session, all) := (h.frames[chain].session, h.frames[chain].todo);
    && after.inflight == h.inflight
    && after.frames == h.frames[chain := Frame(session, all[n..], false)]
    && after.history.log == h.history.log + AttemptsOn(chain, session, all[..n])
    && after.history.settles == h.history.settles + multiset(RowsOf(session, all[..n]))
  }

  lemma HandledOneMore(h: Host, chain: nat, n: nat, before: Host, outcome: Outcome)
    requires chain in h.frames && n < |h.frames[chain].todo| && HandledRows(h, chain, n, before)
    ensures
      var taken := if outcome.accepted then AcceptStep(before, chain) else before;
      HandledRows(h, chain, n + 1, SettleStep(taken, chain, outcome.ok))
  {
    var (session, all) := (h.frames[chain].session, h.frames[chain].todo);
    OneMoreRow(session, all, n);
    OneAttemptMore(chain, session, all, n);
  }

  lemma {:induction false} HandlingRun(h: Host, chain: nat, outcome: Outcome)
    ensures Run(h, Handling(chain, outcome)) ==
            SettleStep(if outcome.accepted then AcceptStep(h, chain) else h, chain, outcome.ok)
  {
    RunOne(h, [], Settle(chain, outcome.ok));
    RunOne(h, [], Accept(chain));
    RunOne(h, [Accept(chain)], Settle(chain, outcome.ok));
  }

  lemma NothingHandled(h: Host, chain: nat)
    requires chain in h.frames && !h.frames[chain].accepted
    ensures HandledRows(h, chain, 0, h)
  {
  }

  lemma {:induction false} HandlingRunMore(h: Host, chain: nat, n: nat, steps: seq<Step>, outcome: Outcome)
    requires chain in h.frames && n < |h.frames[chain].todo| && HandledRows(h, chain, n, Run(h, steps))
    ensures HandledRows(h, chain, n + 1, Run(h, steps + Handling(chain, outcome)))
  {
    RunMore(h, steps, Handling(chain, outcome));
    HandlingRun(Run(h, steps), chain, outcome);
    HandledOneMore(h, chain, n, Run(h, steps), outcome);
  }

  lemma {:induction false} HandlingRuns(h: Host, chain: nat, n: nat, outcomes: nat -> Outcome)
    requires chain in h.frames && !h.frames[chain].accepted && n <= |h.frames[chain].todo|
    ensures HandledRows(h, chain, n, Run(h, HandlingAll(chain, h.frames[chain].todo[..n], outcomes)))
    decreases n
  {
    var all := h.frames[chain].todo;
    if n == 0 {
      NothingHandled(h, chain);
    } else {
      HandlingRuns(h, chain, n - 1, outcomes);
      HandlingOneMore(chain, all, n - 1, outcomes);
      HandlingRunMore(h, chain, n - 1, HandlingAll(chain, all[..n - 1], outcomes), outcomes(all[n - 1]));
    }
  }

  lemma OneAttemptMore(chain: nat, session: nat, all: seq<nat>, done: nat)
    requires done < |all|
    ensures AttemptsOn(chain, session, all[..done + 1]) ==
            AttemptsOn(chain, session, all[..done]) + [Attempt(chain, Row(session, all[done]))]
  {
  }

  lemma OneMoreRow(session: nat, all: seq<nat>, done: nat)
    requires done < |all|
    ensures all[done..][0] == all[done] && all[done..][1..] == all[done + 1..]
    ensures multiset(RowsOf(session, all[..done + 1])) ==
            multiset(RowsOf(session, all[..done])) + multiset{Row(session, all[done])}
  {
    assert RowsOf(session, all[..done + 1]) == RowsOf(session, all[..done]) + [Row(session, all[done])];
  }

  lemma {:induction false} RunOne(h: Host, steps: seq<Step>, step: Step)
    ensures Run(h, steps + [step]) == Apply(Run(h, steps), step)
  {
    assert (steps + [step])[..|steps|] == steps;
  }

  lemma {:induction false} RunFirst(h: Host, step: Step, more: seq<Step>)
    ensures Run(h, [step] + more) == Run(Apply(h, step), more) && Run(h, [step]) == Apply(h, step)
  {
    RunMore(h, [step], more);
    RunOne(h, [], step);
    assert [] + [step] == [step];
  }

  lemma {:induction false} RunMore(h: Host, steps: seq<Step>, more: seq<Step>)
    ensures Run(h, steps + more) == Run(Run(h, steps), more)
    decreases |more|
  {
    if more == [] {
      assert steps + more == steps;
    } else {
      var before := more[..|more| - 1];
      assert steps + more == (steps + before) + [more[|more| - 1]];
      RunMore(h, steps, before);
      RunOne(h, steps + before, more[|more| - 1]);
    }
  }

  /** Once a row has a final status, no continuation of the run attempts it again or changes the status, whatever is
      queued, crashes or is drained. */
  lemma {:induction false} FinalRowsStayFinal(steps: seq<Step>, more: seq<Step>, row: Row)
    requires row in Run(FIRST_START, steps).delivered
    ensures
      var (h, n) := (Run(FIRST_START, steps), Run(FIRST_START, steps + more));
      && row in n.delivered && n.delivered[row] == h.delivered[row]
      && n.history.accepts[row] == h.history.accepts[row] && n.history.settles[row] <= h.history.settles[row]
    decreases |more|
  {
    if more == [] {
      assert steps + more == steps;
    } else {
      var before := more[..|more| - 1];
      FinalRowsStayFinal(steps, before, row);
      DrainsAreExclusive(steps + before);
      assert steps + more == (steps + before) + [more[|more| - 1]];
      RunOne(FIRST_START, steps + before, more[|more| - 1]);
      FinalIsFinal(Run(FIRST_START, steps + before), more[|more| - 1], row);
    }
  }
}
