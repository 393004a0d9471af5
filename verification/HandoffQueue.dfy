/**
 * The handoff queue of scripts/dc-codex-bridge.ts: records move between directories by a write and an unlink, and the
 * bridge may stop between any two file operations. A step is one file operation or one external execution.
 */
module HandoffQueue {
  datatype Target = QueueOnly | Local | Cloud

  datatype Record = Record(id: nat, target: Target)

  datatype Status = Completed | Submitted | Failed

  /** The file of a terminal record: a directory for each status, and the name from the id. */
  datatype Place = Place(status: Status, id: nat)

  /** What such a file says. */
  datatype Stored = Stored(id: nat, status: Status)

  /** How far the bridge is with its current item. `Recorded`: only the unlink is left. */
  datatype Phase = Looking | Deciding | Executed(status: Status) | Recorded

  datatype Item = Item(file: nat, record: Record)

  datatype Worker = Stopped | Working(todo: seq<Item>, phase: Phase)

  /** The directories and the bridge process. Then, for statements about runs: the ids ever queued, the executions, the
      executions whose outcome was lost before it was written, and those recorded as failed. */
  datatype Bridge = Bridge(
    queued: map<nat, Record>,
    records: map<Place, Stored>,
    worker: Worker,
    known: set<nat>,
    execs: multiset<nat>,
    lost: multiset<nat>,
    failures: multiset<nat>)

  datatype Step =
    | Enqueue(file: nat, record: Record)
    | Start(files: seq<nat>)
    | Check
    | Skip
    | Execute(ok: bool)
    | Write
    | Unlink
    | Throw
    | Crash

  const EMPTY := Bridge(map[], map[], Stopped, {}, multiset{}, multiset{}, multiset{})

  // ---- The steps ----

  /** terminalRecordPath: failed records are not looked for. */
  predicate Terminal(b: Bridge, id: nat) {
    Place(Completed, id) in b.records || Place(Submitted, id) in b.records
  }

  predicate Listed(b: Bridge, files: seq<nat>) {
    && (forall i :: 0 <= i < |files| ==> files[i] in b.queued)
    && (forall i, j :: 0 <= i < j < |files| ==> files[i] != files[j])
  }

  function ItemsOf(b: Bridge, files: seq<nat>): seq<Item>
    requires Listed(b, files)
  {
    seq(|files|, i requires 0 <= i < |files| => Item(files[i], b.queued[files[i]]))
  }

  function Resume(todo: seq<Item>): Worker {
    if todo == [] then Stopped else Working(todo, Looking)
  }

  predicate Busy(b: Bridge) {
    b.worker.Working? && b.worker.todo != []
  }

  function Head(b: Bridge): Item
    requires Busy(b)
  {
    b.worker.todo[0]
  }

  function Next(b: Bridge): Bridge
    requires Busy(b)
  {
    b.(worker := Resume(b.worker.todo[1..]))
  }

  function EnterPhase(b: Bridge, phase: Phase): Bridge
    requires Busy(b)
  {
    b.(worker := Working(b.worker.todo, phase))
  }

  function Outcome(target: Target, ok: bool): Status {
    if !ok then Failed else if target == Local then Completed else Submitted
  }

  function ExecuteStep(b: Bridge, ok: bool): Bridge
    requires Busy(b)
  {
    var record := Head(b).record;
    if record.target == QueueOnly then Next(b)
    else EnterPhase(b, Executed(Outcome(record.target, ok))).(execs := b.execs + multiset{record.id})
  }

  function Lost(b: Bridge): Bridge {
    if Busy(b) && b.worker.phase.Executed? then b.(lost := b.lost + multiset{Head(b).record.id}) else b
  }

  /** The first half of moveRecord. A record that is there already must agree. */
  function WriteStep(b: Bridge): Bridge
    requires Busy(b) && b.worker.phase.Executed?
  {
    var (id, status) := (Head(b).record.id, b.worker.phase.status);
    var noted := if status == Failed then b.(failures := b.failures + multiset{id}) else b;
    var place := Place(status, id);
    if place !in b.records then EnterPhase(noted.(records := b.records[place := Stored(id, status)]), Recorded)
    else if b.records[place] == Stored(id, status) then EnterPhase(noted, Recorded)
    else Next(Lost(b))
  }

  function EnqueueStep(b: Bridge, file: nat, record: Record): Bridge {
    if file in b.queued then b else b.(queued := b.queued[file := record], known := b.known + {record.id})
  }

  function StartStep(b: Bridge, files: seq<nat>): Bridge {
    if b.worker != Stopped || !Listed(b, files) then b else b.(worker := Resume(ItemsOf(b, files)))
  }

  function CheckStep(b: Bridge): Bridge
    requires Busy(b)
  {
    EnterPhase(b, if Terminal(b, Head(b).record.id) then Recorded else Deciding)
  }

  function UnlinkStep(b: Bridge): Bridge
    requires Busy(b)
  {
    Next(b.(queued := b.queued - {Head(b).file}))
  }

  predicate InPhase(b: Bridge, phase: Phase) {
    Busy(b) && b.worker.phase == phase
  }

  function Apply(b: Bridge, step: Step): Bridge {
    match step
    case Enqueue(file, record) => EnqueueStep(b, file, record)
    case Start(files) => StartStep(b, files)
    case Check => if InPhase(b, Looking) then CheckStep(b) else b
    case Skip => if InPhase(b, Deciding) then Next(b) else b
    case Execute(ok) => if InPhase(b, Deciding) then ExecuteStep(b, ok) else b
    case Write => if Busy(b) && b.worker.phase.Executed? then WriteStep(b) else b
    case Unlink => if InPhase(b, Recorded) then UnlinkStep(b) else b
    case Throw => if Busy(b) then Next(Lost(b)) else b
    case Crash => Lost(b).(worker := Stopped)
  }

  function Run(b: Bridge, steps: seq<Step>): Bridge
    decreases |steps|
  {
    if steps == [] then b else Apply(Run(b, steps[..|steps| - 1]), steps[|steps| - 1])
  }

  // ---- What every step keeps ----

  /** Each terminal file holds the record that its place says, and no id is both completed and submitted. */
  ghost predicate WellFiled(b: Bridge) {
    && (forall place :: place in b.records ==> b.records[place] == Stored(place.id, place.status))
    && (forall id :: Place(Completed, id) in b.records ==> Place(Submitted, id) !in b.records)
  }

  ghost predicate Kept(b: Bridge, id: nat) {
    Terminal(b, id) || Place(Failed, id) in b.records || exists file :: file in b.queued && b.queued[file].id == id
  }

  ghost predicate Conserved(b: Bridge) {
    forall id :: id in b.known ==> Kept(b, id)
  }

  /** What the bridge remembers is still so: its items are queued files, and its phase fits the directories. */
  ghost predicate WorkerFits(b: Bridge) {
    b.worker.Working? ==>
      var todo := b.worker.todo;
      && todo != []
      && (forall i :: 0 <= i < |todo| ==> todo[i].file in b.queued && b.queued[todo[i].file] == todo[i].record)
      && (forall i, j :: 0 <= i < j < |todo| ==> todo[i].file != todo[j].file)
      && (b.worker.phase == Deciding || b.worker.phase.Executed? ==> !Terminal(b, todo[0].record.id))
      && (b.worker.phase == Recorded ==>
            Terminal(b, todo[0].record.id) || Place(Failed, todo[0].record.id) in b.records)
  }

  ghost predicate Sound(b: Bridge) {
    WellFiled(b) && Conserved(b) && WorkerFits(b)
  }

  /** The executions of an id: the one that completed or submitted it, those recorded as failed, those whose outcome
      was lost, and the one in progress. */
  ghost predicate Accounted(b: Bridge, id: nat) {
    b.execs[id] ==
    (if Terminal(b, id) then 1 else 0) + b.failures[id] + b.lost[id] +
    if Busy(b) && b.worker.phase.Executed? && Head(b).record.id == id then 1 else 0
  }

  lemma WriteIsSound(b: Bridge)
    requires Sound(b) && Busy(b) && b.worker.phase.Executed?
    ensures Sound(WriteStep(b))
  {
    var n := WriteStep(b);
    forall id | id in n.known ensures Kept(n, id) {
      assert Kept(b, id);
    }
  }

  lemma UnlinkIsSound(b: Bridge)
    requires Sound(b) && Busy(b) && b.worker.phase == Recorded
    ensures Sound(UnlinkStep(b))
  {
    var n := UnlinkStep(b);
    var item := Head(b);
    forall id | id in n.known ensures Kept(n, id) {
      assert Kept(b, id);
      if file :| file in b.queued && b.queued[file].id == id {
        if file != item.file {
          assert file in n.queued && n.queued[file].id == id;
        }
      }
    }
  }

  lemma EnqueueIsSound(b: Bridge, file: nat, record: Record)
    requires Sound(b)
    ensures Sound(EnqueueStep(b, file, record))
  {
    var n := EnqueueStep(b, file, record);
    if n != b {
      forall id | id in n.known ensures Kept(n, id) {
        if id == record.id {
          assert file in n.queued && n.queued[file].id == id;
        } else {
          assert Kept(b, id);
          if f :| f in b.queued && b.queued[f].id == id {
            assert f in n.queued && n.queued[f].id == id;
          }
        }
      }
    }
  }

  /** The other steps leave the directories alone. */
  lemma OtherIsSound(b: Bridge, n: Bridge)
    requires Sound(b) && WorkerFits(n)
    requires n.queued == b.queued && n.known == b.known
    requires n.records == b.records
    ensures Sound(n)
  {
    forall id | id in n.known ensures Kept(n, id) {
      assert Kept(b, id);
    }
  }

  lemma StartIsSound(b: Bridge, files: seq<nat>)
    requires Sound(b)
    ensures Sound(StartStep(b, files))
  {
    OtherIsSound(b, StartStep(b, files));
  }

  lemma PhaseIsSound(b: Bridge, phase: Phase)
    requires Sound(b) && Busy(b)
    requires phase == Deciding || phase.Executed? ==> !Terminal(b, Head(b).record.id)
    requires phase == Recorded ==> Terminal(b, Head(b).record.id) || Place(Failed, Head(b).record.id) in b.records
    ensures Sound(EnterPhase(b, phase))
  {
    OtherIsSound(b, EnterPhase(b, phase));
  }

  lemma NextIsSound(b: Bridge)
    requires Sound(b) && Busy(b)
    ensures Sound(Next(b))
  {
    OtherIsSound(b, Next(b));
  }

  lemma HistoryIsSound(b: Bridge, execs: multiset<nat>, lost: multiset<nat>)
    requires Sound(b)
    ensures Sound(b.(execs := execs, lost := lost))
  {
    OtherIsSound(b, b.(execs := execs, lost := lost));
  }

  lemma ExecuteIsSound(b: Bridge, ok: bool)
    requires Sound(b) && InPhase(b, Deciding)
    ensures Sound(ExecuteStep(b, ok))
  {
    var record := Head(b).record;
    if record.target == QueueOnly {
      NextIsSound(b);
    } else {
      PhaseIsSound(b, Executed(Outcome(record.target, ok)));
      HistoryIsSound(EnterPhase(b, Executed(Outcome(record.target, ok))), b.execs + multiset{record.id}, b.lost);
    }
  }

  lemma StopIsSound(b: Bridge, step: Step)
    requires Sound(b) && (step.Throw? || step.Crash?)
    ensures Sound(Apply(b, step))
  {
    HistoryIsSound(b, b.execs, Lost(b).lost);
    if step.Throw? {
      if Busy(b) {
        NextIsSound(Lost(b));
      }
    } else {
      OtherIsSound(b, Apply(b, step));
    }
  }

  lemma StepIsSound(b: Bridge, step: Step)
    requires Sound(b)
    ensures Sound(Apply(b, step))
  {
    match step
    case Enqueue(file, record) => EnqueueIsSound(b, file, record);
    case Start(files) => StartIsSound(b, files);
    case Check => if InPhase(b, Looking) { PhaseIsSound(b, CheckStep(b).worker.phase); }
    case Skip => if InPhase(b, Deciding) { NextIsSound(b); }
    case Execute(ok) => if InPhase(b, Deciding) { ExecuteIsSound(b, ok); }
    case Write => if Busy(b) && b.worker.phase.Executed? { WriteIsSound(b); }
    case Unlink => if InPhase(b, Recorded) { UnlinkIsSound(b); }
    case Throw => StopIsSound(b, step);
    case Crash => StopIsSound(b, step);
  }

  lemma WriteIsAccounted(b: Bridge, id: nat)
    requires Sound(b) && Accounted(b, id) && Busy(b) && b.worker.phase.Executed?
    ensures Accounted(WriteStep(b), id)
  {
  }

  lemma ExecuteIsAccounted(b: Bridge, ok: bool, id: nat)
    requires Accounted(b, id) && InPhase(b, Deciding)
    ensures Accounted(ExecuteStep(b, ok), id)
  {
  }

  lemma StopIsAccounted(b: Bridge, step: Step, id: nat)
    requires Accounted(b, id) && (step.Throw? || step.Crash?)
    ensures Accounted(Apply(b, step), id)
  {
  }

  /** Steps that neither execute nor file nor lose anything. */
  lemma QuietIsAccounted(b: Bridge, n: Bridge, id: nat)
    requires Accounted(b, id)
    requires !(Busy(b) && b.worker.phase.Executed?) && !(Busy(n) && n.worker.phase.Executed?)
    requires n.records == b.records
    requires n.execs == b.execs && n.failures == b.failures && n.lost == b.lost
    ensures Accounted(n, id)
  {
  }

  lemma StepIsAccounted(b: Bridge, step: Step, id: nat)
    requires Sound(b) && Accounted(b, id)
    ensures Accounted(Apply(b, step), id)
  {
    match step
    case Enqueue(file, record) =>
    case Start(files) => if b.worker == Stopped { QuietIsAccounted(b, StartStep(b, files), id); }
    case Check => if InPhase(b, Looking) { QuietIsAccounted(b, CheckStep(b), id); }
    case Skip => if InPhase(b, Deciding) { QuietIsAccounted(b, Next(b), id); }
    case Execute(ok) => if InPhase(b, Deciding) { ExecuteIsAccounted(b, ok, id); }
    case Write => if Busy(b) && b.worker.phase.Executed? { WriteIsAccounted(b, id); }
    case Unlink => if InPhase(b, Recorded) { QuietIsAccounted(b, UnlinkStep(b), id); }
    case Throw => StopIsAccounted(b, step, id);
    case Crash => StopIsAccounted(b, step, id);
  }

  /** In every run, with stops between any two file operations: every id ever queued is in a directory, terminal files
      hold what their place says, and no id is both completed and submitted. */
  lemma {:induction false} HandoffsAreConserved(steps: seq<Step>)
    ensures Sound(Run(EMPTY, steps))
    decreases |steps|
  {
    if steps != [] {
      HandoffsAreConserved(steps[..|steps| - 1]);
      StepIsSound(Run(EMPTY, steps[..|steps| - 1]), steps[|steps| - 1]);
    }
  }

  /** The step of that index queues its record: its file is not there yet. */
  predicate Queues(steps: seq<Step>, i: nat) {
    i < |steps| && steps[i].Enqueue? && steps[i].file !in Run(EMPTY, steps[..i]).queued
  }

  lemma StepKeepsKnown(b: Bridge, step: Step)
    ensures b.known <= Apply(b, step).known
  {
  }

  lemma EnqueueIsKnown(b: Bridge, step: Step)
    requires step.Enqueue? && step.file !in b.queued
    ensures step.record.id in Apply(b, step).known
  {
  }

  lemma QueuesEarlier(steps: seq<Step>, i: nat)
    requires Queues(steps, i) && i < |steps| - 1
    ensures Queues(steps[..|steps| - 1], i) && steps[..|steps| - 1][i] == steps[i]
  {
    assert steps[..|steps| - 1][..i] == steps[..i];
  }

  lemma {:induction false} RunLast(steps: seq<Step>, before: Bridge, last: Step)
    requires steps != [] && before == Run(EMPTY, steps[..|steps| - 1]) && last == steps[|steps| - 1]
    ensures Run(EMPTY, steps) == Apply(before, last)
  {
  }

  lemma {:induction false} QueuedIsKnown(steps: seq<Step>, i: nat)
    requires Queues(steps, i)
    ensures steps[i].record.id in Run(EMPTY, steps).known
    decreases |steps|
  {
    var init, last := steps[..|steps| - 1], steps[|steps| - 1];
    var before := Run(EMPTY, init);
    RunLast(steps, before, last);
    if i < |init| {
      QueuesEarlier(steps, i);
      QueuedIsKnown(init, i);
      StepKeepsKnown(before, last);
    } else {
      assert i == |init|;
      EnqueueIsKnown(before, last);
    }
  }

  /** In every run: each handoff that was ever queued is still queued or has a record. */
  lemma {:induction false} NoHandoffIsLost(steps: seq<Step>, i: nat)
    requires Queues(steps, i)
    ensures Kept(Run(EMPTY, steps), steps[i].record.id)
  {
    QueuedIsKnown(steps, i);
    HandoffsAreConserved(steps);
  }

  /** In every run, an id is executed once for its terminal record, and again only as often as an execution failed or
      its outcome was lost. */
  lemma {:induction false} ExecutionsAreAccounted(steps: seq<Step>, id: nat)
    ensures Accounted(Run(EMPTY, steps), id)
    decreases |steps|
  {
    if steps != [] {
      ExecutionsAreAccounted(steps[..|steps| - 1], id);
      HandoffsAreConserved(steps[..|steps| - 1]);
      StepIsAccounted(Run(EMPTY, steps[..|steps| - 1]), steps[|steps| - 1], id);
    }
  }

  /** The error "already exists with a different status" cannot happen: a write never gives up. */
  lemma {:induction false} WriteSucceeds(steps: seq<Step>)
    requires Busy(Run(EMPTY, steps)) && Run(EMPTY, steps).worker.phase.Executed?
    ensures
      var b := Run(EMPTY, steps);
      var n := Apply(b, Write);
      && n.worker == Working(b.worker.todo, Recorded)
      && Place(b.worker.phase.status, Head(b).record.id) in n.records
  {
    HandoffsAreConserved(steps);
    FiledOrThere(Run(EMPTY, steps));
  }

  lemma TerminalStays(b: Bridge, step: Step, id: nat)
    requires Sound(b) && Terminal(b, id)
    ensures Terminal(Apply(b, step), id) && Apply(b, step).execs[id] == b.execs[id]
  {
  }

  lemma {:induction false} TerminalStaysOver(b: Bridge, more: seq<Step>, id: nat)
    requires Sound(b) && Terminal(b, id)
    ensures Sound(Run(b, more)) && Terminal(Run(b, more), id) && Run(b, more).execs[id] == b.execs[id]
    decreases |more|
  {
    if more != [] {
      TerminalStaysOver(b, more[..|more| - 1], id);
      StepIsSound(Run(b, more[..|more| - 1]), more[|more| - 1]);
      TerminalStays(Run(b, more[..|more| - 1]), more[|more| - 1], id);
    }
  }

  lemma {:induction false} RunMore(b: Bridge, steps: seq<Step>, more: seq<Step>)
    ensures Run(b, steps + more) == Run(Run(b, steps), more)
    decreases |more|
  {
    if more == [] {
      assert steps + more == steps;
    } else {
      var init := more[..|more| - 1];
      assert (steps + more)[..|steps + more| - 1] == steps + init;
      RunMore(b, steps, init);
    }
  }

  /** Once an id has a completed or submitted record, no continuation executes or submits it again, whatever is queued
      later and wherever the bridge stops. */
  lemma {:induction false} TerminalIsNeverExecuted(steps: seq<Step>, more: seq<Step>, id: nat)
    requires Terminal(Run(EMPTY, steps), id)
    ensures Terminal(Run(EMPTY, steps + more), id)
    ensures Run(EMPTY, steps + more).execs[id] == Run(EMPTY, steps).execs[id]
  {
    HandoffsAreConserved(steps);
    TerminalStaysOver(Run(EMPTY, steps), more, id);
    RunMore(EMPTY, steps, more);
  }

  // ---- Where the promise ends ----

  lemma {:induction false} RunTwo(b: Bridge, first: Step, second: Step)
    ensures Run(b, [first, second]) == Apply(Apply(b, first), second)
  {
    assert [first, second][..1] == [first] && [first][..0] == [];
    assert Run(b, [first]) == Apply(Run(b, []), first);
  }

  /** The directories when one handoff is queued and nothing else is there but a failed record of it, perhaps. */
  ghost predicate OnlyQueued(b: Bridge, file: nat, id: nat) {
    b.worker == Stopped && b.queued == map[file := Record(id, Local)] && !Terminal(b, id)
  }

  /** The bridge about to execute that handoff. */
  function AtHand(b: Bridge, file: nat, id: nat): Bridge {
    b.(worker := Working([Item(file, Record(id, Local))], Deciding))
  }

  lemma {:induction false} StartsOn(b: Bridge, file: nat, id: nat)
    requires OnlyQueued(b, file, id)
    ensures Run(b, [Start([file]), Check]) == AtHand(b, file, id)
  {
    RunTwo(b, Start([file]), Check);
    assert Listed(b, [file]);
    assert ItemsOf(b, [file]) == [Item(file, Record(id, Local))];
  }

  lemma StopsBeforeWrite(b: Bridge, file: nat, id: nat)
    requires OnlyQueued(b, file, id)
    ensures
      var stopped := Run(AtHand(b, file, id), [Execute(true), Crash]);
      OnlyQueued(stopped, file, id) && stopped.execs[id] == b.execs[id] + 1
  {
    RunTwo(AtHand(b, file, id), Execute(true), Crash);
  }

  /** A stop between the execution and the write leaves no trace of the execution: the next start comes to execute the
      same handoff again. */
  lemma {:induction false} StopBeforeWriteRunsAgain(b: Bridge, file: nat, id: nat)
    requires OnlyQueued(b, file, id)
    ensures
      var stopped := Run(Run(b, [Start([file]), Check]), [Execute(true), Crash]);
      && stopped.execs[id] == b.execs[id] + 1
      && Run(stopped, [Start([file]), Check]) == AtHand(stopped, file, id)
  {
    StartsOn(b, file, id);
    StopsBeforeWrite(b, file, id);
    StartsOn(Run(AtHand(b, file, id), [Execute(true), Crash]), file, id);
  }

  lemma FailsAndStops(b: Bridge, file: nat, id: nat)
    requires OnlyQueued(b, file, id) && Place(Failed, id) !in b.records
    ensures
      var stopped := Apply(Run(AtHand(b, file, id), [Execute(false), Write]), Crash);
      && OnlyQueued(stopped, file, id) && Place(Failed, id) in stopped.records && stopped.execs[id] == b.execs[id] + 1
  {
    RunTwo(AtHand(b, file, id), Execute(false), Write);
  }

  lemma Succeeds(b: Bridge, file: nat, id: nat)
    requires OnlyQueued(b, file, id)
    ensures
      var done := Run(AtHand(b, file, id), [Execute(true), Write]);
      && Place(Completed, id) in done.records && b.records.Keys <= done.records.Keys
      && done.execs[id] == b.execs[id] + 1
  {
    RunTwo(AtHand(b, file, id), Execute(true), Write);
  }

  /** Failed records are not looked for: a stop between writing one and the unlink executes the handoff again, and its
      id can end with a failed and a completed record. */
  lemma {:induction false} FailedIsExecutedAgain(b: Bridge, file: nat, id: nat)
    requires OnlyQueued(b, file, id) && Place(Failed, id) !in b.records
    ensures
      var stopped := Apply(Run(Run(b, [Start([file]), Check]), [Execute(false), Write]), Crash);
      var again := Run(Run(stopped, [Start([file]), Check]), [Execute(true), Write]);
      again.execs[id] == b.execs[id] + 2 && Place(Failed, id) in again.records &&
      Place(Completed, id) in again.records
  {
    StartsOn(b, file, id);
    FailsAndStops(b, file, id);
    var stopped := Apply(Run(AtHand(b, file, id), [Execute(false), Write]), Crash);
    StartsOn(stopped, file, id);
    Succeeds(stopped, file, id);
  }

  // ---- The source's loop ----

  /** What the bridge does with a handoff that has no terminal record: nothing, or an execution and its success. */
  datatype Plan = LeaveQueued | Carry(ok: bool)

  /** The handoff has a terminal record, or one of the failure that the plan was. */
  predicate Settled(records: map<Place, Stored>, record: Record, plan: Plan) {
    || Place(Completed, record.id) in records || Place(Submitted, record.id) in records
    || (plan == Carry(false) && record.target != QueueOnly && Place(Failed, record.id) in records)
  }

  ghost predicate AllSettled(
      items: seq<Item>, plan: nat -> Plan, queued: map<nat, Record>, records: map<Place, Stored>)
  {
    forall k :: 0 <= k < |items| && items[k].file !in queued ==>
      Settled(records, items[k].record, plan(items[k].file))
  }

  lemma OneMoreSettled(
      items: seq<Item>, plan: nat -> Plan, i: nat, queued: map<nat, Record>, records: map<Place, Stored>,
      later: map<nat, Record>, filed: map<Place, Stored>)
    requires AllSettled(items, plan, queued, records) && records.Keys <= filed.Keys && i < |items|
    requires later == queued || later == queued - {items[i].file}
    requires items[i].file !in later ==> Settled(filed, items[i].record, plan(items[i].file))
    requires forall k :: 0 <= k < |items| && items[k].file == items[i].file ==> items[k] == items[i]
    ensures AllSettled(items, plan, later, filed)
  {
  }

  class HandoffBridge {
    var queued: map<nat, Record>
    var records: map<Place, Stored>
    ghost var worker: Worker
    ghost var known: set<nat>
    ghost var execs: multiset<nat>
    ghost var lost: multiset<nat>
    ghost var failures: multiset<nat>

    ghost function View(): Bridge
      reads this
    {
      Bridge(queued, records, worker, known, execs, lost, failures)
    }

    constructor ()
      ensures View() == EMPTY
    {
      queued, records := map[], map[];
      worker, known, execs, lost, failures := Stopped, {}, multiset{}, multiset{}, multiset{};
    }

    /** moveRecord up to its write: a record that is there already is left, or refused when it does not agree. */
    method WriteRecord(id: nat, status: Status)
      requires Busy(View()) && Head(View()).record.id == id && worker.phase == Executed(status)
      modifies `records, `worker, `lost, `failures
      ensures View() == WriteStep(old(View()))
      ensures records ==
              if Place(status, id) in old(records) then old(records)
              else old(records)[Place(status, id) := Stored(id, status)]
      ensures
        var refused := Place(status, id) in old(records) && old(records)[Place(status, id)] != Stored(id, status);
        && worker == (if refused then Resume(old(worker.todo)[1..]) else Working(old(worker.todo), Recorded))
        && failures == old(failures) + (if !refused && status == Failed then multiset{id} else multiset{})
        && lost == old(lost) + (if refused then multiset{id} else multiset{})
    {
      var place := Place(status, id);
      if place in records && records[place] != Stored(id, status) {
        lost := lost + multiset{id};
        worker := Resume(worker.todo[1..]);
        return;
      }
      if place !in records {
        records := records[place := Stored(id, status)];
      }
      if status == Failed {
        failures := failures + multiset{id};
      }
      worker := Working(worker.todo, Recorded);
    }

    method RemoveQueued(file: nat)
      requires InPhase(View(), Recorded) && Head(View()).file == file
      modifies `queued, `worker
      ensures View() == UnlinkStep(old(View()))
      ensures queued == old(queued) - {file} && worker == Resume(old(worker.todo)[1..])
    {
      queued := queued - {file};
      worker := Resume(worker.todo[1..]);
    }

    /** One turn of the loop, when nothing stops it. */
    method HandleFirst(item: Item, plan: Plan) returns (carried: bool, ghost steps: seq<Step>)
      requires Sound(View()) && InPhase(View(), Looking) && Head(View()) == item
      modifies this
      ensures View() == Run(old(View()), steps) && Sound(View())
      ensures worker == Resume(old(worker.todo)[1..])
      ensures
        var executes := !Terminal(old(View()), item.record.id) && plan.Carry? && item.record.target != QueueOnly;
        && carried == executes
        && execs == old(execs) + (if executes then multiset{item.record.id} else multiset{})
        && queued ==
           (if executes || Terminal(old(View()), item.record.id) then old(queued) - {item.file} else old(queued))
        && old(records).Keys <= records.Keys
        && (item.file !in queued ==> Settled(records, item.record, plan))
        && failures == old(failures) + (if executes && !plan.ok then multiset{item.record.id} else multiset{})
        && (executes ==>
              Place(if !plan.ok then Failed else if item.record.target == Local then Completed else Submitted,
                item.record.id) in records)
    {
      var id := item.record.id;
      RunTwo(View(), Check, Unlink);
      RunTwo(View(), Check, Skip);
      StepIsSound(View(), Check);
      worker := CheckStep(View()).worker;
      assert View() == Apply(old(View()), Check);
      if Place(Completed, id) in records || Place(Submitted, id) in records {
        StepIsSound(View(), Unlink);
        RemoveQueued(item.file);
        return false, [Check, Unlink];
      }
      if plan == LeaveQueued || item.record.target == QueueOnly {
        StepIsSound(View(), Skip);
        worker := Resume(worker.todo[1..]);
        return false, [Check, Skip];
      }
      RunSingle(old(View()), Check);
      var more := ExecuteFirst(item, plan.ok);
      RunMore(old(View()), [Check], more);
      carried, steps := true, [Check] + more;
    }

    /** The execution and the move of its record. */
    method ExecuteFirst(item: Item, ok: bool) returns (ghost steps: seq<Step>)
      requires Sound(View()) && InPhase(View(), Deciding) && Head(View()) == item && item.record.target != QueueOnly
      modifies this
      ensures View() == Run(old(View()), steps) && Sound(View())
      ensures worker == Resume(old(worker.todo)[1..])
      ensures execs == old(execs) + multiset{item.record.id} && queued == old(queued) - {item.file}
      ensures old(records).Keys <= records.Keys
      ensures failures == old(failures) + (if ok then multiset{} else multiset{item.record.id})
      ensures
        var status := if !ok then Failed else if item.record.target == Local then Completed else Submitted;
        Place(status, item.record.id) in records
    {
      var status := Outcome(item.record.target, ok);
      ExecutionIsCarriedOut(View(), ok);
      execs := execs + multiset{item.record.id};
      worker := Working(worker.todo, Executed(status));
      assert View() == ExecuteStep(old(View()), ok);
      WriteRecord(item.record.id, status);
      RemoveQueued(item.file);
      steps := [Execute(ok), Write, Unlink];
    }

    /** The listed files with their records, as readQueuedHandoffs returns them. */
    method ReadQueuedHandoffs(files: seq<nat>) returns (items: seq<Item>)
      requires Listed(View(), files)
      ensures items == ItemsOf(View(), files)
      ensures |items| == |files|
      ensures forall i :: 0 <= i < |files| ==> items[i].file == files[i] && items[i].record == queued[files[i]]
    {
      items := [];
      for i := 0 to |files|
        invariant items == ItemsOf(View(), files)[..i]
      {
        items := items + [Item(files[i], queued[files[i]])];
      }
    }

    /** processQueue over the files it read, when nothing stops it: a run of the same steps, which any of them could
        have cut short by a crash. Only handoffs that it chose to leave are still queued, and each of the others it
        either executed once or found already done: what it takes from the queue has a record, and a failed one only if
        it was carried out and failed. */
    method ProcessQueue(files: seq<nat>, plan: nat -> Plan)
        returns (processed: nat, skipped: nat, failedNow: nat, ghost steps: seq<Step>)
      requires Sound(View()) && worker == Stopped && Listed(View(), files)
      modifies this
      ensures View() == Run(old(View()), steps) && Sound(View()) && worker == Stopped
      ensures processed + skipped + failedNow == |files| && |execs| == |old(execs)| + processed + failedNow
      ensures |failures| == |old(failures)| + failedNow
      ensures forall i :: 0 <= i < |files| && files[i] in queued ==>
                plan(files[i]) == LeaveQueued || old(queued[files[i]]).target == QueueOnly
      ensures forall i :: 0 <= i < |files| && files[i] !in queued ==>
                Settled(records, old(queued[files[i]]), plan(files[i]))
    {
      var items := ReadQueuedHandoffs(files);
      assert forall k :: 0 <= k < |files| ==> items[k] == Item(files[k], queued[files[k]]);
      processed, skipped, failedNow := 0, 0, 0;
      steps := [Start(files)];
      RunSingle(View(), Start(files));
      StepIsSound(View(), Start(files));
      worker := Resume(items);
      for i := 0 to |items|
        invariant View() == Run(old(View()), steps) && Sound(View())
        invariant worker == Resume(items[i..])
        invariant processed + skipped + failedNow == i && |execs| == |old(execs)| + processed + failedNow
        invariant |failures| == |old(failures)| + failedNow
        invariant forall file :: file in queued ==> file in old(queued) && queued[file] == old(queued)[file]
        invariant forall k :: 0 <= k < i && items[k].file in queued ==>
                    plan(items[k].file) == LeaveQueued || items[k].record.target == QueueOnly
        invariant AllSettled(items, plan, queued, records)
      {
        assert items[i..][0] == items[i] && items[i..][1..] == items[i + 1..];
        ghost var queuedBefore, recordsBefore := queued, records;
        var carried, more := HandleFirst(items[i], plan(items[i].file));
        OneMoreSettled(items, plan, i, queuedBefore, recordsBefore, queued, records);
        RunMore(old(View()), steps, more);
        steps := steps + more;
        if !carried {
          skipped := skipped + 1;
        } else if plan(items[i].file).ok {
          processed := processed + 1;
        } else {
          failedNow := failedNow + 1;
        }
      }
      assert items[|items|..] == [];
    }
  }

  lemma FiledOrThere(b: Bridge)
    requires Sound(b) && Busy(b) && b.worker.phase.Executed?
    ensures
      var n := Apply(b, Write);
      && n.worker == Working(b.worker.todo, Recorded) && n.queued == b.queued && n.execs == b.execs
      && Place(b.worker.phase.status, Head(b).record.id) in n.records
  {
  }

  lemma {:induction false} ExecutionIsCarriedOut(b: Bridge, ok: bool)
    requires Sound(b) && InPhase(b, Deciding) && Head(b).record.target != QueueOnly
    ensures
      var (item, executed) := (Head(b), ExecuteStep(b, ok));
      var status := Outcome(item.record.target, ok);
      && InPhase(executed, Executed(status)) && Head(executed) == item
      && InPhase(WriteStep(executed), Recorded) && Head(WriteStep(executed)) == item
      && var done := UnlinkStep(WriteStep(executed));
         && Run(b, [Execute(ok), Write, Unlink]) == done && Sound(done)
         && done.worker == Resume(b.worker.todo[1..])
         && done.execs == b.execs + multiset{item.record.id} && done.queued == b.queued - {item.file}
         && Place(status, item.record.id) in done.records
  {
    var executed := ExecuteStep(b, ok);
    ExecuteIsSound(b, ok);
    FiledOrThere(executed);
    WriteIsSound(executed);
    UnlinkIsSound(WriteStep(executed));
    RunThree(b, Execute(ok), Write, Unlink);
  }

  lemma {:induction false} RunSingle(b: Bridge, step: Step)
    ensures Run(b, [step]) == Apply(b, step)
  {
    assert [step][..0] == [];
  }

  lemma {:induction false} RunThree(b: Bridge, first: Step, second: Step, third: Step)
    ensures Run(b, [first, second, third]) == Apply(Apply(Apply(b, first), second), third)
  {
    RunTwo(b, first, second);
    assert [first, second, third][..2] == [first, second];
  }
}
