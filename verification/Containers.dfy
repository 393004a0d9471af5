/**
 * The container bookkeeping of src/container-runner.ts and src/container-restart.ts as a transition system. A step
 * is the code between two awaits, or one event of a child process.
 */
module Containers {
  /** A call of spawnContainer: still setting up, or over with its promise about to be forgotten. */
  datatype Phase = Building | Settling

  datatype Wake = Wake(session: nat, phase: Phase)

  /** `active` and `wakes` are the two maps of the source, `frames` the calls of spawnContainer in progress and
      `onClose` the number of wake callbacks that wait for a process to close. `owner` is the session each process
      was started for; `live` are the processes still there, and `fired` those that had a terminal event. `stops`
      counts how often each process was told to stop. */
  datatype Host = Host(
    active: map<nat, nat>,
    wakes: map<nat, nat>,
    frames: map<nat, Wake>,
    onClose: map<nat, nat>,
    owner: map<nat, nat>,
    live: set<nat>,
    fired: set<nat>,
    stops: multiset<nat>,
    wakeMessages: multiset<nat>,
    nextWake: nat,
    nextProc: nat)

  datatype Step =
    | WakeUp(session: nat, groupFound: bool)
    | SpawnOk(wake: nat)
    | SpawnFail(wake: nat)
    | WakeDone(wake: nat)
    | Kill(session: nat, withWake: bool)
    | Restart(sessions: seq<nat>, withWake: bool)
    | Exit(proc: nat)
    | Closed(proc: nat, rowFound: bool, groupFound: bool)
    | Errored(proc: nat)

  const FIRST_START := Host(map[], map[], map[], map[], map[], {}, {}, multiset{}, multiset{}, 0, 0)

  // ---- The steps ----

  /** wakeContainer: nothing when the session has a container or a wake in progress. */
  function WakeStep(h: Host, session: nat, groupFound: bool): Host {
    if session in h.active || session in h.wakes then h else
      h.(wakes := h.wakes[session := h.nextWake],
         frames := h.frames[h.nextWake := Wake(session, if groupFound then Building else Settling)],
         nextWake := h.nextWake + 1)
  }

  predicate InPhase(h: Host, wake: nat, phase: Phase) {
    wake in h.frames && h.frames[wake].phase == phase
  }

  /** The rest of spawnContainer: the process starts and is entered under its session. */
  function SpawnStep(h: Host, wake: nat): Host {
    if !InPhase(h, wake, Building) then h else
      var session := h.frames[wake].session;
      h.(active := h.active[session := h.nextProc],
         frames := h.frames[wake := Wake(session, Settling)],
         onClose := h.onClose[h.nextProc := 0],
         owner := h.owner[h.nextProc := session],
         live := h.live + {h.nextProc},
         nextProc := h.nextProc + 1)
  }

  function FailStep(h: Host, wake: nat): Host {
    if !InPhase(h, wake, Building) then h else
      h.(frames := h.frames[wake := Wake(h.frames[wake].session, Settling)])
  }

  /** The promise is settled and forgotten, by session. */
  function DoneStep(h: Host, wake: nat): Host {
    if !InPhase(h, wake, Settling) then h else
      h.(wakes := h.wakes - {h.frames[wake].session}, frames := h.frames - {wake})
  }

  function Callbacks(h: Host, proc: nat): nat {
    if proc in h.onClose then h.onClose[proc] else 0
  }

  /** killContainer: the callback is registered, if there is one, and the process is told to stop. It ends by an `Exit`
      step, if it does. */
  function KillStep(h: Host, session: nat, withWake: bool): Host {
    if session !in h.active then h else
      var proc := h.active[session];
      h.(onClose := if withWake then h.onClose[proc := Callbacks(h, proc) + 1] else h.onClose,
         stops := h.stops + multiset{proc})
  }

  function RestartOne(h: Host, session: nat, withWake: bool): Host {
    KillStep(if withWake then h.(wakeMessages := h.wakeMessages + multiset{session}) else h, session, withWake)
  }

  /** The loop over the sessions that have a container. */
  function RestartStep(h: Host, sessions: seq<nat>, withWake: bool): Host
    decreases |sessions|
  {
    if sessions == [] then h else
      var before := RestartStep(h, sessions[..|sessions| - 1], withWake);
      var session := sessions[|sessions| - 1];
      if session in h.active then RestartOne(before, session, withWake) else before
  }

  /** The callbacks of one close, each a wake. */
  function WakeMany(h: Host, session: nat, groupFound: bool, n: nat): Host {
    if n == 0 then h else WakeStep(WakeMany(h, session, groupFound, n - 1), session, groupFound)
  }

  /** The handlers delete whatever the session has. */
  function Forget(h: Host, proc: nat): Host
    requires proc in h.owner
  {
    h.(active := h.active - {h.owner[proc]}, fired := h.fired + {proc})
  }

  /** First the deleting handler, then the callbacks that were registered after it, once each. */
  function ClosedStep(h: Host, proc: nat, rowFound: bool, groupFound: bool): Host {
    if proc !in h.owner then h else
      WakeMany(Forget(h, proc).(onClose := h.onClose[proc := 0]), h.owner[proc], groupFound,
        if rowFound then Callbacks(h, proc) else 0)
  }

  function ErroredStep(h: Host, proc: nat): Host {
    if proc !in h.owner then h else Forget(h, proc)
  }

  function Apply(h: Host, step: Step): Host {
    match step
    case WakeUp(session, groupFound) => WakeStep(h, session, groupFound)
    case SpawnOk(wake) => SpawnStep(h, wake)
    case SpawnFail(wake) => FailStep(h, wake)
    case WakeDone(wake) => DoneStep(h, wake)
    case Kill(session, withWake) => KillStep(h, session, withWake)
    case Restart(sessions, withWake) => RestartStep(h, sessions, withWake)
    case Exit(proc) => h.(live := h.live - {proc})
    case Closed(proc, rowFound, groupFound) => ClosedStep(h, proc, rowFound, groupFound)
    case Errored(proc) => ErroredStep(h, proc)
  }

  /** No call of spawnContainer for the session waits only for its promise to be forgotten. After its last await that
      function starts the process and returns, and its promise settles, before any event of a process can come. */
  predicate Drained(h: Host, session: nat) {
    forall w :: w in h.frames && h.frames[w].session == session ==> h.frames[w].phase != Settling
  }

  /** A terminal event is the only one of its process, comes when the process has ended, and finds nothing settling. */
  predicate Legal(h: Host, step: Step) {
    step.Closed? || step.Errored? ==>
      && step.proc !in h.live && step.proc !in h.fired
      && (step.proc in h.owner ==> Drained(h, h.owner[step.proc]))
  }

  function Run(h: Host, steps: seq<Step>): Host
    decreases |steps|
  {
    if steps == [] then h else Run(Apply(h, steps[0]), steps[1..])
  }

  predicate LegalRun(h: Host, steps: seq<Step>)
    decreases |steps|
  {
    steps == [] || (Legal(h, steps[0]) && LegalRun(Apply(h, steps[0]), steps[1..]))
  }

  // ---- One container for each session ----

  function LiveOf(h: Host, session: nat): set<nat> {
    set p | p in h.live && p in h.owner && h.owner[p] == session
  }

  function BuildingOf(h: Host, session: nat): set<nat> {
    set w | w in h.frames && h.frames[w] == Wake(session, Building)
  }

  ghost predicate OneEach(h: Host) {
    forall session :: |LiveOf(h, session)| + |BuildingOf(h, session)| <= 1
  }

  ghost predicate WakesMatch(h: Host) {
    && (forall w :: w in h.frames ==>
          w < h.nextWake && h.frames[w].session in h.wakes && h.wakes[h.frames[w].session] == w)
    && (forall s :: s in h.wakes ==> h.wakes[s] in h.frames && h.frames[h.wakes[s]].session == s)
    && (forall w :: InPhase(h, w, Building) ==> h.frames[w].session !in h.active)
  }

  /** Exactly the processes without a terminal event are entered under their session. */
  ghost predicate ProcsMatch(h: Host) {
    && (forall p :: p in h.owner ==> p < h.nextProc)
    && (forall p :: p in h.live ==> p in h.owner && p !in h.fired)
    && (forall p :: p in h.owner && p !in h.fired ==> h.owner[p] in h.active && h.active[h.owner[p]] == p)
    && (forall s :: s in h.active ==> h.active[s] in h.owner && h.active[s] !in h.fired && h.owner[h.active[s]] == s)
    && (forall p :: p in h.fired ==> p in h.owner)
  }

  ghost predicate Matches(h: Host) {
    WakesMatch(h) && ProcsMatch(h)
  }

  lemma AtMostOneMember(s: set<nat>, x: nat)
    requires forall y :: y in s ==> y == x
    ensures |s| <= 1
  {
    if x in s {
      assert s == {x};
    } else {
      assert s == {};
    }
  }

  lemma MatchesIsOneEach(h: Host)
    requires Matches(h)
    ensures OneEach(h)
  {
    forall session ensures |LiveOf(h, session)| + |BuildingOf(h, session)| <= 1 {
      if session in h.active {
        assert BuildingOf(h, session) == {};
        AtMostOneMember(LiveOf(h, session), h.active[session]);
      } else {
        assert LiveOf(h, session) == {};
        AtMostOneMember(BuildingOf(h, session), if session in h.wakes then h.wakes[session] else 0);
      }
    }
  }

  lemma WakeMatches(h: Host, session: nat, groupFound: bool)
    requires Matches(h)
    ensures Matches(WakeStep(h, session, groupFound))
  {
  }

  lemma SpawnMatches(h: Host, wake: nat)
    requires Matches(h)
    ensures Matches(SpawnStep(h, wake))
  {
  }

  lemma DoneMatches(h: Host, wake: nat)
    requires Matches(h)
    ensures Matches(DoneStep(h, wake))
  {
  }

  lemma {:induction false} WakeManyMatches(h: Host, session: nat, groupFound: bool, n: nat)
    requires Matches(h)
    ensures Matches(WakeMany(h, session, groupFound, n))
  {
    if n > 0 {
      WakeManyMatches(h, session, groupFound, n - 1);
      WakeMatches(WakeMany(h, session, groupFound, n - 1), session, groupFound);
    }
  }

  /** The guard of a safe event: the session has no entry, or it has the process of the event, which has ended. */
  predicate OwnEntry(h: Host, proc: nat) {
    proc in h.owner && h.owner[proc] in h.active ==> h.active[h.owner[proc]] == proc && proc !in h.live
  }

  lemma ForgetMatches(h: Host, proc: nat)
    requires Matches(h) && proc in h.owner && OwnEntry(h, proc)
    ensures Matches(Forget(h, proc))
  {
    var s := h.owner[proc];
    if s !in h.active {
      assert h.active - {s} == h.active;
    }
  }

  lemma EventMatches(h: Host, step: Step)
    requires Matches(h) && (step.Closed? || step.Errored?) && OwnEntry(h, step.proc)
    ensures Matches(Apply(h, step))
  {
    if step.proc in h.owner {
      ForgetMatches(h, step.proc);
      if step.Closed? {
        WakeManyMatches(Forget(h, step.proc).(onClose := h.onClose[step.proc := 0]), h.owner[step.proc],
          step.groupFound, if step.rowFound then Callbacks(h, step.proc) else 0);
      }
    }
  }

  lemma {:induction false} RestartKeepsMaps(h: Host, sessions: seq<nat>, withWake: bool)
    ensures RestartStep(h, sessions, withWake) ==
            h.(onClose := RestartStep(h, sessions, withWake).onClose,
               stops := RestartStep(h, sessions, withWake).stops,
               wakeMessages := RestartStep(h, sessions, withWake).wakeMessages)
    decreases |sessions|
  {
    if sessions != [] {
      RestartKeepsMaps(h, sessions[..|sessions| - 1], withWake);
    }
  }

  lemma FailMatches(h: Host, wake: nat)
    requires Matches(h)
    ensures Matches(FailStep(h, wake))
  {
  }

  /** Callbacks, messages and the end of a process are no matter to the maps. */
  lemma MatchesByMaps(h: Host, n: Host)
    requires Matches(h) && n.live <= h.live
    requires n.active == h.active && n.wakes == h.wakes && n.frames == h.frames && n.owner == h.owner
    requires n.fired == h.fired && n.nextWake == h.nextWake && n.nextProc == h.nextProc
    ensures Matches(n)
  {
  }

  lemma StepMatches(h: Host, step: Step)
    requires Matches(h) && Legal(h, step)
    ensures Matches(Apply(h, step))
  {
    match step
    case WakeUp(session, groupFound) => WakeMatches(h, session, groupFound);
    case SpawnOk(wake) => SpawnMatches(h, wake);
    case SpawnFail(wake) => FailMatches(h, wake);
    case WakeDone(wake) => DoneMatches(h, wake);
    case Kill(session, withWake) => MatchesByMaps(h, KillStep(h, session, withWake));
    case Restart(sessions, withWake) =>
      RestartKeepsMaps(h, sessions, withWake);
      MatchesByMaps(h, RestartStep(h, sessions, withWake));
    case Exit(proc) => MatchesByMaps(h, Apply(h, step));
    case Closed(proc, rowFound, groupFound) => EventMatches(h, step);
    case Errored(proc) => EventMatches(h, step);
  }

  lemma {:induction false} RunMatches(h: Host, steps: seq<Step>)
    requires Matches(h) && LegalRun(h, steps)
    ensures Matches(Run(h, steps))
    decreases |steps|
  {
    if steps != [] {
      StepMatches(h, steps[0]);
      RunMatches(Apply(h, steps[0]), steps[1..]);
    }
  }

  /** In every run in which each process has one terminal event: the live processes of a session and its spawns in
      progress are never more than one. */
  lemma {:induction false} OneContainerPerSession(steps: seq<Step>)
    requires LegalRun(FIRST_START, steps)
    ensures OneEach(Run(FIRST_START, steps))
  {
    RunMatches(FIRST_START, steps);
    MatchesIsOneEach(Run(FIRST_START, steps));
  }

  // ---- Exactly which events keep that ----

  /** Nothing that can happen from here leads to two containers for one session. */
  ghost predicate SafeFrom(h: Host) {
    forall steps :: LegalRun(h, steps) ==> OneEach(Run(h, steps))
  }

  lemma MatchesIsSafe(h: Host)
    requires Matches(h)
    ensures SafeFrom(h)
  {
    forall steps | LegalRun(h, steps) ensures OneEach(Run(h, steps)) {
      RunMatches(h, steps);
      MatchesIsOneEach(Run(h, steps));
    }
  }

  lemma SafeAfter(h: Host, step: Step)
    requires SafeFrom(h) && Legal(h, step)
    ensures SafeFrom(Apply(h, step))
  {
    forall steps | LegalRun(Apply(h, step), steps) ensures OneEach(Run(Apply(h, step), steps)) {
      assert ([step] + steps)[1..] == steps;
      assert LegalRun(h, [step] + steps);
    }
  }

  lemma TwoLiveIsUnsafe(h: Host, session: nat, p: nat, q: nat)
    requires p != q && p in LiveOf(h, session) && q in LiveOf(h, session)
    ensures !SafeFrom(h)
  {
    assert LegalRun(h, []) && Run(h, []) == h;
    assert {p, q} <= LiveOf(h, session);
    TwoMembers(LiveOf(h, session), p, q);
  }

  lemma TwoMembers(s: set<nat>, p: nat, q: nat)
    requires p != q && p in s && q in s
    ensures |s| >= 2
  {
    var rest := s - {p};
    assert q in rest && |rest| == |s| - 1;
  }

  /** A live process that its session has forgotten: the next wake starts a second one beside it. */
  lemma {:induction false} ForgottenLiveIsUnsafe(h: Host, p: nat)
    requires WakesMatch(h) && p in h.live && p in h.owner && p < h.nextProc
    requires h.owner[p] !in h.active
    ensures !SafeFrom(h)
    decreases if h.owner[p] !in h.wakes then 1 else if h.frames[h.wakes[h.owner[p]]].phase == Settling then 2 else 0
  {
    var s := h.owner[p];
    if SafeFrom(h) {
      if s !in h.wakes {
        SafeAfter(h, WakeUp(s, true));
        ForgottenLiveIsUnsafe(Apply(h, WakeUp(s, true)), p);
      } else if h.frames[h.wakes[s]].phase == Settling {
        SafeAfter(h, WakeDone(h.wakes[s]));
        ForgottenLiveIsUnsafe(Apply(h, WakeDone(h.wakes[s])), p);
      } else {
        var n := Apply(h, SpawnOk(h.wakes[s]));
        SafeAfter(h, SpawnOk(h.wakes[s]));
        TwoLiveIsUnsafe(n, s, p, h.nextProc);
      }
    }
  }

  lemma SettledIsDrained(h: Host, wake: nat)
    requires WakesMatch(h) && InPhase(h, wake, Settling)
    ensures WakesMatch(DoneStep(h, wake)) && Drained(DoneStep(h, wake), h.frames[wake].session)
  {
  }

  /** The late event of one process forgets another one that is live. */
  lemma EventForgetsLive(h: Host, q: nat, p: nat)
    requires WakesMatch(h) && Legal(h, Errored(q)) && q in h.owner && p in h.owner && h.owner[p] == h.owner[q]
    requires p in h.live && p < h.nextProc
    ensures !SafeFrom(h)
  {
    if SafeFrom(h) {
      SafeAfter(h, Errored(q));
      ForgottenLiveIsUnsafe(Apply(h, Errored(q)), p);
    }
  }

  lemma StaleEventAfterSpawn(h: Host, q: nat, wake: nat)
    requires WakesMatch(h) && q in h.owner && q < h.nextProc && q !in h.live && q !in h.fired
    requires InPhase(h, wake, Building) && h.frames[wake].session == h.owner[q]
    ensures !SafeFrom(h)
  {
    if SafeFrom(h) {
      SafeAfter(h, SpawnOk(wake));
      var started := Apply(h, SpawnOk(wake));
      SafeAfter(started, WakeDone(wake));
      SettledIsDrained(started, wake);
      EventForgetsLive(Apply(started, WakeDone(wake)), q, h.nextProc);
    }
  }

  /** A process that ended but whose event is still to come, and that its session has forgotten: the event will
      delete the entry of the process that is started next. */
  lemma {:induction false} StaleEventIsUnsafe(h: Host, q: nat)
    requires WakesMatch(h) && q in h.owner && q < h.nextProc && q !in h.live && q !in h.fired
    requires h.owner[q] !in h.active
    ensures !SafeFrom(h)
    decreases if h.owner[q] !in h.wakes then 1 else if h.frames[h.wakes[h.owner[q]]].phase == Settling then 2 else 0
  {
    var s := h.owner[q];
    if SafeFrom(h) {
      if s !in h.wakes {
        SafeAfter(h, WakeUp(s, true));
        StaleEventIsUnsafe(Apply(h, WakeUp(s, true)), q);
      } else if h.frames[h.wakes[s]].phase == Settling {
        SafeAfter(h, WakeDone(h.wakes[s]));
        StaleEventIsUnsafe(Apply(h, WakeDone(h.wakes[s])), q);
      } else {
        StaleEventAfterSpawn(h, q, h.wakes[s]);
      }
    }
  }

  lemma {:induction false} WakeManyKeeps(h: Host, session: nat, groupFound: bool, n: nat)
    requires WakesMatch(h)
    ensures
      var m := WakeMany(h, session, groupFound, n);
      && WakesMatch(m) && m.active == h.active && m.owner == h.owner && m.live == h.live && m.fired == h.fired
      && m.nextProc == h.nextProc
  {
    if n > 0 {
      WakeManyKeeps(h, session, groupFound, n - 1);
    }
  }

  lemma EventKeeps(h: Host, step: Step)
    requires Matches(h) && (step.Closed? || step.Errored?) && step.proc in h.owner
    ensures
      var m := Apply(h, step);
      && WakesMatch(m) && m.active == h.active - {h.owner[step.proc]} && m.owner == h.owner && m.live == h.live
      && m.fired == h.fired + {step.proc} && m.nextProc == h.nextProc
  {
    if step.Closed? {
      WakeManyKeeps(Forget(h, step.proc).(onClose := h.onClose[step.proc := 0]), h.owner[step.proc], step.groupFound,
        if step.rowFound then Callbacks(h, step.proc) else 0);
    }
  }

  /** The handlers delete by session, not by process. An event of a process, at any time, keeps one container for
      each session exactly when the session has no entry or has that process, ended, as its entry. */
  lemma EventIsSafeExactlyForOwnEntry(h: Host, step: Step)
    requires Matches(h) && (step.Closed? || step.Errored?) && step.proc in h.owner
    ensures SafeFrom(Apply(h, step)) <==> OwnEntry(h, step.proc)
  {
    if OwnEntry(h, step.proc) {
      EventMatches(h, step);
      MatchesIsSafe(Apply(h, step));
    } else {
      var q := h.active[h.owner[step.proc]];
      EventKeeps(h, step);
      if q in h.live {
        ForgottenLiveIsUnsafe(Apply(h, step), q);
      } else {
        StaleEventIsUnsafe(Apply(h, step), q);
      }
    }
  }

  /** For example: a process reports an error while it is still running, and then closes. */
  lemma ErrorWhileLiveIsUnsafe(h: Host, proc: nat)
    requires Matches(h) && proc in h.live
    ensures !SafeFrom(Apply(h, Errored(proc)))
  {
    EventIsSafeExactlyForOwnEntry(h, Errored(proc));
  }

  // ---- Failure and recovery ----

  lemma {:induction false} RunThree(h: Host, a: Step, b: Step, c: Step)
    ensures Run(h, [a, b, c]) == Apply(Apply(Apply(h, a), b), c)
    ensures LegalRun(h, [a, b, c]) <==>
            Legal(h, a) && Legal(Apply(h, a), b) && Legal(Apply(Apply(h, a), b), c)
  {
    var n, m := Apply(h, a), Apply(Apply(h, a), b);
    assert [a, b, c] == [a] + ([b] + [c]);
    RunAppend(h, [a], [b] + [c]);
    RunOne(h, a);
    RunAppend(n, [b], [c]);
    RunOne(n, b);
    RunOne(m, c);
  }

  /** A spawn that fails leaves no process and no entry, and once its promise is forgotten the session can wake again:
      the next wake is a new call of spawnContainer. */
  lemma {:induction false} FailedSpawnCanWakeAgain(h: Host, wake: nat)
    requires Matches(h) && InPhase(h, wake, Building)
    ensures
      var session := h.frames[wake].session;
      var again := [SpawnFail(wake), WakeDone(wake), WakeUp(session, true)];
      var n := Run(h, again);
      && LegalRun(h, again)
      && session !in n.active && LiveOf(n, session) == LiveOf(h, session)
      && BuildingOf(n, session) == {h.nextWake}
  {
    RunThree(h, SpawnFail(wake), WakeDone(wake), WakeUp(h.frames[wake].session, true));
  }

  /** A container that is told to stop, and does, is replaced when the kill asked for it: its session then has a
      spawn in progress and no process. Otherwise the session has neither. */
  lemma {:induction false} KilledIsReplacedExactly(h: Host, session: nat, withWake: bool)
    requires Matches(h) && session in h.active && Callbacks(h, h.active[session]) == 0 && Drained(h, session)
    ensures
      var proc := h.active[session];
      var steps := [Kill(session, withWake), Exit(proc), Closed(proc, true, true)];
      var n := Run(h, steps);
      && LegalRun(h, steps)
      && session !in n.active && LiveOf(n, session) == {}
      && BuildingOf(n, session) == if withWake then {h.nextWake} else {}
  {
    var proc := h.active[session];
    var kill, exit, close := Kill(session, withWake), Exit(proc), Closed(proc, true, true);
    RunThree(h, kill, exit, close);
    StepMatches(h, kill);
    var ended := Apply(Apply(h, kill), exit);
    StepMatches(Apply(h, kill), exit);
    CallbacksShareOneSpawn(ended, proc, true, true);
    EventKeeps(ended, close);
    MatchesIsOneEach(ended);
  }

  // ---- Wake on exit ----

  lemma {:induction false} WakeManyIsOne(h: Host, session: nat, groupFound: bool, n: nat)
    ensures WakeMany(h, session, groupFound, n) == if n == 0 then h else WakeStep(h, session, groupFound)
  {
    if n > 0 {
      WakeManyIsOne(h, session, groupFound, n - 1);
    }
  }

  /** The process that closes is the entry of its session, so its session is not waking. */
  lemma CloseFindsNoWake(h: Host, proc: nat)
    requires Matches(h) && proc in h.owner && proc !in h.fired && Drained(h, h.owner[proc])
    ensures h.owner[proc] in h.active && h.active[h.owner[proc]] == proc && h.owner[proc] !in h.wakes
  {
    assert forall w :: InPhase(h, w, Building) ==> h.frames[w].session != h.owner[proc];
  }

  /** However many callbacks wait for a close, they start one spawn together; and they start it exactly when there is
      a callback and the session still has its row and group. */
  lemma CallbacksShareOneSpawn(h: Host, proc: nat, rowFound: bool, groupFound: bool)
    requires Matches(h) && proc in h.owner && Legal(h, Closed(proc, rowFound, groupFound))
    ensures
      var n := ClosedStep(h, proc, rowFound, groupFound);
      var s := h.owner[proc];
      && s !in n.active
      && BuildingOf(n, s) == if Callbacks(h, proc) > 0 && rowFound && groupFound then {h.nextWake} else {}
  {
    CloseFindsNoWake(h, proc);
    var forgot := Forget(h, proc).(onClose := h.onClose[proc := 0]);
    WakeManyIsOne(forgot, h.owner[proc], groupFound, if rowFound then Callbacks(h, proc) else 0);
  }

  lemma {:induction false} RunAppend(h: Host, a: seq<Step>, b: seq<Step>)
    ensures Run(h, a + b) == Run(Run(h, a), b)
    ensures LegalRun(h, a + b) <==> LegalRun(h, a) && LegalRun(Run(h, a), b)
    decreases |a|
  {
    if a == [] {
      assert a + b == b;
    } else {
      assert (a + b)[1..] == a[1..] + b;
      RunAppend(Apply(h, a[0]), a[1..], b);
    }
  }

  lemma {:induction false} RunOne(h: Host, step: Step)
    ensures Run(h, [step]) == Apply(h, step) && (LegalRun(h, [step]) <==> Legal(h, step))
  {
    assert [step][1..] == [];
  }

  /** How often a step tells that process to stop: a kill of its session, or each listing of it in a restart. With
      `wakeOnly`, only those that want the session woken when the process has closed. */
  function Reaches(h: Host, step: Step, proc: nat, wakeOnly: bool): nat {
    if proc !in h.owner then 0 else
      match step
      case Kill(session, withWake) => if session == h.owner[proc] && (withWake || !wakeOnly) then 1 else 0
      case Restart(sessions, withWake) => if withWake || !wakeOnly then multiset(sessions)[h.owner[proc]] else 0
      case _ => 0
  }

  function ReachedBy(h: Host, steps: seq<Step>, proc: nat, wakeOnly: bool): nat
    decreases |steps|
  {
    if steps == [] then 0
    else Reaches(h, steps[0], proc, wakeOnly) + ReachedBy(Apply(h, steps[0]), steps[1..], proc, wakeOnly)
  }

  /** A restart tells the process of a running session to stop for each time that it lists the session; and with a wake
      message it leaves one message and one callback each time. Without, it leaves none; and it leaves sessions without
      a container alone. */
  lemma {:induction false} RestartReachesRunning(h: Host, sessions: seq<nat>, withWake: bool, session: nat)
    requires ProcsMatch(h)
    ensures
      var n := RestartStep(h, sessions, withWake);
      var listed := if session in h.active then multiset(sessions)[session] else 0;
      && n.wakeMessages[session] == h.wakeMessages[session] + (if withWake then listed else 0)
      && (session in h.active ==>
            var proc := h.active[session];
            && n.stops[proc] == h.stops[proc] + listed
            && Callbacks(n, proc) == Callbacks(h, proc) + if withWake then listed else 0)
    decreases |sessions|
  {
    if sessions != [] {
      var init: seq<nat> := sessions[..|sessions| - 1];
      assert sessions == init + [sessions[|sessions| - 1]];
      RestartReachesRunning(h, init, withWake, session);
      RestartKeepsMaps(h, init, withWake);
    }
  }

  lemma {:induction false} RestartSparesOthers(h: Host, sessions: seq<nat>, withWake: bool, proc: nat)
    requires ProcsMatch(h) && proc !in h.owner
    ensures
      var n := RestartStep(h, sessions, withWake);
      n.stops[proc] == h.stops[proc] && Callbacks(n, proc) == Callbacks(h, proc)
    decreases |sessions|
  {
    if sessions != [] {
      RestartSparesOthers(h, sessions[..|sessions| - 1], withWake, proc);
      RestartKeepsMaps(h, sessions[..|sessions| - 1], withWake);
    }
  }

  /** Nothing is counted for a process before it is there. */
  predicate Untouched(h: Host, proc: nat) {
    proc !in h.owner ==> h.stops[proc] == 0 && Callbacks(h, proc) == 0
  }

  /** The counts of a process grow by what the step adds to them. */
  predicate CountsGrow(h: Host, step: Step, proc: nat, n: Host) {
    && n.stops[proc] == h.stops[proc] + Reaches(h, step, proc, false)
    && Callbacks(n, proc) == Callbacks(h, proc) + Reaches(h, step, proc, true)
    && Untouched(n, proc) && proc !in h.fired
  }

  lemma {:induction false} RestartReaches(h: Host, sessions: seq<nat>, withWake: bool, proc: nat)
    requires Matches(h) && Untouched(h, proc) && proc !in h.fired
    ensures CountsGrow(h, Restart(sessions, withWake), proc, RestartStep(h, sessions, withWake))
  {
    RestartKeepsMaps(h, sessions, withWake);
    if proc in h.owner {
      RestartReachesRunning(h, sessions, withWake, h.owner[proc]);
    } else {
      RestartSparesOthers(h, sessions, withWake, proc);
    }
  }

  lemma KillReaches(h: Host, session: nat, withWake: bool, proc: nat)
    requires Matches(h) && Untouched(h, proc) && proc !in h.fired
    ensures CountsGrow(h, Kill(session, withWake), proc, KillStep(h, session, withWake))
  {
  }

  lemma EventReaches(h: Host, step: Step, proc: nat)
    requires Matches(h) && Untouched(h, proc) && (step.Closed? || step.Errored?) && proc !in Apply(h, step).fired
    ensures CountsGrow(h, step, proc, Apply(h, step))
  {
    if step.Closed? && step.proc in h.owner {
      WakeManyKeepsCallbacks(Forget(h, step.proc).(onClose := h.onClose[step.proc := 0]), h.owner[step.proc],
        step.groupFound, if step.rowFound then Callbacks(h, step.proc) else 0);
    }
  }

  lemma QuietReaches(h: Host, step: Step, proc: nat)
    requires Matches(h) && Untouched(h, proc) && proc !in h.fired
    requires step.WakeUp? || step.SpawnOk? || step.SpawnFail? || step.WakeDone? || step.Exit?
    ensures CountsGrow(h, step, proc, Apply(h, step))
  {
  }

  lemma StepReaches(h: Host, step: Step, proc: nat)
    requires Matches(h) && Untouched(h, proc) && proc !in h.fired && proc !in Apply(h, step).fired
    ensures CountsGrow(h, step, proc, Apply(h, step))
  {
    match step
    case Kill(session, withWake) => KillReaches(h, session, withWake, proc);
    case Restart(sessions, withWake) => RestartReaches(h, sessions, withWake, proc);
    case Closed(_, _, _) => EventReaches(h, step, proc);
    case Errored(_) => EventReaches(h, step, proc);
    case _ => QuietReaches(h, step, proc);
  }

  /** In every such run, the callbacks that wait for a process to close are exactly the kills and restarts with a wake
      that reached it, and it was told to stop exactly by all that reached it. */
  lemma {:induction false} CallbacksAreKills(h: Host, steps: seq<Step>, proc: nat)
    requires Matches(h) && LegalRun(h, steps) && Untouched(h, proc) && proc !in Run(h, steps).fired
    ensures
      var n := Run(h, steps);
      && n.stops[proc] == h.stops[proc] + ReachedBy(h, steps, proc, false)
      && Callbacks(n, proc) == Callbacks(h, proc) + ReachedBy(h, steps, proc, true)
      && proc !in h.fired
    decreases |steps|
  {
    if steps != [] {
      StepMatches(h, steps[0]);
      StepKeepsFired(h, steps[0]);
      FiredStays(Apply(h, steps[0]), steps[1..]);
      StepReaches(h, steps[0], proc);
      CallbacksAreKills(Apply(h, steps[0]), steps[1..], proc);
    }
  }

  lemma StepKeepsFired(h: Host, step: Step)
    ensures h.fired <= Apply(h, step).fired
  {
    match step
    case Restart(sessions, withWake) => RestartKeepsMaps(h, sessions, withWake);
    case Closed(proc, rowFound, groupFound) =>
      if proc in h.owner {
        WakeManyKeepsCallbacks(Forget(h, proc).(onClose := h.onClose[proc := 0]), h.owner[proc], groupFound,
          if rowFound then Callbacks(h, proc) else 0);
      }
    case _ =>
  }

  lemma {:induction false} FiredStays(h: Host, steps: seq<Step>)
    ensures h.fired <= Run(h, steps).fired
    decreases |steps|
  {
    if steps != [] {
      StepKeepsFired(h, steps[0]);
      FiredStays(Apply(h, steps[0]), steps[1..]);
    }
  }

  /** In every run in which each process has one terminal event, after everything has settled: a close starts a spawn
      exactly when an earlier kill or restart with a wake reached the process, and the session still has its row and
      group. A container that was killed for being stuck, without a wake, is not started again by its close. */
  lemma {:induction false} CloseRespawnsExactly(steps: seq<Step>, proc: nat, rowFound: bool, groupFound: bool)
    requires LegalRun(FIRST_START, steps + [Closed(proc, rowFound, groupFound)])
    requires proc in Run(FIRST_START, steps).owner
    ensures
      var h := Run(FIRST_START, steps);
      var n := Run(FIRST_START, steps + [Closed(proc, rowFound, groupFound)]);
      var wanted := ReachedBy(FIRST_START, steps, proc, true) > 0;
      && h.owner[proc] !in n.active
      && BuildingOf(n, h.owner[proc]) == if wanted && rowFound && groupFound then {h.nextWake} else {}
  {
    var h, close := Run(FIRST_START, steps), Closed(proc, rowFound, groupFound);
    RunAppend(FIRST_START, steps, [close]);
    RunOne(h, close);
    RunMatches(FIRST_START, steps);
    CallbacksAreKills(FIRST_START, steps, proc);
    CallbacksShareOneSpawn(h, proc, rowFound, groupFound);
  }

  lemma {:induction false} WakeManyKeepsCallbacks(h: Host, session: nat, groupFound: bool, n: nat)
    ensures
      var m := WakeMany(h, session, groupFound, n);
      m.onClose == h.onClose && m.owner == h.owner && m.fired == h.fired && m.stops == h.stops
  {
    if n > 0 {
      WakeManyKeepsCallbacks(h, session, groupFound, n - 1);
    }
  }

  /** A process keeps its session, and its callbacks until its terminal event. */
  ghost predicate StillWaits(h: Host, n: Host, p: nat) {
    && p in n.owner && p in h.owner && n.owner[p] == h.owner[p]
    && (p in h.fired ==> p in n.fired)
    && (p in n.fired || Callbacks(n, p) >= Callbacks(h, p))
  }

  lemma {:induction false} RestartKeepsCallbacks(h: Host, sessions: seq<nat>, withWake: bool, p: nat)
    ensures Callbacks(RestartStep(h, sessions, withWake), p) >= Callbacks(h, p)
    decreases |sessions|
  {
    if sessions != [] {
      RestartKeepsCallbacks(h, sessions[..|sessions| - 1], withWake, p);
    }
  }

  lemma ClosedKeepsCallbacks(h: Host, step: Step, p: nat)
    requires p in h.owner && (step.Closed? || step.Errored?)
    ensures StillWaits(h, Apply(h, step), p)
  {
    if step.Closed? && step.proc in h.owner {
      WakeManyKeepsCallbacks(Forget(h, step.proc).(onClose := h.onClose[step.proc := 0]), h.owner[step.proc],
        step.groupFound, if step.rowFound then Callbacks(h, step.proc) else 0);
    }
  }

  lemma StepKeepsCallbacks(h: Host, step: Step, p: nat)
    requires Matches(h) && p in h.owner
    ensures StillWaits(h, Apply(h, step), p)
  {
    match step
    case Restart(sessions, withWake) =>
      RestartKeepsMaps(h, sessions, withWake);
      RestartKeepsCallbacks(h, sessions, withWake, p);
    case Closed(_, _, _) => ClosedKeepsCallbacks(h, step, p);
    case Errored(_) => ClosedKeepsCallbacks(h, step, p);
    case _ =>
  }

  lemma {:induction false} CallbacksWait(h: Host, steps: seq<Step>, p: nat)
    requires Matches(h) && LegalRun(h, steps) && p in h.owner
    ensures StillWaits(h, Run(h, steps), p)
    decreases |steps|
  {
    if steps != [] {
      StepMatches(h, steps[0]);
      StepKeepsCallbacks(h, steps[0], p);
      CallbacksWait(Apply(h, steps[0]), steps[1..], p);
    }
  }

  lemma {:induction false} RestartLeavesCallback(h: Host, sessions: seq<nat>, session: nat)
    requires Matches(h) && session in sessions && session in h.active
    ensures
      var (n, p) := (RestartStep(h, sessions, true), h.active[session]);
      Matches(n) && p in n.owner && n.owner[p] == session && Callbacks(n, p) > 0
  {
    StepMatches(h, Restart(sessions, true));
    RestartKeepsMaps(h, sessions, true);
    RestartReachesRunning(h, sessions, true, session);
    assert multiset(sessions)[session] > 0;
  }

  lemma {:induction false} CloseAfterWaiting(h: Host, more: seq<Step>, p: nat)
    requires Matches(h) && p in h.owner && Callbacks(h, p) > 0
    requires LegalRun(h, more) && Legal(Run(h, more), Closed(p, true, true))
    ensures
      var n := Apply(Run(h, more), Closed(p, true, true));
      h.owner[p] !in n.active && |BuildingOf(n, h.owner[p])| == 1
  {
    RunMatches(h, more);
    CallbacksWait(h, more, p);
    CallbacksShareOneSpawn(Run(h, more), p, true, true);
  }

  /** A restarted session comes back: whatever happens after the restart, when the process that the session had closes,
      one spawn is in progress. */
  lemma {:induction false} RestartBringsBack(h: Host, sessions: seq<nat>, session: nat, more: seq<Step>)
    requires Matches(h) && session in sessions && session in h.active
    requires LegalRun(h, [Restart(sessions, true)] + more + [Closed(h.active[session], true, true)])
    ensures
      var n := Run(h, [Restart(sessions, true)] + more + [Closed(h.active[session], true, true)]);
      session !in n.active && |BuildingOf(n, session)| == 1
  {
    var restart, close := Restart(sessions, true), Closed(h.active[session], true, true);
    RunAppend(h, [restart] + more, [close]);
    RunAppend(h, [restart], more);
    RunOne(h, restart);
    RunOne(Run(Apply(h, restart), more), close);
    RestartLeavesCallback(h, sessions, session);
    CloseAfterWaiting(Apply(h, restart), more, h.active[session]);
  }

  // ---- The source's state and its methods ----

  class ContainerRunner {
    var activeContainers: map<nat, nat>
    var wakePromises: map<nat, nat>
    var frames: map<nat, Wake>
    var onClose: map<nat, nat>
    var owner: map<nat, nat>
    var wakeMessages: multiset<nat>
    var nextWake: nat
    var nextProc: nat
    ghost var live: set<nat>
    ghost var fired: set<nat>
    ghost var stops: multiset<nat>

    ghost function View(): Host
      reads this
    {
      Host(
        activeContainers, wakePromises, frames, onClose, owner, live, fired, stops, wakeMessages, nextWake, nextProc)
    }

    constructor ()
      ensures View() == FIRST_START
    {
      activeContainers, wakePromises, frames, onClose, owner := map[], map[], map[], map[], map[];
      wakeMessages, nextWake, nextProc, live, fired, stops := multiset{}, 0, 0, {}, {}, multiset{};
    }

    method WakeContainer(session: nat, groupFound: bool)
      modifies `wakePromises, `frames, `nextWake
      ensures View() == Apply(old(View()), WakeUp(session, groupFound))
      ensures if session in activeContainers || session in old(wakePromises) then
                wakePromises == old(wakePromises) && frames == old(frames) && nextWake == old(nextWake)
              else
                && wakePromises == old(wakePromises)[session := old(nextWake)]
                && frames == old(frames)[old(nextWake) := Wake(session, if groupFound then Building else Settling)]
                && nextWake == old(nextWake) + 1
    {
      if session in activeContainers {
        return;
      }
      if session in wakePromises {
        return;
      }
      frames := frames[nextWake := Wake(session, if groupFound then Building else Settling)];
      wakePromises := wakePromises[session := nextWake];
      nextWake := nextWake + 1;
    }

    /** spawnContainer from its last await: the process starts, is entered, and gets its handlers. */
    method FinishSpawn(wake: nat)
      requires InPhase(View(), wake, Building)
      modifies `activeContainers, `frames, `onClose, `owner, `live, `nextProc
      ensures View() == Apply(old(View()), SpawnOk(wake))
      ensures
        var (session, proc) := (old(frames[wake].session), old(nextProc));
        && activeContainers == old(activeContainers)[session := proc]
        && frames == old(frames)[wake := Wake(session, Settling)]
        && onClose == old(onClose)[proc := 0] && owner == old(owner)[proc := session]
        && live == old(live) + {proc} && nextProc == proc + 1
    {
      var session := frames[wake].session;
      owner, onClose := owner[nextProc := session], onClose[nextProc := 0];
      activeContainers := activeContainers[session := nextProc];
      live := live + {nextProc};
      nextProc := nextProc + 1;
      frames := frames[wake := Wake(session, Settling)];
    }

    /** The `finally` of wakeContainer. */
    method ForgetWake(wake: nat)
      requires InPhase(View(), wake, Settling)
      modifies `wakePromises, `frames
      ensures View() == Apply(old(View()), WakeDone(wake))
      ensures wakePromises == old(wakePromises) - {old(frames[wake].session)} && frames == old(frames) - {wake}
    {
      wakePromises := wakePromises - {frames[wake].session};
      frames := frames - {wake};
    }

    method KillContainer(session: nat, withWake: bool)
      modifies `onClose, `stops
      ensures View() == Apply(old(View()), Kill(session, withWake))
      ensures if session !in activeContainers then onClose == old(onClose) && stops == old(stops) else
                var proc := activeContainers[session];
                && stops == old(stops) + multiset{proc}
                && onClose == if !withWake then old(onClose) else
                     old(onClose)[proc := 1 + if proc in old(onClose) then old(onClose)[proc] else 0]
    {
      if session !in activeContainers {
        return;
      }
      var process := activeContainers[session];
      if withWake {
        onClose := onClose[process := (if process in onClose then onClose[process] else 0) + 1];
      }
      stops := stops + multiset{process};
    }

    /** The close event: the deleting handler, then each callback in turn. */
    method OnClose(proc: nat, rowFound: bool, groupFound: bool)
      requires proc in owner
      modifies `activeContainers, `fired, `onClose, `wakePromises, `frames, `nextWake
      ensures View() == Apply(old(View()), Closed(proc, rowFound, groupFound))
      ensures activeContainers == old(activeContainers) - {owner[proc]}
      ensures fired == old(fired) + {proc} && onClose == old(onClose)[proc := 0]
      ensures
        var session := owner[proc];
        if rowFound && proc in old(onClose) && old(onClose)[proc] > 0 && session !in old(wakePromises) then
          && wakePromises == old(wakePromises)[session := old(nextWake)]
          && frames == old(frames)[old(nextWake) := Wake(session, if groupFound then Building else Settling)]
          && nextWake == old(nextWake) + 1
        else wakePromises == old(wakePromises) && frames == old(frames) && nextWake == old(nextWake)
    {
      var session := owner[proc];
      activeContainers := activeContainers - {session};
      fired := fired + {proc};
      var callbacks := if proc in onClose then onClose[proc] else 0;
      onClose := onClose[proc := 0];
      ghost var start := View();
      if rowFound {
        for i := 0 to callbacks
          invariant View() == WakeMany(start, session, groupFound, i)
        {
          WakeContainer(session, groupFound);
        }
        WakeManyIsOne(start, session, groupFound, callbacks);
      }
    }

    method OnError(proc: nat)
      requires proc in owner
      modifies `activeContainers, `fired
      ensures View() == Apply(old(View()), Errored(proc))
      ensures activeContainers == old(activeContainers) - {owner[proc]} && fired == old(fired) + {proc}
    {
      activeContainers := activeContainers - {owner[proc]};
      fired := fired + {proc};
    }

    /** One turn of the loop: the wake message, and the kill. */
    method RestartSession(session: nat, withWake: bool)
      modifies `onClose, `stops, `wakeMessages
      ensures View() == RestartOne(old(View()), session, withWake)
    {
      if withWake {
        wakeMessages := wakeMessages + multiset{session};
      }
      KillContainer(session, withWake);
    }

    /** Kills the sessions that have a container, and counts them. Without a wake message it leaves no callback. */
    method RestartAgentGroupContainers(all: seq<nat>, withWake: bool) returns (count: nat)
      modifies `onClose, `stops, `wakeMessages
      ensures View() == Apply(old(View()), Restart(all, withWake))
      ensures !withWake ==> onClose == old(onClose) && wakeMessages == old(wakeMessages)
      ensures count == |RunningAmong(all, activeContainers)|
    {
      var sessions := Running(all, activeContainers);
      RestartOfRunning(View(), all, withWake);
      RunningSize(all, activeContainers);
      for i := 0 to |sessions|
        invariant View() == RestartStep(old(View()), sessions[..i], withWake)
        invariant activeContainers == old(activeContainers)
      {
        RunningAt(all, activeContainers, i);
        RestartNext(old(View()), sessions, i, withWake);
        RestartSession(sessions[i], withWake);
      }
      assert sessions[..|sessions|] == sessions;
      RestartWithoutWake(old(View()), all);
      count := |sessions|;
    }
  }

  /** The filter of the restart: the sessions that have a container. */
  function Running(sessions: seq<nat>, active: map<nat, nat>): seq<nat>
    decreases |sessions|
  {
    if sessions == [] then [] else
      var before := Running(sessions[..|sessions| - 1], active);
      var session := sessions[|sessions| - 1];
      if session in active then before + [session] else before
  }

  lemma {:induction false} RestartWithoutWake(h: Host, sessions: seq<nat>)
    ensures RestartStep(h, sessions, false).onClose == h.onClose
    ensures RestartStep(h, sessions, false).wakeMessages == h.wakeMessages
    decreases |sessions|
  {
    if sessions != [] {
      RestartWithoutWake(h, sessions[..|sessions| - 1]);
    }
  }

  /** The places of the list at which it has a session with a container. */
  function RunningAmong(sessions: seq<nat>, active: map<nat, nat>): set<nat> {
    set i: nat | i < |sessions| && sessions[i] in active
  }

  lemma {:induction false} RunningSize(sessions: seq<nat>, active: map<nat, nat>)
    ensures |Running(sessions, active)| == |RunningAmong(sessions, active)|
    decreases |sessions|
  {
    if sessions == [] {
      assert RunningAmong(sessions, active) == {};
    } else {
      var init, last := sessions[..|sessions| - 1], |sessions| - 1;
      RunningSize(init, active);
      assert RunningAmong(sessions, active) ==
             RunningAmong(init, active) + if sessions[last] in active then {last} else {};
    }
  }

  lemma {:induction false} RestartNext(h: Host, sessions: seq<nat>, i: nat, withWake: bool)
    requires i < |sessions| && sessions[i] in h.active
    ensures RestartStep(h, sessions[..i + 1], withWake) ==
            RestartOne(RestartStep(h, sessions[..i], withWake), sessions[i], withWake)
    ensures RestartStep(h, sessions[..i + 1], withWake).active == h.active
  {
    assert sessions[..i + 1][..i] == sessions[..i];
    RestartKeepsMaps(h, sessions[..i + 1], withWake);
  }

  lemma {:induction false} RunningAt(sessions: seq<nat>, active: map<nat, nat>, i: nat)
    requires i < |Running(sessions, active)|
    ensures Running(sessions, active)[i] in active
    decreases |sessions|
  {
    var before := Running(sessions[..|sessions| - 1], active);
    if i < |before| {
      RunningAt(sessions[..|sessions| - 1], active, i);
    }
  }

  /** Filtering before the loop is skipping in the loop, since killing does not change who has a container. */
  lemma {:induction false} RestartOfRunning(h: Host, sessions: seq<nat>, withWake: bool)
    ensures RestartStep(h, Running(sessions, h.active), withWake) == RestartStep(h, sessions, withWake)
    decreases |sessions|
  {
    if sessions != [] {
      var init := sessions[..|sessions| - 1];
      RestartOfRunning(h, init, withWake);
      var before := Running(init, h.active);
      assert (before + [sessions[|sessions| - 1]])[..|before|] == before;
    }
  }
}
