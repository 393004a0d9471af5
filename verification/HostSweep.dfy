/**
 * The sweep of src/host-sweep.ts: the decision whether a running container is stuck, what it says about a container's
 * whole run, and the order of the steps of one sweep.
 */
module HostSweep {
  import opened Prelude
  import opened Retry

  const ABSOLUTE_CEILING_MS: int := 1800000
  const CLAIM_STUCK_MS: int := 60000

  // ---- The decision ----

  /** A row of processing_ack that is still 'processing'; `at` is absent when its timestamp does not parse. */
  datatype StoredClaim = StoredClaim(id: nat, at: Option<int>)

  datatype ContainerState = ContainerState(bash: bool, timeoutMs: Option<int>)

  datatype Decision =
    | Fine
    | KillCeiling(heartbeatAgeMs: int, ceilingMs: int)
    | KillClaim(id: nat, claimAgeMs: int, toleranceMs: int)

  function Max(a: int, b: int): int {
    if a >= b then a else b
  }

  /** The timeout that a running Bash declared, or 0. */
  function DeclaredMs(state: Option<ContainerState>): int {
    if state.Some? && state.value.bash && state.value.timeoutMs.Some? then state.value.timeoutMs.value else 0
  }

  /** There was a heartbeat, and it is too old. A missing file reads as 0 and gives grace. */
  predicate TooQuiet(now: int, heartbeat: int, declared: int) {
    heartbeat != 0 && now - heartbeat > Max(ABSOLUTE_CEILING_MS, declared)
  }

  predicate AbandonedAt(now: int, heartbeat: int, declared: int, at: int) {
    now - at > Max(CLAIM_STUCK_MS, declared) && heartbeat <= at
  }

  predicate Abandoned(now: int, heartbeat: int, declared: int, claim: StoredClaim) {
    claim.at.Some? && AbandonedAt(now, heartbeat, declared, claim.at.value)
  }

  /** Longer than the limit, and than the timeout that a running Bash declared, if one did. */
  ghost predicate Exceeds(ms: int, limit: int, state: Option<ContainerState>) {
    ms > limit && (state.Some? && state.value.bash && state.value.timeoutMs.Some? ==> ms > state.value.timeoutMs.value)
  }

  /** No heartbeat for half an hour or the declared timeout. */
  ghost predicate PastCeiling(now: int, heartbeat: int, state: Option<ContainerState>) {
    heartbeat != 0 && Exceeds(now - heartbeat, 1800000, state)
  }

  /** A claim of a minute or the declared timeout, and no heartbeat since. */
  ghost predicate Silent(now: int, heartbeat: int, state: Option<ContainerState>, at: Option<int>) {
    at.Some? && Exceeds(now - at.value, 60000, state) && heartbeat <= at.value
  }

  method DecideStuckAction(now: int, heartbeat: int, state: Option<ContainerState>, claims: seq<StoredClaim>)
      returns (d: Decision)
    ensures d.KillCeiling? <==> PastCeiling(now, heartbeat, state)
    ensures d.KillCeiling? ==> d.heartbeatAgeMs == now - heartbeat > d.ceilingMs >= 1800000
    ensures d.KillClaim? <==>
            && !PastCeiling(now, heartbeat, state)
            && exists i :: 0 <= i < |claims| && Silent(now, heartbeat, state, claims[i].at)
    ensures d.KillClaim? ==>
              exists i ::
                && 0 <= i < |claims| && claims[i].at == Some(now - d.claimAgeMs) && claims[i].id == d.id
                && d.claimAgeMs > d.toleranceMs >= 60000
                && forall k :: 0 <= k < i ==> !Silent(now, heartbeat, state, claims[k].at)
  {
    var declared := DeclaredMs(state);
    if heartbeat != 0 {
      var age, ceiling := now - heartbeat, Max(ABSOLUTE_CEILING_MS, declared);
      if age > ceiling {
        return KillCeiling(age, ceiling);
      }
    }
    var tolerance := Max(CLAIM_STUCK_MS, declared);
    for i := 0 to |claims|
      invariant forall k :: 0 <= k < i ==> !Silent(now, heartbeat, state, claims[k].at)
    {
      if claims[i].at == None {
        continue;
      }
      var age := now - claims[i].at.value;
      if age <= tolerance {
        continue;
      }
      if heartbeat > claims[i].at.value {
        continue;
      }
      assert Silent(now, heartbeat, state, claims[i].at);
      return KillClaim(claims[i].id, age, tolerance);
    }
    d := Fine;
  }

  /** With the timeout as a number, 0 standing for none. */
  lemma InNumbers(now: int, heartbeat: int, state: Option<ContainerState>)
    ensures TooQuiet(now, heartbeat, DeclaredMs(state)) <==> PastCeiling(now, heartbeat, state)
    ensures forall claim: StoredClaim ::
              Abandoned(now, heartbeat, DeclaredMs(state), claim) <==> Silent(now, heartbeat, state, claim.at)
  {
  }

  // ---- The run of a container ----

  /** What a container does that the sweep can see later. Claims are stamped in whole seconds; a declared timeout of
      0 stands for none. */
  datatype Event =
    | Beat(at: nat)
    | Claimed(id: nat, at: nat)
    | Settled(id: nat, at: nat)
    | Declared(ms: int, at: nat)

  /** What a sweep finds: the heartbeat file, the declared timeout and the open claims. */
  datatype Box = Box(heartbeat: nat, declared: int, claims: map<nat, nat>)

  function Effect(box: Box, e: Event): Box {
    match e
    case Beat(at) => box.(heartbeat := at)
    case Claimed(id, at) => box.(claims := box.claims[id := WholeSecond(at)])
    case Settled(id, at) => box.(claims := box.claims - {id})
    case Declared(ms, at) => box.(declared := ms)
  }

  function After(box: Box, events: seq<Event>): Box
    decreases |events|
  {
    if events == [] then box else Effect(After(box, events[..|events| - 1]), events[|events| - 1])
  }

  /** A new container. Its start removed the heartbeat file, but not what an earlier container left in the database:
      `orphans` are its open claims, and `left` is the timeout it had declared, if it was killed inside a Bash call. */
  function Spawned(orphans: map<nat, nat>, left: int): Box {
    Box(0, left, orphans)
  }

  ghost predicate InTime(events: seq<Event>) {
    && (forall i :: 0 <= i < |events| ==> events[i].at > 0)
    && (forall i, j :: 0 <= i < j < |events| ==> events[i].at <= events[j].at)
  }

  ghost predicate Kills(box: Box, now: nat) {
    TooQuiet(now, box.heartbeat, box.declared) ||
    exists id :: id in box.claims && AbandonedAt(now, box.heartbeat, box.declared, box.claims[id])
  }

  ghost predicate Lists(claims: seq<StoredClaim>, open: map<nat, nat>) {
    && (forall i :: 0 <= i < |claims| ==> claims[i].id in open && claims[i].at == Some(open[claims[i].id]))
    && (forall id :: id in open ==> exists i :: 0 <= i < |claims| && claims[i].id == id)
  }

  /** The decision on the listed claims, in any order, is to kill exactly when the box says so. */
  lemma DecisionOfListing(box: Box, now: nat, claims: seq<StoredClaim>)
    requires Lists(claims, box.claims)
    ensures Kills(box, now) <==>
            TooQuiet(now, box.heartbeat, box.declared) ||
            exists i :: 0 <= i < |claims| && Abandoned(now, box.heartbeat, box.declared, claims[i])
  {
    if id :| id in box.claims && AbandonedAt(now, box.heartbeat, box.declared, box.claims[id]) {
      var i :| 0 <= i < |claims| && claims[i].id == id;
      assert Abandoned(now, box.heartbeat, box.declared, claims[i]);
    }
  }

  predicate Touches(e: Event, id: nat) {
    (e.Claimed? || e.Settled?) && e.id == id
  }

  /** The event of index `j` is a claim that nothing after it replaces or settles. */
  ghost predicate Open(events: seq<Event>, j: int) {
    0 <= j < |events| && events[j].Claimed? && forall k :: j < k < |events| ==> !Touches(events[k], events[j].id)
  }

  lemma {:induction false} HeartbeatIsLatest(box: Box, events: seq<Event>)
    requires InTime(events) && box.heartbeat == 0
    ensures
      var h := After(box, events).heartbeat;
      && (forall i :: 0 <= i < |events| && events[i].Beat? ==> events[i].at <= h)
      && (h != 0 ==> exists i :: 0 <= i < |events| && events[i].Beat? && events[i].at == h)
    decreases |events|
  {
    if events != [] {
      var init := events[..|events| - 1];
      HeartbeatIsLatest(box, init);
      var h := After(box, init).heartbeat;
      if h != 0 {
        var i :| 0 <= i < |init| && init[i].Beat? && init[i].at == h;
        assert events[i] == init[i];
      }
      forall i | 0 <= i < |events| && events[i].Beat? ensures events[i].at <= After(box, events).heartbeat {
        if i < |init| {
          assert events[i] == init[i];
        }
      }
    }
  }

  predicate Touched(events: seq<Event>, id: nat) {
    exists k :: 0 <= k < |events| && Touches(events[k], id)
  }

  lemma {:induction false} UntouchedStays(box: Box, events: seq<Event>, id: nat)
    requires !Touched(events, id)
    ensures
      var claims := After(box, events).claims;
      (id in claims <==> id in box.claims) && (id in claims ==> claims[id] == box.claims[id])
    decreases |events|
  {
    if events != [] {
      var init := events[..|events| - 1];
      assert !Touches(events[|events| - 1], id);
      assert forall k :: 0 <= k < |init| ==> init[k] == events[k] && !Touches(events[k], id);
      UntouchedStays(box, init, id);
    }
  }

  /** An event of index `j` that holds the claim on `id`, as the box says. */
  ghost predicate Holds(box: Box, events: seq<Event>, id: nat, j: int) {
    Open(events, j) && events[j].id == id && id in box.claims && box.claims[id] == WholeSecond(events[j].at)
  }

  lemma {:induction false} OpenIsHeld(box: Box, events: seq<Event>, id: nat, j: int)
    requires Open(events, j) && events[j].id == id
    ensures Holds(After(box, events), events, id, j)
    decreases |events|
  {
    var last := |events| - 1;
    if j < last {
      assert Open(events[..last], j);
      OpenIsHeld(box, events[..last], id, j);
      assert !Touches(events[last], id);
    }
  }

  lemma {:induction false} HeldIsOpen(box: Box, events: seq<Event>, id: nat)
    requires Touched(events, id) && id in After(box, events).claims
    ensures exists j :: Holds(After(box, events), events, id, j)
    decreases |events|
  {
    var init, last := events[..|events| - 1], |events| - 1;
    if Touches(events[last], id) {
      assert Open(events, last);
      OpenIsHeld(box, events, id, last);
    } else {
      var k :| 0 <= k < |events| && Touches(events[k], id);
      assert Touches(init[k], id);
      HeldIsOpen(box, init, id);
      var j :| Holds(After(box, init), init, id, j);
      assert Open(events, j);
      OpenIsHeld(box, events, id, j);
    }
  }

  // ---- Exactly when a sweep kills ----

  ghost predicate NoBeatAfter(events: seq<Event>, at: nat) {
    forall i :: 0 <= i < |events| && events[i].Beat? ==> events[i].at <= at
  }

  /** The declared timeout that counts: the container's own last one, or else the one it found. */
  function LastDeclared(left: int, events: seq<Event>): int
    decreases |events|
  {
    if events == [] then left
    else if events[|events| - 1].Declared? then events[|events| - 1].ms
    else LastDeclared(left, events[..|events| - 1])
  }

  /** The run had a heartbeat, and all of them are older than the ceiling. */
  ghost predicate WentQuiet(left: int, events: seq<Event>, now: nat) {
    && (exists i :: 0 <= i < |events| && events[i].Beat?)
    && forall i :: 0 <= i < |events| && events[i].Beat? ==>
         now - events[i].at > Max(ABSOLUTE_CEILING_MS, LastDeclared(left, events))
  }

  /** An open claim whose second is past the tolerance and that no heartbeat follows. */
  ghost predicate WentSilent(left: int, events: seq<Event>, j: int, now: nat) {
    && Open(events, j)
    && now - WholeSecond(events[j].at) > Max(CLAIM_STUCK_MS, LastDeclared(left, events))
    && NoBeatAfter(events, WholeSecond(events[j].at))
  }

  /** The same for a claim that was there when the container started, and that it neither took over nor settled. */
  ghost predicate OrphanSilent(orphans: map<nat, nat>, left: int, events: seq<Event>, id: nat, now: nat) {
    && id in orphans
    && !Touched(events, id)
    && now - orphans[id] > Max(CLAIM_STUCK_MS, LastDeclared(left, events))
    && NoBeatAfter(events, orphans[id])
  }

  lemma {:induction false} DeclaredIsLast(orphans: map<nat, nat>, left: int, events: seq<Event>)
    ensures After(Spawned(orphans, left), events).declared == LastDeclared(left, events)
    decreases |events|
  {
    if events != [] {
      DeclaredIsLast(orphans, left, events[..|events| - 1]);
    }
  }

  lemma {:induction false} QuietExactly(orphans: map<nat, nat>, left: int, events: seq<Event>, now: nat)
    requires InTime(events)
    ensures
      var box := After(Spawned(orphans, left), events);
      TooQuiet(now, box.heartbeat, box.declared) <==> WentQuiet(left, events, now)
  {
    HeartbeatIsLatest(Spawned(orphans, left), events);
    DeclaredIsLast(orphans, left, events);
  }

  lemma {:induction false} NoBeatExactly(orphans: map<nat, nat>, left: int, events: seq<Event>, at: nat)
    requires InTime(events)
    ensures After(Spawned(orphans, left), events).heartbeat <= at <==> NoBeatAfter(events, at)
  {
    HeartbeatIsLatest(Spawned(orphans, left), events);
  }

  /** A kill that the box calls for has a cause in the run. */
  lemma {:induction false} SilentCause(orphans: map<nat, nat>, left: int, events: seq<Event>, now: nat, id: nat)
    requires InTime(events)
    requires
      var box := After(Spawned(orphans, left), events);
      id in box.claims && AbandonedAt(now, box.heartbeat, box.declared, box.claims[id])
    ensures (exists j :: WentSilent(left, events, j, now)) || OrphanSilent(orphans, left, events, id, now)
  {
    DeclaredIsLast(orphans, left, events);
    var box := After(Spawned(orphans, left), events);
    NoBeatExactly(orphans, left, events, box.claims[id]);
    if Touched(events, id) {
      HeldIsOpen(Spawned(orphans, left), events, id);
      var j :| Holds(box, events, id, j);
      assert WentSilent(left, events, j, now);
    } else {
      UntouchedStays(Spawned(orphans, left), events, id);
    }
  }

  lemma {:induction false} SilentKills(orphans: map<nat, nat>, left: int, events: seq<Event>, now: nat, j: int)
    requires InTime(events) && WentSilent(left, events, j, now)
    ensures Kills(After(Spawned(orphans, left), events), now)
  {
    OpenIsHeld(Spawned(orphans, left), events, events[j].id, j);
    DeclaredIsLast(orphans, left, events);
    NoBeatExactly(orphans, left, events, WholeSecond(events[j].at));
    assert events[j].id in After(Spawned(orphans, left), events).claims;
  }

  lemma {:induction false} OrphanKills(orphans: map<nat, nat>, left: int, events: seq<Event>, now: nat, id: nat)
    requires InTime(events) && OrphanSilent(orphans, left, events, id, now)
    ensures Kills(After(Spawned(orphans, left), events), now)
  {
    UntouchedStays(Spawned(orphans, left), events, id);
    DeclaredIsLast(orphans, left, events);
    NoBeatExactly(orphans, left, events, orphans[id]);
    assert id in After(Spawned(orphans, left), events).claims;
  }

  /** For every run of a container and every moment: a sweep kills it exactly when it had heartbeats and all are past
      the ceiling, or a claim of its own or of an earlier container is past the tolerance with no later heartbeat. */
  lemma {:induction false} SweepKillsExactly(orphans: map<nat, nat>, left: int, events: seq<Event>, now: nat)
    requires InTime(events)
    ensures Kills(After(Spawned(orphans, left), events), now) <==>
            || WentQuiet(left, events, now)
            || (exists j :: WentSilent(left, events, j, now))
            || (exists id :: OrphanSilent(orphans, left, events, id, now))
  {
    var box := After(Spawned(orphans, left), events);
    QuietExactly(orphans, left, events, now);
    if id :| id in box.claims && AbandonedAt(now, box.heartbeat, box.declared, box.claims[id]) {
      SilentCause(orphans, left, events, now, id);
    }
    if j :| WentSilent(left, events, j, now) {
      SilentKills(orphans, left, events, now, j);
    }
    if id :| OrphanSilent(orphans, left, events, id, now) {
      OrphanKills(orphans, left, events, now, id);
    }
  }

  // ---- What follows for containers ----

  /** Every claim is answered within the tolerance, counted from its recorded second: by a heartbeat, or by being
      settled or taken again. */
  ghost predicate ClaimsAnswered(events: seq<Event>) {
    forall j :: 0 <= j < |events| && events[j].Claimed? ==> exists i :: Answers(events, j, i)
  }

  ghost predicate Answers(events: seq<Event>, j: int, i: int) {
    && 0 <= j < |events| && 0 <= i < |events| && events[j].Claimed?
    && events[i].at <= WholeSecond(events[j].at) + CLAIM_STUCK_MS
    && ((events[i].Beat? && events[i].at > WholeSecond(events[j].at)) || (i > j && Touches(events[i], events[j].id)))
  }

  /** `now` lies between the first `n` events and the others. */
  ghost predicate Between(events: seq<Event>, n: nat, now: nat) {
    n <= |events| && forall i :: 0 <= i < |events| ==> (if i < n then events[i].at <= now else events[i].at >= now)
  }

  /** The latest heartbeat, if there was one, is at most half an hour old. */
  ghost predicate BeatsRecent(events: seq<Event>, n: nat, now: nat)
    requires n <= |events|
  {
    (exists i :: 0 <= i < n && events[i].Beat?) ==>
      exists i :: 0 <= i < n && events[i].Beat? && now - events[i].at <= ABSOLUTE_CEILING_MS
  }

  /** A lively container is never killed: no sweep at any moment of its run kills it while its latest heartbeat is at
      most half an hour old, if it answers its claims. */
  lemma LivelyContainerIsNeverKilled(left: int, events: seq<Event>, n: nat, now: nat)
    requires InTime(events) && ClaimsAnswered(events) && Between(events, n, now) && BeatsRecent(events, n, now)
    ensures !Kills(After(Spawned(map[], left), events[..n]), now)
  {
    var past := events[..n];
    assert forall i :: 0 <= i < n ==> past[i] == events[i];
    if i :| 0 <= i < n && events[i].Beat? {
      var k :| 0 <= k < n && events[k].Beat? && now - events[k].at <= ABSOLUTE_CEILING_MS;
      assert past[k].Beat? && now - past[k].at <= Max(ABSOLUTE_CEILING_MS, LastDeclared(left, past));
    }
    assert !WentQuiet(left, past, now);
    forall j ensures !WentSilent(left, past, j, now) {
      AnsweredIsNotSilent(left, events, n, now, j);
    }
    SweepKillsExactly(map[], left, past, now);
  }

  lemma AnsweredIsNotSilent(left: int, events: seq<Event>, n: nat, now: nat, j: int)
    requires ClaimsAnswered(events) && Between(events, n, now)
    ensures !WentSilent(left, events[..n], j, now)
  {
    var past := events[..n];
    if 0 <= j < n && events[j].Claimed? && now - WholeSecond(events[j].at) > CLAIM_STUCK_MS {
      var i :| Answers(events, j, i);
      assert i < n && past[i] == events[i] && past[j] == events[j];
      assert past[i].Beat? || !Open(past, j);
    }
  }

  /** A silent claim is always found: with no timeout above a minute in force, every sweep more than a minute after a
      claim that is still open and that no heartbeat follows kills. */
  lemma {:induction false} SilentClaimIsKilled(
      orphans: map<nat, nat>, left: int, events: seq<Event>, j: nat, now: nat)
    requires InTime(events) && Open(events, j) && LastDeclared(left, events) <= CLAIM_STUCK_MS
    requires NoBeatAfter(events, WholeSecond(events[j].at))
    requires now - events[j].at > CLAIM_STUCK_MS
    ensures Kills(After(Spawned(orphans, left), events), now)
  {
    assert WentSilent(left, events, j, now);
    SweepKillsExactly(orphans, left, events, now);
  }

  /** A container that has claimed nothing, and found no orphans, is only killed for going quiet. */
  lemma {:induction false} UnclaimedIsSpared(left: int, events: seq<Event>, now: nat)
    requires InTime(events) && forall i :: 0 <= i < |events| ==> !events[i].Claimed?
    ensures Kills(After(Spawned(map[], left), events), now) <==> WentQuiet(left, events, now)
  {
    SweepKillsExactly(map[], left, events, now);
  }

  /** A container that was started in this very sweep is killed in it exactly when an orphan claim is past the
      tolerance, which is still the earlier container's. */
  lemma FreshIsKilledExactlyForOrphans(orphans: map<nat, nat>, left: int, now: nat)
    ensures Kills(After(Spawned(orphans, left), []), now) <==>
            exists id :: id in orphans && now - orphans[id] > Max(CLAIM_STUCK_MS, left)
  {
    SweepKillsExactly(orphans, left, [], now);
    if id :| id in orphans && now - orphans[id] > Max(CLAIM_STUCK_MS, left) {
      assert OrphanSilent(orphans, left, [], id, now);
    }
  }

  predicate Declares(events: seq<Event>) {
    exists i :: 0 <= i < |events| && events[i].Declared?
  }

  lemma {:induction false} UndeclaredKeepsWhatWasLeft(left: int, events: seq<Event>)
    requires !Declares(events)
    ensures LastDeclared(left, events) == left
    decreases |events|
  {
    if events != [] {
      assert !events[|events| - 1].Declared?;
      assert !Declares(events[..|events| - 1]);
      UndeclaredKeepsWhatWasLeft(left, events[..|events| - 1]);
    }
  }

  /** A single claim that nothing follows is killed exactly when its second is past the tolerance in force. */
  lemma LoneClaimKilledExactly(left: int, id: nat, at: nat, now: nat)
    requires at > 0
    ensures Kills(After(Spawned(map[], left), [Claimed(id, at)]), now) <==>
            now - WholeSecond(at) > Max(CLAIM_STUCK_MS, left)
  {
    var events := [Claimed(id, at)];
    UndeclaredKeepsWhatWasLeft(left, events);
    SweepKillsExactly(map[], left, events, now);
    if now - WholeSecond(at) > Max(CLAIM_STUCK_MS, left) {
      assert WentSilent(left, events, 0, now);
    }
  }

  /** The sweep's verdicts on this run are those it would give had nothing been left behind. */
  ghost predicate JudgedAlike(orphans: map<nat, nat>, left: int, events: seq<Event>, now: nat) {
    Kills(After(Spawned(orphans, left), events), now) <==> Kills(After(Spawned(orphans, 0), events), now)
  }

  /** A timeout that an earlier container left behind makes no difference to a container that declares none, at any
      moment of any run, exactly when it is at most a minute. A longer one shields a silent successor. */
  lemma LeftoverTimeoutShields(left: int)
    ensures left <= CLAIM_STUCK_MS <==>
            forall orphans, events, now ::
              InTime(events) && !Declares(events) ==> JudgedAlike(orphans, left, events, now)
  {
    if left <= CLAIM_STUCK_MS {
      forall orphans, events, now | InTime(events) && !Declares(events)
        ensures JudgedAlike(orphans, left, events, now)
      {
        ShortLeftoverIsNone(orphans, left, events, now);
      }
    } else {
      var events := [Claimed(0, SECOND)];
      LoneClaimKilledExactly(left, 0, SECOND, SECOND + 60001);
      LoneClaimKilledExactly(0, 0, SECOND, SECOND + 60001);
      assert InTime(events) && !Declares(events) && !JudgedAlike(map[], left, events, SECOND + 60001);
    }
  }

  lemma ShortLeftoverIsNone(orphans: map<nat, nat>, left: int, events: seq<Event>, now: nat)
    requires InTime(events) && !Declares(events) && left <= CLAIM_STUCK_MS
    ensures JudgedAlike(orphans, left, events, now)
  {
    UndeclaredKeepsWhatWasLeft(left, events);
    UndeclaredKeepsWhatWasLeft(0, events);
    DeclaredIsLast(orphans, left, events);
    DeclaredIsLast(orphans, 0, events);
    OnlyDeclaredDiffers(orphans, left, events);
  }

  lemma {:induction false} OnlyDeclaredDiffers(orphans: map<nat, nat>, left: int, events: seq<Event>)
    ensures
      var (box, plain) := (After(Spawned(orphans, left), events), After(Spawned(orphans, 0), events));
      box.heartbeat == plain.heartbeat && box.claims == plain.claims
    decreases |events|
  {
    if events != [] {
      OnlyDeclaredDiffers(orphans, left, events[..|events| - 1]);
    }
  }

  /** A claim is stamped with the start of its second, so a heartbeat just before the claim can count as later. Of a
      claim that follows a heartbeat, past the tolerance and within the ceiling, a sweep finds the silence exactly when
      the heartbeat came before the claim's second. */
  lemma EarlierBeatHidesSilence(left: int, beat: nat, id: nat, claimed: nat, now: nat)
    requires 0 < beat <= claimed && now - beat <= ABSOLUTE_CEILING_MS
    requires now - WholeSecond(claimed) > Max(CLAIM_STUCK_MS, left)
    ensures Kills(After(Spawned(map[], left), [Beat(beat), Claimed(id, claimed)]), now) <==>
            beat <= WholeSecond(claimed)
  {
    var events := [Beat(beat), Claimed(id, claimed)];
    UndeclaredKeepsWhatWasLeft(left, events);
    SweepKillsExactly(map[], left, events, now);
    assert events[0].Beat? && events[1].Claimed?;
    if beat <= WholeSecond(claimed) {
      assert WentSilent(left, events, 1, now);
    } else {
      assert !NoBeatAfter(events, WholeSecond(claimed));
    }
  }

  /** For the same reason a silent claim can be killed before a minute has passed: for some sweep, exactly when it was
      not made at the very start of its second. */
  lemma ClaimKilledEarlyExactly(left: int, id: nat, at: nat)
    requires at > 0 && left <= CLAIM_STUCK_MS
    ensures at % SECOND != 0 <==>
            exists now: nat :: KilledWithin(left, id, at, now)
  {
    if now: nat :| KilledWithin(left, id, at, now) {
      LoneClaimKilledExactly(left, id, at, now);
    }
    if at % SECOND != 0 {
      LoneClaimKilledExactly(left, id, at, at + 60000);
      assert KilledWithin(left, id, at, at + 60000);
    }
  }

  /** Killed while the claim is at most a minute old. */
  ghost predicate KilledWithin(left: int, id: nat, at: nat, now: nat) {
    now - at <= CLAIM_STUCK_MS && Kills(After(Spawned(map[], left), [Claimed(id, at)]), now)
  }

  // ---- ... and in every run ----

  /** There is a point in the run for every moment. */
  lemma {:induction false} PointInRun(events: seq<Event>, now: nat) returns (n: nat)
    requires InTime(events)
    ensures Between(events, n, now)
    ensures forall i :: 0 <= i < |events| && events[i].at <= now ==> i < n
    decreases |events|
  {
    if events == [] || events[|events| - 1].at <= now {
      n := |events|;
    } else {
      n := PointInRun(events[..|events| - 1], now);
    }
  }

  /** The timeout in force never exceeds a minute. */
  ghost predicate NoLongerTimeout(left: int, events: seq<Event>) {
    forall n :: 0 <= n <= |events| ==> LastDeclared(left, events[..n]) <= CLAIM_STUCK_MS
  }

  /** Every sweep more than a minute after the claim of index `j`, at any moment of the run, kills. */
  ghost predicate AlwaysFound(left: int, events: seq<Event>, j: nat)
    requires j < |events|
  {
    forall n: nat, now: nat :: Between(events, n, now) && now - events[j].at > CLAIM_STUCK_MS ==>
      Kills(After(Spawned(map[], left), events[..n]), now)
  }

  lemma OpenInPrefix(events: seq<Event>, n: nat, j: nat)
    requires Open(events, j) && j < n <= |events|
    ensures Open(events[..n], j)
  {
    assert forall k :: j < k < n ==> events[..n][k] == events[k];
  }

  /** A heartbeat within the claim's second hides the silence from the sweep one minute and a millisecond later. */
  lemma HiddenOnce(left: int, events: seq<Event>, j: nat, i: nat, n: nat)
    requires InTime(events) && j < |events| && i < |events| && events[i].Beat?
    requires WholeSecond(events[j].at) < events[i].at <= events[j].at
    requires Between(events, n, events[j].at + 60001) && i < n
    ensures !Kills(After(Spawned(map[], left), events[..n]), events[j].at + 60001)
  {
    var past, now := events[..n], events[j].at + 60001;
    assert past[i] == events[i];
    assert now - past[i].at <= Max(ABSOLUTE_CEILING_MS, LastDeclared(left, past));
    forall k ensures !WentSilent(left, past, k, now) {
      if Open(past, k) && NoBeatAfter(past, WholeSecond(past[k].at)) {
        assert WholeSecond(past[k].at) >= past[i].at;
        LaterSecond(past[i].at, events[j].at, WholeSecond(past[k].at));
      }
    }
    SweepKillsExactly(map[], left, past, now);
  }

  /** A whole second at or after a moment within a claim's second is past the claim. */
  lemma LaterSecond(moment: nat, claimed: nat, second: nat)
    requires WholeSecond(claimed) < moment <= second && second % SECOND == 0
    ensures second > claimed
  {
  }

  /** In every run, for every claim that stays open and that no heartbeat follows: as long as no timeout above a minute
      is in force, every sweep more than a minute later kills, exactly when no heartbeat before the claim fell within
      its second. */
  lemma SilenceIsFoundExactly(left: int, events: seq<Event>, j: nat)
    requires InTime(events) && Open(events, j) && NoLongerTimeout(left, events)
    requires NoBeatAfter(events, events[j].at)
    ensures AlwaysFound(left, events, j) <==> NoBeatAfter(events, WholeSecond(events[j].at))
  {
    if NoBeatAfter(events, WholeSecond(events[j].at)) {
      forall n: nat, now: nat | Between(events, n, now) && now - events[j].at > CLAIM_STUCK_MS
        ensures Kills(After(Spawned(map[], left), events[..n]), now)
      {
        assert j < n && events[..n][j] == events[j];
        OpenInPrefix(events, n, j);
        PrefixInTime(events, n);
        SilentClaimIsKilled(map[], left, events[..n], j, now);
      }
    } else {
      var i: nat :| i < |events| && events[i].Beat? && events[i].at > WholeSecond(events[j].at);
      var n := PointInRun(events, events[j].at + 60001);
      HiddenOnce(left, events, j, i, n);
    }
  }

  lemma PrefixInTime(events: seq<Event>, n: nat)
    requires InTime(events) && n <= |events|
    ensures InTime(events[..n])
  {
    assert forall i :: 0 <= i < n ==> events[..n][i] == events[i];
  }

  /** Event `i` answers the claim of index `j` within a minute of the claim itself: a later heartbeat, or the claim
      settled or taken again. */
  ghost predicate AnswersInTime(events: seq<Event>, j: int, i: int) {
    && 0 <= j < i < |events| && events[j].Claimed? && events[i].at <= events[j].at + CLAIM_STUCK_MS
    && ((events[i].Beat? && events[i].at > events[j].at) || Touches(events[i], events[j].id))
  }

  ghost predicate AnsweredInTime(events: seq<Event>) {
    forall j :: 0 <= j < |events| && events[j].Claimed? ==> exists i :: AnswersInTime(events, j, i)
  }

  /** How far into their seconds the claims are made. */
  ghost predicate ClaimsAt(events: seq<Event>, offsets: set<nat>) {
    forall j :: 0 <= j < |events| && events[j].Claimed? ==> events[j].at % SECOND in offsets
  }

  /** No sweep at any moment of the run kills, while heartbeats are recent. */
  ghost predicate NeverKilled(left: int, events: seq<Event>) {
    forall n: nat, now: nat :: Between(events, n, now) && BeatsRecent(events, n, now) ==>
      !Kills(After(Spawned(map[], left), events[..n]), now)
  }

  lemma WholeSecondsAreAnswered(events: seq<Event>)
    requires AnsweredInTime(events) && ClaimsAt(events, {0})
    ensures ClaimsAnswered(events)
  {
    forall j | 0 <= j < |events| && events[j].Claimed? ensures exists i :: Answers(events, j, i) {
      var i :| AnswersInTime(events, j, i);
      assert WholeSecond(events[j].at) == events[j].at;
      assert Answers(events, j, i);
    }
  }

  /** A claim into its second, answered a minute later to the millisecond, and swept at that moment. */
  lemma AnsweredTooLate(left: int, offset: nat)
    requires 0 < offset < SECOND && left <= CLAIM_STUCK_MS
    ensures
      var events := [Claimed(0, SECOND + offset), Beat(61000 + offset)];
      InTime(events) && AnsweredInTime(events) && ClaimsAt(events, {offset}) && !NeverKilled(left, events)
  {
    var events := [Claimed(0, SECOND + offset), Beat(61000 + offset)];
    assert AnswersInTime(events, 0, 1);
    assert events[..1] == [Claimed(0, SECOND + offset)];
    LoneClaimKilledExactly(left, 0, SECOND + offset, 61000 + offset);
    assert Between(events, 1, 61000 + offset) && BeatsRecent(events, 1, 61000 + offset);
    assert (SECOND + offset) % SECOND == offset;
  }

  /** A container that answers each claim within a minute of the claim itself, by a heartbeat or otherwise, is never
      killed while its heartbeats are recent: in all runs whose claims come at some offsets into their seconds, exactly
      when the only such offset is 0, as long as no timeout above a minute was left to it. */
  lemma AnsweredIsSparedExactly(left: int, offsets: set<nat>)
    requires left <= CLAIM_STUCK_MS && forall o :: o in offsets ==> o < SECOND
    ensures offsets <= {0} <==>
            forall events :: InTime(events) && AnsweredInTime(events) && ClaimsAt(events, offsets) ==>
              NeverKilled(left, events)
  {
    if offsets <= {0} {
      forall events | InTime(events) && AnsweredInTime(events) && ClaimsAt(events, offsets)
        ensures NeverKilled(left, events)
      {
        WholeSecondsAreAnswered(events);
        forall n: nat, now: nat | Between(events, n, now) && BeatsRecent(events, n, now)
          ensures !Kills(After(Spawned(map[], left), events[..n]), now)
        {
          LivelyContainerIsNeverKilled(left, events, n, now);
        }
      }
    } else {
      var offset :| offset in offsets && offset != 0;
      AnsweredTooLate(left, offset);
      assert ClaimsAt([Claimed(0, SECOND + offset), Beat(61000 + offset)], offsets);
    }
  }

  // ---- One sweep of a session ----

  datatype AckStatus = Processing | Finished | GivenUp

  /** A row of processing_ack. */
  datatype Ack = Ack(id: nat, status: AckStatus, at: Option<int>)

  predicate IsOpen(ack: Ack) {
    ack.status == Processing
  }

  predicate HasEnded(ack: Ack) {
    ack.status != Processing
  }

  function ProcessingClaims(acks: seq<Ack>): seq<StoredClaim> {
    if acks == [] then []
    else if acks[0].status == Processing then [StoredClaim(acks[0].id, acks[0].at)] + ProcessingClaims(acks[1..])
    else ProcessingClaims(acks[1..])
  }

  function WithoutProcessing(acks: seq<Ack>): seq<Ack> {
    if acks == [] then []
    else if acks[0].status == Processing then WithoutProcessing(acks[1..])
    else [acks[0]] + WithoutProcessing(acks[1..])
  }

  /** The ids whose message the container reported as completed or failed. */
  function FinishedIds(acks: seq<Ack>): set<nat> {
    if acks == [] then {}
    else (if acks[0].status != Processing then {acks[0].id} else {}) + FinishedIds(acks[1..])
  }

  /** The claims are the open rows, in the order of the table. */
  lemma {:induction false} ClaimsAreOpenAcks(acks: seq<Ack>) returns (open: seq<Ack>)
    ensures Filters(acks, IsOpen, open) && ProcessingClaims(acks) == AsClaims(open)
  {
    if acks == [] {
      FiltersNone(IsOpen);
      open := [];
    } else {
      var later := ClaimsAreOpenAcks(acks[1..]);
      open := if IsOpen(acks[0]) then [acks[0]] + later else later;
      assert Filters(acks, IsOpen, open) by {
        FiltersCons(acks[1..], IsOpen, later, acks[0]);
        assert acks == [acks[0]] + acks[1..];
      }
      AsClaimsCons(acks[0], later);
    }
  }

  /** The deletion keeps the others. */
  lemma {:induction false} EndedAcksAreKept(acks: seq<Ack>)
    ensures Filters(acks, HasEnded, WithoutProcessing(acks))
  {
    if acks == [] {
      FiltersNone(HasEnded);
    } else {
      EndedAcksAreKept(acks[1..]);
      FiltersCons(acks[1..], HasEnded, WithoutProcessing(acks[1..]), acks[0]);
      assert acks == [acks[0]] + acks[1..];
    }
  }

  lemma AsClaimsCons(ack: Ack, acks: seq<Ack>)
    ensures AsClaims([ack] + acks) == [StoredClaim(ack.id, ack.at)] + AsClaims(acks)
  {
  }

  function AsClaims(acks: seq<Ack>): seq<StoredClaim> {
    seq(|acks|, i requires 0 <= i < |acks| => StoredClaim(acks[i].id, acks[i].at))
  }

  lemma {:induction false} ClaimsMembers(acks: seq<Ack>)
    ensures forall id, at :: StoredClaim(id, at) in ProcessingClaims(acks) <==> Ack(id, Processing, at) in acks
    ensures forall ack :: ack in WithoutProcessing(acks) <==> ack in acks && ack.status != Processing
    ensures forall id :: id in FinishedIds(acks) <==> Reported(acks, id)
  {
    if acks != [] {
      ClaimsMembers(acks[1..]);
      forall id ensures Reported(acks, id) <==> Reported(acks[1..], id) || (acks[0].id == id && HasEnded(acks[0])) {
        ReportedCons(acks, id);
      }
    }
  }

  /** The container reported the message as completed or failed. */
  ghost predicate Reported(acks: seq<Ack>, id: nat) {
    exists i :: 0 <= i < |acks| && acks[i].id == id && acks[i].status != Processing
  }

  /** The container has an open claim on the message. */
  ghost predicate Claims(acks: seq<Ack>, id: nat) {
    exists i :: 0 <= i < |acks| && acks[i].id == id && acks[i].status == Processing
  }

  lemma ReportedCons(acks: seq<Ack>, id: nat)
    requires acks != []
    ensures Reported(acks, id) <==> Reported(acks[1..], id) || (acks[0].id == id && HasEnded(acks[0]))
  {
    var later := acks[1..];
    if i :| 0 <= i < |later| && later[i].id == id && later[i].status != Processing {
      assert acks[i + 1] == later[i];
    }
    if i :| 0 <= i < |acks| && acks[i].id == id && acks[i].status != Processing {
      assert i == 0 || later[i - 1] == acks[i];
    }
  }

  lemma {:induction false} NoneLeft(acks: seq<Ack>)
    ensures ProcessingClaims(WithoutProcessing(acks)) == []
    ensures forall id :: Reported(WithoutProcessing(acks), id) <==> Reported(acks, id)
  {
    var left := WithoutProcessing(acks);
    ClaimsMembers(acks);
    if acks != [] {
      NoneLeft(acks[1..]);
      var rest := WithoutProcessing(acks[1..]);
      assert ([acks[0]] + rest)[1..] == rest;
    }
    forall id ensures Reported(left, id) <==> Reported(acks, id) {
      if i :| 0 <= i < |acks| && acks[i].id == id && acks[i].status != Processing {
        assert acks[i] in left;
      }
    }
  }

  /** countDueMessages compares whole seconds, and a time that does not parse is never due. */
  predicate IsDue(m: Message, now: nat) {
    && m.status == Pending && m.trigger
    && (m.processAfter.Never? || (m.processAfter.At? && WholeSecond(m.processAfter.ms) <= WholeSecond(now)))
  }

  predicate AnyDue(rows: map<nat, Message>, now: nat) {
    exists id :: id in rows && IsDue(rows[id], now)
  }

  /** The claims with the time at which the reset comes to each of them. */
  function Timed(claims: seq<StoredClaim>, clock: nat -> nat): seq<Claim> {
    seq(|claims|, i requires 0 <= i < |claims| => Claim(claims[i].id, clock(i)))
  }

  /** What the sweep cannot choose: the times at which it counts due messages, decides and resets, with the awaited wake
      between the first and the others; whether outbound.db can be opened and written, and whether a wake that
      it awaits leaves a container running. */
  datatype Environment =
    Environment(counted: nat, decided: nat, reset: nat, opens: bool, writable: bool, wakeOk: bool)

  /** The clock does not run backwards while the reset comes to its claims. */
  ghost predicate Onward(clock: nat -> nat, now: nat) {
    forall i: nat :: clock(i) >= now
  }

  /** A reset comes to the row: the container has an open claim on it, it is pending, and it does not wait. */
  ghost predicate IsReset(acks: seq<Ack>, id: nat, m: Message, now: nat) {
    Claims(acks, id) && m.status == Pending && !(m.processAfter.At? && m.processAfter.ms > now)
  }

  /** What a reset makes of the rows of a session. */
  ghost predicate RowsReset(acks: seq<Ack>, before: map<nat, Message>, after: map<nat, Message>, now: nat) {
    && after.Keys == before.Keys
    && forall id :: id in before ==>
         if IsReset(acks, id, before[id], now) then Rescheduled(before[id], after[id], now) else after[id] == before[id]
  }

  /** What a sweep makes of them: reported messages are completed, and a reset comes to the others if there is one. */
  ghost predicate RowsSwept(
      acks: seq<Ack>, before: map<nat, Message>, after: map<nat, Message>, opens: bool, resets: bool, now: nat)
  {
    && after.Keys == before.Keys
    && forall id :: id in before ==>
         if opens && Reported(acks, id) then after[id] == before[id].(status := Completed)
         else if resets && IsReset(acks, id, before[id], now) then Rescheduled(before[id], after[id], now)
         else after[id] == before[id]
  }

  /** A message is waiting for a container: pending, to be acted on, and due now on the clock of whole seconds. A time
      that does not parse is never due. */
  ghost predicate Waiting(m: Message, now: nat) {
    && m.status == Pending && m.trigger && m.processAfter != Bad
    && (m.processAfter.At? ==> WholeSecond(m.processAfter.ms) <= WholeSecond(now))
  }

  lemma {:induction false} ResetIsOfClaims(acks: seq<Ack>, rows: map<nat, Message>, clock: nat -> nat, now: nat)
    requires Onward(clock, now)
    ensures RowsReset(acks, rows, Reset(rows, Timed(ProcessingClaims(acks), clock), now), now)
  {
    var claims := Timed(ProcessingClaims(acks), clock);
    forall id ensures Listed(claims, id) <==> Claims(acks, id) {
      ListedAreClaimed(acks, clock, id);
    }
    forall id ensures id in Reset(rows, claims, now) <==> id in rows {
      ResetSchedules(rows, claims, now, id);
    }
    forall id | id in rows
      ensures
        var after := Reset(rows, claims, now);
        if IsReset(acks, id, rows[id], now) then Rescheduled(rows[id], after[id], now) else after[id] == rows[id]
    {
      ResetSchedules(rows, claims, now, id);
    }
  }

  lemma {:induction false} ListedAreClaimed(acks: seq<Ack>, clock: nat -> nat, id: nat)
    ensures Listed(Timed(ProcessingClaims(acks), clock), id) <==> Claims(acks, id)
  {
    var stored := ProcessingClaims(acks);
    var claims := Timed(stored, clock);
    ClaimsMembers(acks);
    if i :| 0 <= i < |claims| && claims[i].id == id {
      assert StoredClaim(id, stored[i].at) in stored;
    }
    if i :| 0 <= i < |acks| && acks[i].id == id && acks[i].status == Processing {
      assert acks[i] == Ack(id, Processing, acks[i].at);
      assert StoredClaim(id, acks[i].at) in stored;
      var k :| 0 <= k < |stored| && stored[k] == StoredClaim(id, acks[i].at);
      assert claims[k].id == id;
    }
  }

  /** The two halves of a sweep's changes to the rows, each as the source makes it. */
  lemma {:induction false} SweepOfRows(
      acks: seq<Ack>, rows: map<nat, Message>, opens: bool, resets: bool, clock: nat -> nat, now: nat)
    requires Onward(clock, now)
    ensures
      var synced := if opens then Acknowledged(rows, FinishedIds(acks)) else rows;
      var after := if resets then Reset(synced, Timed(ProcessingClaims(acks), clock), now) else synced;
      RowsSwept(acks, rows, after, opens, resets, now)
  {
    ClaimsMembers(acks);
    var synced := if opens then Acknowledged(rows, FinishedIds(acks)) else rows;
    ResetIsOfClaims(acks, synced, clock, now);
  }

  /** The due count is positive exactly when a message that is not reported is waiting. */
  lemma {:induction false} DueExactly(acks: seq<Ack>, rows: map<nat, Message>, opens: bool, now: nat)
    ensures
      AnyDue(if opens then Acknowledged(rows, FinishedIds(acks)) else rows, now) <==>
      exists id :: id in rows && !(opens && Reported(acks, id)) && Waiting(rows[id], now)
  {
    ClaimsMembers(acks);
    var synced := if opens then Acknowledged(rows, FinishedIds(acks)) else rows;
    if id :| id in rows && !(opens && Reported(acks, id)) && Waiting(rows[id], now) {
      assert IsDue(synced[id], now);
    }
  }

  /** The open rows of the table are what the decision looks at. */
  ghost predicate AckSilent(now: nat, heartbeat: nat, state: Option<ContainerState>, acks: seq<Ack>) {
    exists i :: 0 <= i < |acks| && acks[i].status == Processing && Silent(now, heartbeat, state, acks[i].at)
  }

  ghost predicate ClaimSilent(now: nat, heartbeat: nat, state: Option<ContainerState>, claims: seq<StoredClaim>) {
    exists i :: 0 <= i < |claims| && Silent(now, heartbeat, state, claims[i].at)
  }

  lemma {:induction false} SilentExactly(now: nat, heartbeat: nat, state: Option<ContainerState>, acks: seq<Ack>)
    ensures ClaimSilent(now, heartbeat, state, ProcessingClaims(acks)) <==> AckSilent(now, heartbeat, state, acks)
  {
    ClaimsMembers(acks);
    var claims := ProcessingClaims(acks);
    if ClaimSilent(now, heartbeat, state, claims) {
      var i :| 0 <= i < |claims| && Silent(now, heartbeat, state, claims[i].at);
      assert StoredClaim(claims[i].id, claims[i].at) in claims;
      var k :| 0 <= k < |acks| && acks[k] == Ack(claims[i].id, Processing, claims[i].at);
      assert AckSilent(now, heartbeat, state, acks);
    }
    if AckSilent(now, heartbeat, state, acks) {
      var i :| 0 <= i < |acks| && acks[i].status == Processing && Silent(now, heartbeat, state, acks[i].at);
      assert Ack(acks[i].id, Processing, acks[i].at) in acks;
      var k :| 0 <= k < |claims| && claims[k] == StoredClaim(acks[i].id, acks[i].at);
      assert ClaimSilent(now, heartbeat, state, claims);
    }
  }

  class SweptSession {
    var rows: map<nat, Message>
    var acks: seq<Ack>
    var heartbeat: nat
    var state: Option<ContainerState>
    var running: bool

    constructor ()
      ensures rows == map[] && acks == [] && heartbeat == 0 && state == None && !running
    {
      rows, acks, heartbeat, state, running := map[], [], 0, None, false;
    }

    /** The retry of each open claim in turn, and their deletion. */
    method ResetStuckProcessingRows(now: nat, clock: nat -> nat, writable: bool)
      modifies this`rows, this`acks
      ensures rows == Reset(old(rows), Timed(ProcessingClaims(old(acks)), clock), now)
      ensures Onward(clock, now) ==> RowsReset(old(acks), old(rows), rows, now)
      ensures acks == if writable then WithoutProcessing(old(acks)) else old(acks)
      ensures if writable then Filters(old(acks), HasEnded, acks) else acks == old(acks)
    {
      EndedAcksAreKept(acks);
      if Onward(clock, now) {
        ResetIsOfClaims(acks, rows, clock, now);
      }
      var claims := ProcessingClaims(acks);
      ghost var timed := Timed(claims, clock);
      for i := 0 to |claims|
        invariant rows == Reset(old(rows), timed[..i], now)
        invariant acks == old(acks)
      {
        assert timed[..i + 1][..i] == timed[..i];
        var id := claims[i].id;
        if id in rows && rows[id].status == Pending {
          var msg := rows[id];
          if msg.processAfter.At? && msg.processAfter.ms > now {
            continue;
          }
          if msg.tries >= MAX_TRIES {
            rows := rows[id := msg.(status := Failed)];
          } else {
            rows := rows[id := Retried(msg, clock(i))];
          }
        }
      }
      assert timed[..|claims|] == timed;
      if writable {
        acks := WithoutProcessing(acks);
      }
    }

    /** Steps 1 to 4 of sweepSession: reported messages are completed; a waiting message wakes a container if none runs;
        a container that runs then is judged; and a reset comes to the claims if it is killed or none runs. */
    method SweepSession(env: Environment, clock: nat -> nat) returns (woke: bool, d: Decision)
      modifies this
      ensures state == old(state)
      ensures woke <==>
              && !old(running)
              && exists id :: id in old(rows) && !(env.opens && Reported(old(acks), id)) &&
                   Waiting(old(rows)[id], env.counted)
      ensures running <==> old(running) || (woke && env.wakeOk)
      ensures heartbeat == if woke && env.wakeOk then 0 else old(heartbeat)
      ensures d.KillCeiling? <==> running && env.opens && PastCeiling(env.decided, heartbeat, state)
      ensures d.KillClaim? <==>
              && running && env.opens && !PastCeiling(env.decided, heartbeat, state)
              && AckSilent(env.decided, heartbeat, state, old(acks))
      ensures
        var resets := env.opens && (!running || d != Fine);
        var synced := if env.opens then Acknowledged(old(rows), FinishedIds(old(acks))) else old(rows);
        && rows == (if resets then Reset(synced, Timed(ProcessingClaims(old(acks)), clock), env.reset) else synced)
        && (Onward(clock, env.reset) ==>
              RowsSwept(old(acks), old(rows), rows, env.opens, resets, env.reset))
        && (if resets && env.writable then Filters(old(acks), HasEnded, acks) else acks == old(acks))
    {
      woke, d := false, Fine;
      DueExactly(acks, rows, env.opens, env.counted);
      EndedAcksAreKept(acks);
      if env.opens {
        rows := Acknowledged(rows, FinishedIds(acks));
      }
      if AnyDue(rows, env.counted) && !running {
        woke := true;
        if env.wakeOk {
          heartbeat, running := 0, true;
        }
      }
      if running && env.opens {
        SilentExactly(env.decided, heartbeat, state, acks);
        d := DecideStuckAction(env.decided, heartbeat, state, ProcessingClaims(acks));
        if d != Fine {
          ResetStuckProcessingRows(env.reset, clock, env.writable);
        }
      }
      if !running && env.opens {
        ResetStuckProcessingRows(env.reset, clock, env.writable);
      }
      if Onward(clock, env.reset) {
        SweepOfRows(old(acks), old(rows), env.opens, env.opens && (!running || d != Fine), clock, env.reset);
      }
    }
  }

  /** A reset takes its rows out of the due count until their own backoff is over, so no sweep until then wakes for
      them. This is why the wake comes before the reset. */
  lemma {:induction false} ResetDelaysTheWake(rows: map<nat, Message>, claims: seq<Claim>, now: nat, i: nat, later: nat)
    requires Forward(claims, now) && i < |claims| && Stuck(rows, claims[i].id, now)
    requires now <= later < WholeSecond(now) + BackoffSeconds(rows[claims[i].id].tries) * SECOND
    ensures claims[i].id in Reset(rows, claims, now)
    ensures !IsDue(Reset(rows, claims, now)[claims[i].id], later)
  {
    ResetSchedules(rows, claims, now, claims[i].id);
  }

  /** After a reset that could delete the claims, a container started later finds no orphans; it is then killed only
      for claims of its own, or for going quiet. */
  lemma {:induction false} ResetSparesTheNextContainer(
      acks: seq<Ack>, open: map<nat, nat>, left: int, events: seq<Event>, now: nat)
    requires Lists(ProcessingClaims(WithoutProcessing(acks)), open) && InTime(events)
    ensures Kills(After(Spawned(open, left), events), now) <==>
            WentQuiet(left, events, now) || exists j :: WentSilent(left, events, j, now)
  {
    NoneLeft(acks);
    SweepKillsExactly(open, left, events, now);
  }

  /** What `SweepSession` decides on a container that it has just woken is the verdict on a new container that finds the
      claims and the declared timeout of the earlier one. */
  lemma {:induction false} WokenIsJudgedAsFresh(
      acks: seq<Ack>, open: map<nat, nat>, state: Option<ContainerState>, now: nat)
    requires Lists(ProcessingClaims(acks), open)
    ensures PastCeiling(now, 0, state) || AckSilent(now, 0, state, acks) <==>
            Kills(After(Spawned(open, DeclaredMs(state)), []), now)
    ensures Kills(After(Spawned(open, DeclaredMs(state)), []), now) <==>
            exists id :: id in open && Exceeds(now - open[id], 60000, state)
  {
    SilentExactly(now, 0, state, acks);
    InNumbers(now, 0, state);
    DecisionOfListing(After(Spawned(open, DeclaredMs(state)), []), now, ProcessingClaims(acks));
    FreshIsKilledExactlyForOrphans(open, DeclaredMs(state), now);
  }
}
