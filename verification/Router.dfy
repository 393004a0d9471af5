/**
 * Session find-or-create of src/session-manager.ts and the fan-out of src/router.ts. A step of the router is what it
 * does for one wired agent up to the next await; the steps of different messages interleave in any order.
 */
module Router {
  import opened Prelude

  /** A thread id. Ids are only compared, but the empty string counts as no thread where a lookup tests for one. */
  datatype Thread = NoThread | EmptyThread | Named(name: nat)

  /** A messaging group id; the empty string counts as none where one is tested for, and is stored as it is. */
  datatype Group = NoGroup | EmptyGroup | GroupId(id: nat)

  datatype Mode = Shared | PerThread | AgentShared

  /** A row of the sessions table. */
  datatype Session = Session(agent: nat, group: Group, thread: Thread, active: bool)

  datatype Request = Request(agent: nat, group: Group, thread: Thread, mode: Mode)

  // ---- resolveSession ----

  /** The thread that findSessionForAgent looks for: `if (threadId)` takes the empty string for none. */
  function Sought(thread: Thread): Thread {
    if thread == EmptyThread then NoThread else thread
  }

  predicate Has(sessions: seq<Session>, agent: nat, group: Group, thread: Thread) {
    exists i :: 0 <= i < |sessions| && sessions[i] == Session(agent, group, thread, true)
  }

  predicate HasAgent(sessions: seq<Session>, agent: nat) {
    exists i :: 0 <= i < |sessions| && sessions[i].agent == agent && sessions[i].active
  }

  /** `else if (messagingGroupId)`: without a messaging group, only the agent-shared mode looks. */
  predicate Found(sessions: seq<Session>, r: Request) {
    if r.mode == AgentShared then HasAgent(sessions, r.agent)
    else r.group.GroupId? && Has(sessions, r.agent, r.group, if r.mode == Shared then NoThread else Sought(r.thread))
  }

  function StoredThread(r: Request): Thread {
    if r.mode == PerThread then r.thread else NoThread
  }

  function Resolve(sessions: seq<Session>, r: Request): seq<Session> {
    if Found(sessions, r) then sessions
    else sessions + [Session(r.agent, r.group, StoredThread(r), true)]
  }

  datatype Step = Ask(request: Request) | Close(index: nat)

  function Apply(sessions: seq<Session>, step: Step): seq<Session> {
    match step
    case Ask(r) => Resolve(sessions, r)
    case Close(i) => if i < |sessions| then sessions[i := sessions[i].(active := false)] else sessions
  }

  function Run(steps: seq<Step>): seq<Session>
    decreases |steps|
  {
    if steps == [] then [] else Apply(Run(steps[..|steps| - 1]), steps[|steps| - 1])
  }

  /** No two active sessions for one agent, group and thread. */
  ghost predicate Unique(sessions: seq<Session>) {
    forall i, j :: 0 <= i < j < |sessions| && sessions[i].active && sessions[j].active ==> sessions[i] != sessions[j]
  }

  predicate Asks(steps: seq<Step>, requests: set<Request>) {
    forall i :: 0 <= i < |steps| && steps[i].Ask? ==> steps[i].request in requests
  }

  /** The requests that do not find the session they made: nothing is looked for without a group, and no lookup seeks
      the empty thread id. */
  predicate Unfindable(r: Request) {
    r.mode != AgentShared && (!r.group.GroupId? || (r.mode == PerThread && r.thread == EmptyThread))
  }

  lemma ResolveKeepsUnique(sessions: seq<Session>, r: Request)
    requires Unique(sessions) && !Unfindable(r)
    ensures Unique(Resolve(sessions, r))
  {
    if !Found(sessions, r) {
      var created := Session(r.agent, r.group, StoredThread(r), true);
      forall i | 0 <= i < |sessions| ensures sessions[i] != created {
        assert sessions[i].agent == r.agent && sessions[i].active ==> HasAgent(sessions, r.agent);
        assert sessions[i] == created ==> Has(sessions, r.agent, r.group, StoredThread(r));
      }
    }
  }

  lemma {:induction false} FindableIsUnique(steps: seq<Step>)
    requires forall i :: 0 <= i < |steps| && steps[i].Ask? ==> !Unfindable(steps[i].request)
    ensures Unique(Run(steps))
    decreases |steps|
  {
    if steps != [] {
      FindableIsUnique(steps[..|steps| - 1]);
      var last := steps[|steps| - 1];
      if last.Ask? {
        ResolveKeepsUnique(Run(steps[..|steps| - 1]), last.request);
      }
    }
  }

  /** Such a request made twice makes two sessions. */
  lemma UnfindableTwice(r: Request)
    requires Unfindable(r)
    ensures !Unique(Run([Ask(r), Ask(r)]))
  {
    var created := Session(r.agent, r.group, StoredThread(r), true);
    assert [Ask(r), Ask(r)][..1] == [Ask(r)] && [Ask(r)][..0] == [];
    assert Run([Ask(r)]) == Resolve([], r) == [created];
    assert Run([Ask(r), Ask(r)]) == Resolve([created], r) == [created, created];
    assert [created, created][0] == [created, created][1];
  }

  /** One session for each agent, group and thread, in every run of requests and closings, exactly when no request is
      unfindable. */
  lemma SessionsAreUniqueExactly(requests: set<Request>)
    ensures (forall steps :: Asks(steps, requests) ==> Unique(Run(steps))) <==>
            forall r :: r in requests ==> !Unfindable(r)
  {
    if r :| r in requests && Unfindable(r) {
      UnfindableTwice(r);
      assert Asks([Ask(r), Ask(r)], requests);
    } else {
      forall steps | Asks(steps, requests) ensures Unique(Run(steps)) {
        FindableIsUnique(steps);
      }
    }
  }

  /** What a request asked for is there afterwards, and asking again changes nothing, unless it is unfindable. */
  lemma AskingTwiceIsOnce(sessions: seq<Session>, r: Request)
    ensures Resolve(Resolve(sessions, r), r) == Resolve(sessions, r) <==> Found(sessions, r) || !Unfindable(r)
  {
    if !Found(sessions, r) {
      var created := Session(r.agent, r.group, StoredThread(r), true);
      var after := Resolve(sessions, r);
      assert after[|sessions|] == created;
      HasAfterAppend(sessions, created, r.agent, r.group, Sought(StoredThread(r)));
    }
  }

  /** A session that was closed is not found again: the same request opens another one, and leaves it closed. */
  lemma ClosedIsReplaced(sessions: seq<Session>, r: Request)
    requires !Found(sessions, r)
    ensures
      var closed := Apply(Resolve(sessions, r), Close(|sessions|));
      && closed == sessions + [Session(r.agent, r.group, StoredThread(r), false)]
      && Resolve(closed, r) == closed + [Session(r.agent, r.group, StoredThread(r), true)]
  {
    var created := Session(r.agent, r.group, StoredThread(r), true);
    var dead := created.(active := false);
    assert (sessions + [created])[|sessions| := dead] == sessions + [dead];
    HasAfterAppend(sessions, dead, r.agent, r.group, if r.mode == Shared then NoThread else Sought(r.thread));
    if HasAgent(sessions + [dead], r.agent) {
      var i :| 0 <= i < |sessions + [dead]| && (sessions + [dead])[i].agent == r.agent && (sessions + [dead])[i].active;
      assert sessions[i] == (sessions + [dead])[i];
    }
  }

  // ---- The fan-out ----

  datatype Engage = Pattern | Mention | MentionSticky

  datatype Policy = Drop | Accumulate

  datatype Wiring = Wiring(agent: nat, engage: Engage, mode: Mode, policy: Policy)

  datatype Adapter = Unregistered | Plain | Threaded(canSubscribe: bool)

  /** A message on a group, with the platform's mention flag. */
  datatype Event = Event(group: nat, isGroup: bool, thread: Thread, mention: bool, adapter: Adapter)

  /** One turn of the fan-out loop, with what lies outside the model: whether the agent group exists, whether the
      pattern matches, what the two gates answer (a gate that is not registered allows), and whether the command gate
      lets the message through. */
  datatype Visit = Visit(
    wiring: Wiring, event: Event, present: bool, matches: bool, access: bool, scope: bool, passes: bool)

  /** Adapters without threads collapse them to the channel. */
  function EventThread(e: Event): Thread {
    if e.adapter == Plain then NoThread else e.thread
  }

  /** evaluateEngage. A sticky wiring follows up where a session is. */
  predicate Engages(sessions: seq<Session>, v: Visit) {
    match v.wiring.engage
    case Pattern => v.matches
    case Mention => v.event.mention
    case MentionSticky =>
      v.event.mention ||
      (v.event.isGroup && Has(sessions, v.wiring.agent, GroupId(v.event.group), Sought(EventThread(v.event))))
  }

  function EffectiveMode(v: Visit): Mode {
    if v.event.adapter.Threaded? && v.wiring.mode != AgentShared && v.event.isGroup then PerThread else v.wiring.mode
  }

  function RequestOf(v: Visit): Request {
    Request(v.wiring.agent, GroupId(v.event.group), EventThread(v.event), EffectiveMode(v))
  }

  datatype Verdict = Absent | Engaged | Accumulated | Ignored

  function Decide(sessions: seq<Session>, v: Visit): Verdict {
    if !v.present then Absent
    else if Engages(sessions, v) then (if v.access && v.scope then Engaged else Ignored)
    else if v.wiring.policy == Accumulate then Accumulated
    else Ignored
  }

  function VisitStep(sessions: seq<Session>, v: Visit): seq<Session> {
    if Decide(sessions, v) == Engaged || Decide(sessions, v) == Accumulated then Resolve(sessions, RequestOf(v))
    else sessions
  }

  function RunVisits(sessions: seq<Session>, visits: seq<Visit>): seq<Session>
    decreases |visits|
  {
    if visits == [] then sessions
    else VisitStep(RunVisits(sessions, visits[..|visits| - 1]), visits[|visits| - 1])
  }

  // ---- Sticky subscriptions ----

  /** The session of the message is stored under the message's own thread: by a registered adapter, or by a wiring that
      has a session per thread anyway. */
  predicate KeepsThread(v: Visit) {
    v.wiring.mode != AgentShared && (v.event.adapter != Unregistered || v.wiring.mode == PerThread)
  }

  /** A wiring that only mentions can open: by mention, sticky or not, dropping what it ignores, in a group chat, with
      sessions that keep the thread. */
  predicate MentionDriven(v: Visit) {
    v.wiring.engage != Pattern && v.wiring.policy == Drop && v.event.isGroup && KeepsThread(v)
  }

  predicate Concerns(v: Visit, agent: nat, group: nat) {
    v.wiring.agent == agent && v.event.group == group
  }

  /** A mention on that thread that passed both gates. */
  predicate Activates(v: Visit, agent: nat, group: nat, thread: Thread) {
    && Concerns(v, agent, group) && EventThread(v.event) == thread
    && v.present && v.event.mention && v.access && v.scope
  }

  ghost predicate Activated(visits: seq<Visit>, agent: nat, group: nat, thread: Thread) {
    exists i :: 0 <= i < |visits| && Activates(visits[i], agent, group, thread)
  }

  lemma HasAfterAppend(
      sessions: seq<Session>, s: Session, agent: nat, group: Group, thread: Thread)
    ensures Has(sessions + [s], agent, group, thread) <==>
            Has(sessions, agent, group, thread) || s == Session(agent, group, thread, true)
  {
    var after := sessions + [s];
    assert after[|sessions|] == s;
    if i :| 0 <= i < |sessions| && sessions[i] == Session(agent, group, thread, true) {
      assert after[i] == sessions[i];
    }
  }

  /** A session of the group and thread appears exactly when a mention there passes the gates. */
  lemma VisitSubscribes(sessions: seq<Session>, v: Visit, agent: nat, group: nat, thread: Thread)
    requires Concerns(v, agent, group) ==> MentionDriven(v)
    requires thread != EmptyThread
    ensures Has(VisitStep(sessions, v), agent, GroupId(group), thread) <==>
            Has(sessions, agent, GroupId(group), thread) || Activates(v, agent, group, thread)
  {
    var r := RequestOf(v);
    HasAfterAppend(sessions, Session(r.agent, r.group, StoredThread(r), true), agent, GroupId(group), thread);
  }

  lemma {:induction false} SessionsAreSubscriptions(visits: seq<Visit>, agent: nat, group: nat, thread: Thread)
    requires forall i :: 0 <= i < |visits| && Concerns(visits[i], agent, group) ==> MentionDriven(visits[i])
    requires thread != EmptyThread
    ensures Has(RunVisits([], visits), agent, GroupId(group), thread) <==> Activated(visits, agent, group, thread)
    decreases |visits|
  {
    if visits != [] {
      var init, last := visits[..|visits| - 1], |visits| - 1;
      SessionsAreSubscriptions(init, agent, group, thread);
      VisitSubscribes(RunVisits([], init), visits[last], agent, group, thread);
      if i :| 0 <= i < |init| && Activates(init[i], agent, group, thread) {
        assert Activates(visits[i], agent, group, thread);
      }
      if i :| 0 <= i < |visits| && Activates(visits[i], agent, group, thread) {
        assert i == last || Activates(init[i], agent, group, thread);
      }
    }
  }

  /** Sticky exactness: whatever messages of whatever agents came before, in any interleaving, such a wiring engages on
      an unmentioned message exactly when it is sticky and an earlier mention on its thread passed both gates. A message
      on an empty thread id follows the mentions that had no thread. */
  lemma {:induction false} StickyFollowsMentionsExactly(visits: seq<Visit>, v: Visit)
    requires MentionDriven(v) && !v.event.mention
    requires forall i :: 0 <= i < |visits| && Concerns(visits[i], v.wiring.agent, v.event.group) ==>
               MentionDriven(visits[i])
    ensures Engages(RunVisits([], visits), v) <==>
            && v.wiring.engage == MentionSticky
            && Activated(visits, v.wiring.agent, v.event.group, Sought(EventThread(v.event)))
  {
    SessionsAreSubscriptions(visits, v.wiring.agent, v.event.group, Sought(EventThread(v.event)));
  }

  // ---- Subscriptions of every wiring ----

  /** The agent takes the message: it engages and both gates allow, or it does not engage and accumulates. A message
      that engages and is refused is not taken. */
  predicate Takes(sessions: seq<Session>, v: Visit) {
    v.present && if Engages(sessions, v) then v.access && v.scope else v.wiring.policy == Accumulate
  }

  /** A message taken for that thread makes sure of its session. Two exceptions: an agent-shared wiring makes none when
      the agent has one anywhere, and an empty thread id is content with the session that has no thread. */
  predicate Stores(sessions: seq<Session>, v: Visit, agent: nat, group: nat, thread: Thread) {
    && Takes(sessions, v) && Concerns(v, agent, group) && StoredThread(RequestOf(v)) == thread
    && (v.wiring.mode == AgentShared ==> !HasAgent(sessions, agent))
    && (thread == EmptyThread ==> !Has(sessions, agent, GroupId(group), NoThread))
  }

  lemma VisitStores(sessions: seq<Session>, v: Visit, agent: nat, group: nat, thread: Thread)
    ensures Has(VisitStep(sessions, v), agent, GroupId(group), thread) <==>
            Has(sessions, agent, GroupId(group), thread) || Stores(sessions, v, agent, group, thread)
  {
    var r := RequestOf(v);
    HasAfterAppend(sessions, Session(r.agent, r.group, StoredThread(r), true), agent, GroupId(group), thread);
  }

  ghost predicate Stored(sessions: seq<Session>, visits: seq<Visit>, agent: nat, group: nat, thread: Thread) {
    exists i :: 0 <= i < |visits| && Stores(RunVisits(sessions, visits[..i]), visits[i], agent, group, thread)
  }

  lemma {:induction false} StoredOneMore(
      sessions: seq<Session>, visits: seq<Visit>, agent: nat, group: nat, thread: Thread)
    requires visits != []
    ensures
      var (init, last) := (visits[..|visits| - 1], visits[|visits| - 1]);
      Stored(sessions, visits, agent, group, thread) <==>
      Stored(sessions, init, agent, group, thread) || Stores(RunVisits(sessions, init), last, agent, group, thread)
  {
    var init, last := visits[..|visits| - 1], |visits| - 1;
    assert forall i :: 0 <= i < last ==> init[..i] == visits[..i];
    if i :| 0 <= i < |init| && Stores(RunVisits(sessions, init[..i]), init[i], agent, group, thread) {
      assert Stores(RunVisits(sessions, visits[..i]), visits[i], agent, group, thread);
    }
    if i :| 0 <= i < |visits| && Stores(RunVisits(sessions, visits[..i]), visits[i], agent, group, thread) {
      assert i == last || Stores(RunVisits(sessions, init[..i]), init[i], agent, group, thread);
    }
  }

  /** For every wiring, every history and every thread: a session is there exactly when it was before, or a visit stored
      the thread. */
  lemma {:induction false} SubscriptionsExactly(
      sessions: seq<Session>, visits: seq<Visit>, agent: nat, group: nat, thread: Thread)
    ensures Has(RunVisits(sessions, visits), agent, GroupId(group), thread) <==>
            Has(sessions, agent, GroupId(group), thread) || Stored(sessions, visits, agent, group, thread)
    decreases |visits|
  {
    if visits != [] {
      var init := visits[..|visits| - 1];
      SubscriptionsExactly(sessions, init, agent, group, thread);
      VisitStores(RunVisits(sessions, init), visits[|visits| - 1], agent, group, thread);
      StoredOneMore(sessions, visits, agent, group, thread);
    }
  }

  ghost predicate TakenOn(visits: seq<Visit>, i: nat, agent: nat, group: nat, thread: Thread)
    requires i < |visits|
  {
    Concerns(visits[i], agent, group) && EventThread(visits[i].event) == thread &&
    Takes(RunVisits([], visits[..i]), visits[i])
  }

  /** The drop policy is needed for sticky exactness. With any policy, in group chats where sessions keep the thread, a
      sticky wiring follows exactly when an earlier message on the thread was taken, whether engaged or only
      accumulated. */
  lemma {:induction false} AccumulatingSubscribes(visits: seq<Visit>, v: Visit)
    requires v.wiring.engage == MentionSticky && v.event.isGroup && !v.event.mention
    requires forall i :: 0 <= i < |visits| && Concerns(visits[i], v.wiring.agent, v.event.group) ==>
               visits[i].event.isGroup && KeepsThread(visits[i])
    ensures Engages(RunVisits([], visits), v) <==>
            exists i :: 0 <= i < |visits| &&
              TakenOn(visits, i, v.wiring.agent, v.event.group, Sought(EventThread(v.event)))
  {
    var (agent, group, thread) := (v.wiring.agent, v.event.group, Sought(EventThread(v.event)));
    SubscriptionsExactly([], visits, agent, group, thread);
    assert forall i :: 0 <= i < |visits| ==>
      (Stores(RunVisits([], visits[..i]), visits[i], agent, group, thread) <==>
       TakenOn(visits, i, agent, group, thread));
  }

  /** Without an adapter the sessions of a shared wiring have no thread, and the lookup on the
      thread misses them, whatever came before. */
  lemma {:induction false} UnregisteredNeverFollows(visits: seq<Visit>, v: Visit)
    requires v.wiring.engage == MentionSticky && !v.event.mention
    requires v.event.adapter == Unregistered && v.event.thread.Named?
    requires forall i :: 0 <= i < |visits| && Concerns(visits[i], v.wiring.agent, v.event.group) ==>
               visits[i].wiring.mode == Shared && visits[i].event.adapter == Unregistered
    ensures !Engages(RunVisits([], visits), v)
  {
    SubscriptionsExactly([], visits, v.wiring.agent, v.event.group, v.event.thread);
  }

  /** Between sessions that keep the thread and those that do not lies exactly whether a named thread is followed: after
      a mention on it that passed the gates, a sticky wiring that always had this mode and adapter follows, unless it is
      agent-shared, or shared without a registered adapter. */
  lemma {:induction false} NamedThreadIsFollowedExactly(visits: seq<Visit>, v: Visit)
    requires v.wiring.engage == MentionSticky && v.event.isGroup && !v.event.mention && EventThread(v.event).Named?
    requires forall i :: 0 <= i < |visits| && Concerns(visits[i], v.wiring.agent, v.event.group) ==>
               && visits[i].wiring == v.wiring && visits[i].event.isGroup && visits[i].event.adapter == v.event.adapter
    requires Activated(visits, v.wiring.agent, v.event.group, EventThread(v.event))
    ensures Engages(RunVisits([], visits), v) <==> KeepsThread(v)
    ensures KeepsThread(v) <==>
            v.wiring.mode != AgentShared && !(v.wiring.mode == Shared && v.event.adapter == Unregistered)
  {
    var (agent, group, thread) := (v.wiring.agent, v.event.group, EventThread(v.event));
    SubscriptionsExactly([], visits, agent, group, thread);
    if KeepsThread(v) {
      var i :| 0 <= i < |visits| && Activates(visits[i], agent, group, thread);
      assert Stores(RunVisits([], visits[..i]), visits[i], agent, group, thread);
    }
  }

  // ---- New sessions ----

  /** Visit `i` was taken, and that session is the one it asks for. */
  ghost predicate Opens(sessions: seq<Session>, visits: seq<Visit>, i: nat, session: Session) {
    && i < |visits| && Takes(RunVisits(sessions, visits[..i]), visits[i])
    && session ==
       Session(visits[i].wiring.agent, GroupId(visits[i].event.group), StoredThread(RequestOf(visits[i])), true)
  }

  ghost predicate WasOpened(sessions: seq<Session>, visits: seq<Visit>, session: Session) {
    exists i: nat :: Opens(sessions, visits, i, session)
  }

  lemma {:induction false} NewSessionsWereOpened(sessions: seq<Session>, visits: seq<Visit>, k: nat)
    requires |sessions| <= k < |RunVisits(sessions, visits)|
    ensures WasOpened(sessions, visits, RunVisits(sessions, visits)[k])
    decreases |visits|
  {
    var init, last := visits[..|visits| - 1], |visits| - 1;
    if k < |RunVisits(sessions, init)| {
      NewSessionsWereOpened(sessions, init, k);
      var i: nat :| Opens(sessions, init, i, RunVisits(sessions, init)[k]);
      assert init[..i] == visits[..i];
      assert Opens(sessions, visits, i, RunVisits(sessions, visits)[k]);
    } else {
      assert Opens(sessions, visits, last, RunVisits(sessions, visits)[k]);
    }
  }

  lemma {:induction false} OldSessionsStay(sessions: seq<Session>, visits: seq<Visit>)
    ensures sessions <= RunVisits(sessions, visits)
    decreases |visits|
  {
    if visits != [] {
      OldSessionsStay(sessions, visits[..|visits| - 1]);
    }
  }

  /** The old sessions are there as they were, and each new one is that of a visit that was taken. */
  ghost predicate OnlyOpened(before: seq<Session>, visits: seq<Visit>, after: seq<Session>) {
    before <= after && forall k :: |before| <= k < |after| ==> WasOpened(before, visits, after[k])
  }

  lemma {:induction false} OnlyNewSessions(sessions: seq<Session>, visits: seq<Visit>)
    ensures OnlyOpened(sessions, visits, RunVisits(sessions, visits))
  {
    OldSessionsStay(sessions, visits);
    forall k | |sessions| <= k < |RunVisits(sessions, visits)|
      ensures WasOpened(sessions, visits, RunVisits(sessions, visits)[k])
    {
      NewSessionsWereOpened(sessions, visits, k);
    }
  }

  // ---- The source's loops ----

  /** The agent is called upon and both gates allow. */
  ghost predicate Wakes(sessions: seq<Session>, v: Visit) {
    v.present && Engages(sessions, v) && v.access && v.scope
  }

  /** The agent is not called upon, and keeps the message as context. */
  ghost predicate Stashes(sessions: seq<Session>, v: Visit) {
    v.present && !Engages(sessions, v) && v.wiring.policy == Accumulate
  }

  ghost predicate WakesAt(sessions: seq<Session>, visits: seq<Visit>, i: nat) {
    i < |visits| && Wakes(RunVisits(sessions, visits[..i]), visits[i])
  }

  ghost predicate StashesAt(sessions: seq<Session>, visits: seq<Visit>, i: nat) {
    i < |visits| && Stashes(RunVisits(sessions, visits[..i]), visits[i])
  }

  /** Those of the first `n` visits that wake their agent. */
  ghost function Woken(sessions: seq<Session>, visits: seq<Visit>, n: nat): set<nat> {
    set i: nat | i < n && WakesAt(sessions, visits, i)
  }

  /** Those that are only stored. */
  ghost function Stashed(sessions: seq<Session>, visits: seq<Visit>, n: nat): set<nat> {
    set i: nat | i < n && StashesAt(sessions, visits, i)
  }

  /** The visits that make the router ask a threaded platform for follow-ups. */
  ghost predicate Subscribes(sessions: seq<Session>, visits: seq<Visit>, i: nat) {
    && WakesAt(sessions, visits, i) && visits[i].wiring.engage == MentionSticky
    && visits[i].event.adapter == Threaded(true) && visits[i].event.thread != NoThread && visits[i].event.isGroup
  }

  ghost predicate AnySubscribes(sessions: seq<Session>, visits: seq<Visit>, n: nat) {
    exists i: nat :: i < n && Subscribes(sessions, visits, i)
  }

  lemma OneIndexMore(before: set<nat>, after: set<nat>, n: nat, more: bool)
    requires n !in before && forall i :: i in after <==> i in before || (i == n && more)
    ensures |after| == |before| + if more then 1 else 0
  {
    assert after == before + if more then {n} else {};
  }

  lemma OneWokenMore(sessions: seq<Session>, visits: seq<Visit>, n: nat)
    ensures |Woken(sessions, visits, n + 1)| ==
            |Woken(sessions, visits, n)| + if WakesAt(sessions, visits, n) then 1 else 0
  {
    OneIndexMore(Woken(sessions, visits, n), Woken(sessions, visits, n + 1), n, WakesAt(sessions, visits, n));
  }

  lemma OneStashedMore(sessions: seq<Session>, visits: seq<Visit>, n: nat)
    ensures |Stashed(sessions, visits, n + 1)| ==
            |Stashed(sessions, visits, n)| + if StashesAt(sessions, visits, n) then 1 else 0
  {
    OneIndexMore(Stashed(sessions, visits, n), Stashed(sessions, visits, n + 1), n, StashesAt(sessions, visits, n));
  }

  lemma OneSubscribedMore(sessions: seq<Session>, visits: seq<Visit>, n: nat)
    ensures AnySubscribes(sessions, visits, n + 1) <==>
            AnySubscribes(sessions, visits, n) || Subscribes(sessions, visits, n)
  {
  }

  /** No agent takes the message: none that it calls upon and both gates allow, and none that stores it. */
  ghost predicate TakenByNone(sessions: seq<Session>, visits: seq<Visit>) {
    forall i :: 0 <= i < |visits| ==> !Takes(RunVisits(sessions, visits[..i]), visits[i])
  }

  lemma DroppedExactly(sessions: seq<Session>, visits: seq<Visit>)
    ensures |Woken(sessions, visits, |visits|)| + |Stashed(sessions, visits, |visits|)| == 0 <==>
            TakenByNone(sessions, visits)
  {
    var (woken, stashed) := (Woken(sessions, visits, |visits|), Stashed(sessions, visits, |visits|));
    if TakenByNone(sessions, visits) {
      assert woken == {} && stashed == {};
    } else {
      var i :| 0 <= i < |visits| && Takes(RunVisits(sessions, visits[..i]), visits[i]);
      assert i in woken || i in stashed;
    }
  }

  /** A message written to a session: by which turn of the loop, and whether it wakes the container. */
  datatype Entry = Entry(session: nat, visit: nat, wake: bool)

  /** The session is one for the message: the agent's, and, unless it has one for all chats, of the chat, and of the
      thread if there is one session for each. */
  ghost predicate Receives(session: Session, v: Visit) {
    && session.active && session.agent == v.wiring.agent
    && (v.wiring.mode != AgentShared ==>
          var event := v.event;
          && session.group == GroupId(event.group)
          && if event.adapter == Plain || (v.wiring.mode == Shared && !(event.adapter.Threaded? && event.isGroup))
             then session.thread == NoThread
             else session.thread == event.thread || (event.thread == EmptyThread && session.thread == NoThread))
  }

  /** The entries are those of the first `n` visits that take the message and pass the command gate, one for each and
      in their order, each in a session for the message. */
  ghost predicate WrittenFor(
      start: seq<Session>, sessions: seq<Session>, visits: seq<Visit>, n: nat, written: seq<Entry>)
    requires n <= |visits|
  {
    && (forall k :: 0 <= k < |written| ==>
          var e := written[k];
          && e.visit < n && e.session < |sessions| && Receives(sessions[e.session], visits[e.visit])
          && (e.wake <==> WakesAt(start, visits, e.visit)))
    && (forall j, k :: 0 <= j < k < |written| ==> written[j].visit < written[k].visit)
    && (forall i: nat :: i < n ==>
          (WritesAt(start, visits, i) <==> exists k :: 0 <= k < |written| && written[k].visit == i))
  }

  ghost predicate WritesAt(start: seq<Session>, visits: seq<Visit>, i: nat) {
    i < |visits| && visits[i].passes && (WakesAt(start, visits, i) || StashesAt(start, visits, i))
  }

  lemma OneEntryMore(
      start: seq<Session>, before: seq<Session>, sessions: seq<Session>, visits: seq<Visit>, n: nat,
      written: seq<Entry>, more: seq<Entry>)
    requires n < |visits| && before <= sessions && WrittenFor(start, before, visits, n, written)
    requires |more| == if WritesAt(start, visits, n) then 1 else 0
    requires forall e :: e in more ==>
               && e.visit == n && e.session < |sessions| && Receives(sessions[e.session], visits[n])
               && (e.wake <==> WakesAt(start, visits, n))
    ensures WrittenFor(start, sessions, visits, n + 1, written + more)
  {
    var all := written + more;
    forall i: nat | i < n + 1
      ensures WritesAt(start, visits, i) <==> exists k :: 0 <= k < |all| && all[k].visit == i
    {
      if i < n && WritesAt(start, visits, i) {
        var k :| 0 <= k < |written| && written[k].visit == i;
        assert all[k].visit == i;
      }
      if i == n && more != [] {
        assert all[|written|].visit == n;
      }
      if k :| 0 <= k < |all| && all[k].visit == i {
        assert k < |written| ==> written[k].visit == i;
      }
    }
  }

  class SessionRouter {
    var sessions: seq<Session>

    constructor ()
      ensures sessions == []
    {
      sessions := [];
    }

    method FindSessionForAgent(agent: nat, group: nat, thread: Thread) returns (found: Option<nat>)
      ensures found.Some? <==> Has(sessions, agent, GroupId(group), Sought(thread))
      ensures found.Some? ==>
                && found.value < |sessions|
                && sessions[found.value] == Session(agent, GroupId(group), Sought(thread), true)
    {
      for i := 0 to |sessions|
        invariant forall k :: 0 <= k < i ==> sessions[k] != Session(agent, GroupId(group), Sought(thread), true)
      {
        if sessions[i] == Session(agent, GroupId(group), Sought(thread), true) {
          return Some(i);
        }
      }
      found := None;
    }

    /** The newest active session of the agent. */
    method FindSessionByAgentGroup(agent: nat) returns (found: Option<nat>)
      ensures found.Some? <==> HasAgent(sessions, agent)
      ensures found.Some? ==>
                && found.value < |sessions| && sessions[found.value].agent == agent && sessions[found.value].active
                && forall k :: found.value < k < |sessions| && sessions[k].active ==> sessions[k].agent != agent
    {
      for i := |sessions| downto 0
        invariant forall k :: i <= k < |sessions| && sessions[k].active ==> sessions[k].agent != agent
      {
        if sessions[i].agent == agent && sessions[i].active {
          return Some(i);
        }
      }
      found := None;
    }

    /** Finds the session of a request or creates it. */
    method ResolveSession(r: Request) returns (index: nat, created: bool)
      modifies this
      ensures sessions == Resolve(old(sessions), r)
      ensures created <==> !Found(old(sessions), r)
      ensures sessions ==
              if !created then old(sessions)
              else old(sessions) + [Session(r.agent, r.group, if r.mode == PerThread then r.thread else NoThread, true)]
      ensures index < |sessions| && sessions[index].active && sessions[index].agent == r.agent
      ensures r.mode != AgentShared && !created ==>
                && r.group.GroupId? && sessions[index].group == r.group
                && sessions[index].thread == if r.mode == Shared then NoThread else Sought(r.thread)
      ensures created ==> index == |old(sessions)|
    {
      var found := None;
      if r.mode == AgentShared {
        found := FindSessionByAgentGroup(r.agent);
      } else if r.group.GroupId? {
        found := FindSessionForAgent(r.agent, r.group.id, if r.mode == Shared then NoThread else r.thread);
      }
      if found.Some? {
        return found.value, false;
      }
      index, created := |sessions|, true;
      sessions := sessions + [Session(r.agent, r.group, if r.mode == PerThread then r.thread else NoThread, true)];
    }

    /** deliverToAgent: the session is found or made, and the message written to it if the command gate lets it pass. */
    method DeliverToAgent(v: Visit, i: nat, wake: bool) returns (written: seq<Entry>)
      modifies this
      ensures sessions == Resolve(old(sessions), RequestOf(v)) && old(sessions) <= sessions
      ensures |written| == if v.passes then 1 else 0
      ensures forall e :: e in written ==>
                e.visit == i && e.wake == wake && e.session < |sessions| && Receives(sessions[e.session], v)
    {
      var session, created := ResolveSession(RequestOf(v));
      written := if v.passes then [Entry(session, i, wake)] else [];
    }

    /** One turn of the loop: whether it woke the agent or only stored the message, and what it wrote. */
    method TryAgent(v: Visit, i: nat) returns (woke: bool, stored: bool, written: seq<Entry>)
      modifies this
      ensures sessions == VisitStep(old(sessions), v) && old(sessions) <= sessions
      ensures woke <==> Wakes(old(sessions), v)
      ensures stored <==> Stashes(old(sessions), v)
      ensures |written| == if v.passes && (woke || stored) then 1 else 0
      ensures forall e :: e in written ==>
                e.visit == i && e.wake == woke && e.session < |sessions| && Receives(sessions[e.session], v)
    {
      woke, stored, written := false, false, [];
      if !v.present {
        return;
      }
      var engages := Engages(sessions, v);
      if engages && v.access && v.scope {
        written := DeliverToAgent(v, i, true);
        woke := true;
      } else if v.wiring.policy == Accumulate && !(engages && (!v.access || !v.scope)) {
        written := DeliverToAgent(v, i, false);
        stored := true;
      }
    }

    /** The fan-out of one message, when nothing else runs in between: what the agents decide one after another. Each
        new session is that of an agent that took the message, so a refused message leaves no trace. The counts are
        those of the agents woken and of those that only store it. The message is written once for each of them that the
        command gate lets it through to; and it is recorded as dropped exactly when no agent took it. */
    method RouteInbound(visits: seq<Visit>)
        returns (engaged: nat, accumulated: nat, subscribed: bool, dropped: bool, written: seq<Entry>)
      modifies this
      ensures sessions == RunVisits(old(sessions), visits)
      ensures OnlyOpened(old(sessions), visits, sessions)
      ensures WrittenFor(old(sessions), sessions, visits, |visits|, written)
      ensures engaged == |Woken(old(sessions), visits, |visits|)|
      ensures accumulated == |Stashed(old(sessions), visits, |visits|)|
      ensures dropped <==> TakenByNone(old(sessions), visits)
      ensures subscribed <==> AnySubscribes(old(sessions), visits, |visits|)
    {
      engaged, accumulated, subscribed, written := 0, 0, false, [];
      for i := 0 to |visits|
        invariant sessions == RunVisits(old(sessions), visits[..i])
        invariant engaged == |Woken(old(sessions), visits, i)|
        invariant accumulated == |Stashed(old(sessions), visits, i)|
        invariant WrittenFor(old(sessions), sessions, visits, i, written)
        invariant subscribed <==> AnySubscribes(old(sessions), visits, i)
      {
        assert visits[..i + 1][..i] == visits[..i];
        OneWokenMore(old(sessions), visits, i);
        OneStashedMore(old(sessions), visits, i);
        OneSubscribedMore(old(sessions), visits, i);
        var v := visits[i];
        ghost var before := sessions;
        var woke, stored, entries := TryAgent(v, i);
        if woke {
          engaged := engaged + 1;
          if !subscribed && v.wiring.engage == MentionSticky
             && v.event.adapter.Threaded? && v.event.adapter.canSubscribe
             && EventThread(v.event) != NoThread && v.event.isGroup {
            subscribed := true;
          }
        } else if stored {
          accumulated := accumulated + 1;
        }
        OneEntryMore(old(sessions), before, sessions, visits, i, written, entries);
        written := written + entries;
      }
      assert visits[..|visits|] == visits;
      OnlyNewSessions(old(sessions), visits);
      DroppedExactly(old(sessions), visits);
      dropped := engaged + accumulated == 0;
    }
  }

  // ---- Who is called upon, and which session it gets ----

  /** A wiring by pattern or mention looks at the message alone, whatever sessions there are; and in a direct chat a
      sticky wiring does so, too. */
  lemma HistoryIsNoMatter(sessions: seq<Session>, v: Visit)
    requires v.wiring.engage != MentionSticky || !v.event.isGroup
    ensures
      var called := if v.wiring.engage == Pattern then v.matches else v.event.mention;
      Takes(sessions, v) <==> v.present && if called then v.access && v.scope else v.wiring.policy == Accumulate
  {
  }

  /** Two messages of one wiring and chat. */
  predicate SameChat(v: Visit, w: Visit) {
    && v.wiring == w.wiring && v.event.group == w.event.group && v.event.isGroup == w.event.isGroup
    && v.event.adapter == w.event.adapter
  }

  /** Two messages go to one session exactly when the agent has one session for all chats, the platform has no threads,
      the chat has one session for all threads (as it is wired, and as every direct chat is, but not a group on a
      platform with threads), or they are on one thread; where an empty thread id stands for none in the second. */
  lemma JoinsExactly(v: Visit, w: Visit)
    requires SameChat(v, w) && Takes([], v) && Takes(VisitStep([], v), w)
    ensures
      var (mode, event, first, second) := (v.wiring.mode, v.event, v.event.thread, w.event.thread);
      VisitStep(VisitStep([], v), w) == VisitStep([], v) <==>
      || mode == AgentShared
      || event.adapter == Plain
      || (mode == Shared && !(event.adapter.Threaded? && event.isGroup))
      || (if second == EmptyThread then first == NoThread else first == second)
  {
    var after := VisitStep([], v);
    assert [] + [Session(v.wiring.agent, GroupId(v.event.group), StoredThread(RequestOf(v)), true)] == after;
    assert after[0].agent == v.wiring.agent && after[0].active;
  }

  // ---- Message ids ----

  /** messageIdForAgent, for a message that has an id. */
  function MessageIdForAgent(base: string, agent: string): string {
    base + ":" + agent
  }

  /** The ids of one fan-out never collide. */
  lemma OneFanOutIsDistinct(base: string, agent: string, other: string)
    requires MessageIdForAgent(base, agent) == MessageIdForAgent(base, other)
    ensures agent == other
  {
    var id := MessageIdForAgent(base, agent);
    assert agent == id[|base| + 1..] && other == id[|base| + 1..];
  }

  /** `agent` ends with a colon and `other`. */
  predicate EndsWith(agent: string, other: string) {
    |agent| > |other| && agent[|agent| - |other| - 1..] == ":" + other
  }

  ghost predicate Determines(base: string, agent: string, other: string, another: string) {
    MessageIdForAgent(base, agent) == MessageIdForAgent(other, another) ==> base == other && agent == another
  }

  lemma LongerBaseEndsShorter(base: string, agent: string, other: string, another: string)
    requires MessageIdForAgent(base, agent) == MessageIdForAgent(other, another) && |base| < |other|
    ensures EndsWith(agent, another)
  {
    var id := MessageIdForAgent(base, agent);
    assert agent == id[|base| + 1..] && id[|other|..] == ":" + another;
    assert agent[|other| - |base| - 1..] == id[|other|..];
  }

  /** Routed ids determine the message and the agent, for all messages with an id, exactly when no agent id ends with a
      colon and another agent id. */
  lemma RoutedIdsAreDistinctExactly(agents: set<string>)
    ensures (forall a, b :: a in agents && b in agents ==> !EndsWith(a, b)) <==>
            forall base, a, other, b :: base != "" && other != "" && a in agents && b in agents ==>
              Determines(base, a, other, b)
  {
    if a, b :| a in agents && b in agents && EndsWith(a, b) {
      var front := a[..|a| - |b| - 1];
      assert a == front + (":" + b);
      assert MessageIdForAgent("m", a) == MessageIdForAgent("m:" + front, b);
      assert |a| > |b| && !Determines("m", a, "m:" + front, b);
    } else {
      forall base, a, other, b | base != "" && other != "" && a in agents && b in agents
        ensures Determines(base, a, other, b)
      {
        SeparateIds(base, a, other, b);
      }
    }
  }

  lemma SeparateIds(base: string, a: string, other: string, b: string)
    requires !EndsWith(a, b) && !EndsWith(b, a)
    ensures Determines(base, a, other, b)
  {
    var id, id' := MessageIdForAgent(base, a), MessageIdForAgent(other, b);
    if id == id' {
      if |base| < |other| {
        LongerBaseEndsShorter(base, a, other, b);
      } else if |other| < |base| {
        LongerBaseEndsShorter(other, b, base, a);
      } else {
        assert base == id[..|base|] && other == id'[..|base|];
        OneFanOutIsDistinct(base, a, b);
      }
    }
  }
}
