/**
 The node registry shared by all sessions of an export: two inverse maps, a global
 and a per-session permit pool, references counted per node, and both evictions.
 Every step is one critical section, so a run is any interleaving of requests.
 */
module Registry {
  import opened Common

  type NodeId = nat
  type Identity = nat

  const ROOT: NodeId := 0

  /** `stable` derives a node identifier from an identity. It may collide. */
  datatype Config = Config(maxTotal: nat, maxKnown: nat, rootIdentity: Identity, stable: Identity -> NodeId) {
    predicate Accepted() { 0 < maxKnown <= maxTotal }
  }

  datatype Entry = Entry(identity: Identity, references: nat)

  /** `free` counts unused permits; every known node but the root has used one. */
  datatype Session = Session(known: set<NodeId>, free: nat, handles: map<nat, NodeId>)

  /** A request between two critical sections. `Reserved` holds a permit of its session, `Granted` a
      global one as well; `Tracking` is about to track a node with its session permit; `Pinned` has
      listed the nodes behind open handles and will evict some other one; `Releasing` has removed the
      nodes of `batch` from a session and still has to give up their references. */
  datatype Task =
    | Reserved(session: nat)
    | Granted(session: nat)
    | Tracking(session: nat, node: NodeId)
    | Pinned(session: nat, pins: set<NodeId>)
    | Releasing(batch: set<NodeId>, stopsOnError: bool)

  /** `dropped`: some node lost its last path to a remove or a rename. `leaked`: references that a
      failed forget request has abandoned. */
  datatype State = State(
    byNode: map<NodeId, Entry>,
    byIdentity: map<Identity, NodeId>,
    globalFree: nat,
    sessions: map<nat, Session>,
    tasks: map<nat, Task>,
    dropped: bool,
    leaked: multiset<NodeId>)

  /** A pool is one permit short of its limit: the root needs none. */
  function PoolSize(limit: nat): nat { if limit > 0 then limit - 1 else 0 }

  function Initial(c: Config): State
    requires c.Accepted()
  {
    State(map[ROOT := Entry(c.rootIdentity, 0)], map[c.rootIdentity := ROOT], PoolSize(c.maxTotal), map[], map[], false, multiset{})
  }

  datatype Step =
    | Connect(session: nat)
    | Disconnect(session: nat, task: nat)
    | OpenHandle(session: nat, handle: nat, node: NodeId)
    | CloseHandle(session: nat, handle: nat)
    | AcquireSession(task: nat, session: nat)
    | AcquireGlobal(task: nat)
    | GiveUp(task: nat)
    | Remember(task: nat, identity: Identity)
    | Choose(task: nat, node: NodeId)
    | Track(task: nat)
    | Pin(task: nat, session: nat)
    | EvictSession(task: nat, node: NodeId)
    | EvictGlobal(node: NodeId)
    | Forget(task: nat, session: nat, requested: set<NodeId>)
    | Release(task: nat, node: NodeId)
    | Drop(node: NodeId)

  /** The session a task works for; a release works for none. */
  predicate Serves(t: Task, session: nat) { !t.Releasing? && t.session == session }

  predicate Enabled(s: State, step: Step) {
    match step
    case Connect(session) => session !in s.sessions
    // A session is dropped only once no request borrows it any more.
    case Disconnect(session, task) =>
      session in s.sessions && task !in s.tasks && forall t :: t in s.tasks ==> !Serves(s.tasks[t], session)
    case OpenHandle(session, handle, _) => session in s.sessions && handle !in s.sessions[session].handles
    case CloseHandle(session, handle) => session in s.sessions && handle in s.sessions[session].handles
    case AcquireSession(task, session) => task !in s.tasks && session in s.sessions && s.sessions[session].free > 0
    case AcquireGlobal(task) => task in s.tasks && s.tasks[task].Reserved? && s.globalFree > 0
    case GiveUp(task) => task in s.tasks && !s.tasks[task].Releasing? && s.tasks[task].session in s.sessions
    case Remember(task, _) => task in s.tasks && s.tasks[task].Granted? && s.tasks[task].session in s.sessions
    case Choose(task, _) => task in s.tasks && s.tasks[task].Reserved?
    case Track(task) => task in s.tasks && s.tasks[task].Tracking? && s.tasks[task].session in s.sessions
    case Pin(task, session) => task !in s.tasks && session in s.sessions
    case EvictSession(task, node) =>
      && task in s.tasks && s.tasks[task].Pinned? && s.tasks[task].session in s.sessions
      && node in s.sessions[s.tasks[task].session].known && node != ROOT && node !in s.tasks[task].pins
    case EvictGlobal(node) => node in s.byNode && node != ROOT && s.byNode[node].references == 0
    case Forget(task, session, _) => task !in s.tasks && session in s.sessions
    case Release(task, node) => task in s.tasks && s.tasks[task].Releasing? && node in s.tasks[task].batch
    case Drop(node) => node in s.byNode && node != ROOT
  }

  // ----- the critical sections -----

  function Without<K, V>(m: map<K, V>, k: K): map<K, V> { m - {k} }

  function HandleNodes(session: Session): set<NodeId> { set h | h in session.handles :: session.handles[h] }

  /** Removing an entry drops its global permit. */
  function RemoveNode(s: State, node: NodeId): State
    requires node in s.byNode
  {
    s.(byNode := Without(s.byNode, node), byIdentity := Without(s.byIdentity, s.byNode[node].identity), globalFree := s.globalFree + 1)
  }

  function ReturnPermit(s: State, session: nat): map<nat, Session>
    requires session in s.sessions
  {
    s.sessions[session := s.sessions[session].(free := s.sessions[session].free + 1)]
  }

  /** The nodes leave the session's working set, and their permits with them. */
  function Untrack(s: State, session: nat, nodes: set<NodeId>): map<nat, Session>
    requires session in s.sessions
  {
    var it := s.sessions[session];
    s.sessions[session := it.(known := it.known - nodes, free := it.free + |nodes|)]
  }

  /** `remember_reserved`, up to the tracking. */
  function RememberReserved(c: Config, s: State, task: nat, identity: Identity): State
    requires Enabled(s, Remember(task, identity))
  {
    var session := s.tasks[task].session;
    if identity in s.byIdentity then
      s.(globalFree := s.globalFree + 1, tasks := s.tasks[task := Tracking(session, s.byIdentity[identity])])
    else
      var node := c.stable(identity);
      if node == ROOT || (node in s.byNode && s.byNode[node].identity != identity) then
        s.(globalFree := s.globalFree + 1, sessions := ReturnPermit(s, session), tasks := Without(s.tasks, task))
      else
        s.(byNode := s.byNode[node := Entry(identity, 0)], byIdentity := s.byIdentity[identity := node],
           tasks := s.tasks[task := Tracking(session, node)])
  }

  /** `track_node_with_permit`. */
  function TrackNode(s: State, task: nat): State
    requires Enabled(s, Track(task))
  {
    var (session, node) := (s.tasks[task].session, s.tasks[task].node);
    if node in s.sessions[session].known || node !in s.byNode then
      s.(sessions := ReturnPermit(s, session), tasks := Without(s.tasks, task))
    else
      var it := s.sessions[session];
      s.(byNode := s.byNode[node := s.byNode[node].(references := s.byNode[node].references + 1)],
         sessions := s.sessions[session := it.(known := it.known + {node})],
         tasks := Without(s.tasks, task))
  }

  /** `release_node_reference` for one node of a batch. A forget request stops at the first failure. */
  function ReleaseReference(s: State, task: nat, node: NodeId): State
    requires Enabled(s, Release(task, node))
  {
    var t := s.tasks[task];
    var rest := s.tasks[task := t.(batch := t.batch - {node})];
    if node !in s.byNode then s.(tasks := rest)
    else if s.byNode[node].references > 0 then
      s.(byNode := s.byNode[node := s.byNode[node].(references := s.byNode[node].references - 1)], tasks := rest)
    else if t.stopsOnError then s.(tasks := Without(s.tasks, task), leaked := s.leaked + multiset(t.batch - {node}))
    else s.(tasks := rest)
  }

  function Apply(c: Config, s: State, step: Step): State
    requires Enabled(s, step)
  {
    match step
    case Connect(session) => s.(sessions := s.sessions[session := Session({ROOT}, PoolSize(c.maxKnown), map[])])
    case Disconnect(session, task) =>
      s.(sessions := Without(s.sessions, session), tasks := s.tasks[task := Releasing(s.sessions[session].known - {ROOT}, false)])
    case OpenHandle(session, handle, node) =>
      s.(sessions := s.sessions[session := s.sessions[session].(handles := s.sessions[session].handles[handle := node])])
    case CloseHandle(session, handle) =>
      s.(sessions := s.sessions[session := s.sessions[session].(handles := Without(s.sessions[session].handles, handle))])
    case AcquireSession(task, session) =>
      s.(sessions := s.sessions[session := s.sessions[session].(free := s.sessions[session].free - 1)],
         tasks := s.tasks[task := Reserved(session)])
    case AcquireGlobal(task) => s.(globalFree := s.globalFree - 1, tasks := s.tasks[task := Granted(s.tasks[task].session)])
    case GiveUp(task) =>
      s.(globalFree := s.globalFree + (if s.tasks[task].Granted? then 1 else 0),
         sessions := if s.tasks[task].Pinned? then s.sessions else ReturnPermit(s, s.tasks[task].session),
         tasks := Without(s.tasks, task))
    case Remember(task, identity) => RememberReserved(c, s, task, identity)
    case Choose(task, node) => s.(tasks := s.tasks[task := Tracking(s.tasks[task].session, node)])
    case Track(task) => TrackNode(s, task)
    case Pin(task, session) => s.(tasks := s.tasks[task := Pinned(session, HandleNodes(s.sessions[session]))])
    case EvictSession(task, node) =>
      s.(sessions := Untrack(s, s.tasks[task].session, {node}), tasks := s.tasks[task := Releasing({node}, false)])
    case EvictGlobal(node) => RemoveNode(s, node)
    case Forget(task, session, requested) =>
      var released := s.sessions[session].known * (requested - {ROOT});
      s.(sessions := Untrack(s, session, released), tasks := s.tasks[task := Releasing(released, true)])
    case Release(task, node) => ReleaseReference(s, task, node)
    case Drop(node) => RemoveNode(s, node).(dropped := true)
  }

  ghost predicate IsRun(c: Config, states: seq<State>, steps: seq<Step>)
    requires c.Accepted()
  {
    && |states| == |steps| + 1 && states[0] == Initial(c)
    && forall i {:trigger steps[i]} :: 0 <= i < |steps| ==> Enabled(states[i], steps[i]) && states[i + 1] == Apply(c, states[i], steps[i])
  }

  // ----- the maps -----

  /** The two maps are inverse to each other and always hold the root. */
  ghost predicate Inverse(c: Config, s: State) {
    && ROOT in s.byNode && s.byNode[ROOT].identity == c.rootIdentity
    && (forall n :: n in s.byNode ==> s.byNode[n].identity in s.byIdentity && s.byIdentity[s.byNode[n].identity] == n)
    && (forall i :: i in s.byIdentity ==> s.byIdentity[i] in s.byNode && s.byNode[s.byIdentity[i]].identity == i)
  }

  lemma RememberKeepsInverse(c: Config, s: State, task: nat, identity: Identity)
    requires Inverse(c, s) && Enabled(s, Remember(task, identity))
    ensures Inverse(c, RememberReserved(c, s, task, identity))
  {
    var s', node := RememberReserved(c, s, task, identity), c.stable(identity);
    assert s'.byNode == s.byNode || (node !in s.byNode && s'.byNode == s.byNode[node := Entry(identity, 0)]);
  }

  lemma RemoveKeepsInverse(c: Config, s: State, node: NodeId)
    requires Inverse(c, s) && node in s.byNode && node != ROOT
    ensures Inverse(c, RemoveNode(s, node))
  {
  }

  lemma ReferencesOnly(c: Config, s: State, s': State, node: NodeId)
    requires Inverse(c, s) && s'.byIdentity == s.byIdentity
    requires s'.byNode == s.byNode || (node in s.byNode && exists r: nat :: s'.byNode == s.byNode[node := s.byNode[node].(references := r)])
    ensures Inverse(c, s')
  {
  }

  lemma StepKeepsInverse(c: Config, s: State, step: Step)
    requires Inverse(c, s) && Enabled(s, step)
    ensures Inverse(c, Apply(c, s, step))
  {
    match step {
      case Remember(task, identity) => RememberKeepsInverse(c, s, task, identity);
      case EvictGlobal(node) => RemoveKeepsInverse(c, s, node);
      case Drop(node) => RemoveKeepsInverse(c, s, node);
      case Track(task) => ReferencesOnly(c, s, TrackNode(s, task), s.tasks[task].node);
      case Release(task, node) => ReferencesOnly(c, s, ReleaseReference(s, task, node), node);
      case _ =>
    }
  }

  // ----- counting -----

  /** What is counted: tasks with a global permit, tasks with a permit of one session, tasks that owe a
      release of one node. */
  datatype Query = Global | OfSession(session: nat) | Owes(node: NodeId)

  predicate Matches(t: Task, q: Query) {
    match q
    case Global => t.Granted?
    case OfSession(session) => Serves(t, session) && !t.Pinned?
    case Owes(node) => t.Releasing? && node in t.batch
  }

  ghost function Matching(tasks: map<nat, Task>, q: Query): set<nat> { set t | t in tasks && Matches(tasks[t], q) }

  function At(tasks: map<nat, Task>, task: nat, q: Query): nat { if task in tasks && Matches(tasks[task], q) then 1 else 0 }

  ghost predicate AgreeExcept<V>(a: map<nat, V>, b: map<nat, V>, k: nat) {
    forall t :: t != k ==> (t in a <==> t in b) && (t in a ==> a[t] == b[t])
  }

  lemma CardinalityWithout(x: set<nat>, k: nat)
    ensures |x| == |x - {k}| + if k in x then 1 else 0
  {
    assert k in x ==> x == (x - {k}) + {k};
    assert k !in x ==> x == x - {k};
  }

  lemma CountChanges(a: map<nat, Task>, b: map<nat, Task>, k: nat, q: Query)
    requires AgreeExcept(a, b, k)
    ensures |Matching(b, q)| + At(a, k, q) == |Matching(a, q)| + At(b, k, q)
  {
    CardinalityWithout(Matching(a, q), k);
    CardinalityWithout(Matching(b, q), k);
    assert Matching(a, q) - {k} == Matching(b, q) - {k};
  }

  /** The one task a step moves. */
  function TaskOf(step: Step): nat {
    match step
    case Disconnect(_, task) => task
    case AcquireSession(task, _) => task
    case AcquireGlobal(task) => task
    case GiveUp(task) => task
    case Remember(task, _) => task
    case Choose(task, _) => task
    case Track(task) => task
    case Pin(task, _) => task
    case EvictSession(task, _) => task
    case Forget(task, _, _) => task
    case Release(task, _) => task
    case _ => 0
  }

  lemma OneTaskMoves(c: Config, s: State, step: Step)
    requires Enabled(s, step)
    ensures AgreeExcept(s.tasks, Apply(c, s, step).tasks, TaskOf(step))
  {
    var tasks := Apply(c, s, step).tasks;
    if TaskOf(step) in tasks {
      assert tasks == s.tasks[TaskOf(step) := tasks[TaskOf(step)]];
    } else {
      assert tasks == Without(s.tasks, TaskOf(step)) || tasks == s.tasks;
    }
  }

  // ----- permits -----

  /** No global permit is lost or invented. */
  ghost predicate GlobalPermits(c: Config, s: State) { s.globalFree + |s.byNode| + |Matching(s.tasks, Global)| == c.maxTotal }

  ghost predicate SessionPermits(c: Config, s: State, session: nat)
    requires session in s.sessions
  {
    && ROOT in s.sessions[session].known
    && s.sessions[session].free + |s.sessions[session].known| + |Matching(s.tasks, OfSession(session))| == c.maxKnown
  }

  /** No session permit is lost or invented, and requests are served for live sessions only. */
  ghost predicate AllSessionPermits(c: Config, s: State) {
    && (forall i :: i in s.sessions ==> SessionPermits(c, s, i))
    && Live(s)
  }

  ghost predicate Live(s: State) { forall t :: t in s.tasks && !s.tasks[t].Releasing? ==> s.tasks[t].session in s.sessions }

  lemma RememberBalance(c: Config, s: State, task: nat, identity: Identity)
    requires Inverse(c, s) && Enabled(s, Remember(task, identity))
    ensures var s' := RememberReserved(c, s, task, identity);
            s'.globalFree + |s'.byNode| == s.globalFree + |s.byNode| + 1 && At(s'.tasks, task, Global) == 0
  {
    var s', node := RememberReserved(c, s, task, identity), c.stable(identity);
    assert s'.byNode == s.byNode || (node !in s.byNode && s'.byNode == s.byNode[node := Entry(identity, 0)]);
  }

  lemma RemoveBalance(s: State, node: NodeId)
    requires node in s.byNode
    ensures |RemoveNode(s, node).byNode| + 1 == |s.byNode|
  {
    assert s.byNode == RemoveNode(s, node).byNode[node := s.byNode[node]];
  }

  lemma TouchBalance(byNode: map<NodeId, Entry>, node: NodeId, entry: Entry)
    requires node in byNode
    ensures |byNode[node := entry]| == |byNode|
  {
    assert byNode[node := entry].Keys == byNode.Keys;
  }

  lemma GlobalBalance(c: Config, s: State, step: Step)
    requires Inverse(c, s) && Enabled(s, step)
    ensures var s' := Apply(c, s, step);
            s'.globalFree + |s'.byNode| + At(s'.tasks, TaskOf(step), Global) == s.globalFree + |s.byNode| + At(s.tasks, TaskOf(step), Global)
  {
    match step {
      case Remember(task, identity) => RememberBalance(c, s, task, identity);
      case EvictGlobal(node) => RemoveBalance(s, node);
      case Drop(node) => RemoveBalance(s, node);
      case Track(task) =>
        var node := s.tasks[task].node;
        if node in s.byNode {
          TouchBalance(s.byNode, node, s.byNode[node].(references := s.byNode[node].references + 1));
        }
      case Release(task, node) =>
        if node in s.byNode && s.byNode[node].references > 0 {
          TouchBalance(s.byNode, node, s.byNode[node].(references := s.byNode[node].references - 1));
        }
      case _ =>
    }
  }

  lemma StepKeepsGlobalPermits(c: Config, s: State, step: Step)
    requires Inverse(c, s) && GlobalPermits(c, s) && Enabled(s, step)
    ensures GlobalPermits(c, Apply(c, s, step))
  {
    OneTaskMoves(c, s, step);
    CountChanges(s.tasks, Apply(c, s, step).tasks, TaskOf(step), Global);
    GlobalBalance(c, s, step);
  }

  /** Free permits plus known nodes of a session move only with the permit a request has in hand. */
  lemma SessionBalance(c: Config, s: State, step: Step, s': State, i: nat)
    requires Enabled(s, step) && s' == Apply(c, s, step) && i in s.sessions && i in s'.sessions && ROOT in s.sessions[i].known
    ensures ROOT in s'.sessions[i].known
    ensures s'.sessions[i].free + |s'.sessions[i].known| + At(s'.tasks, TaskOf(step), OfSession(i))
         == s.sessions[i].free + |s.sessions[i].known| + At(s.tasks, TaskOf(step), OfSession(i))
  {
    match step {
      case Forget(task, session, requested) =>
        UntrackKeepsSum(s, session, s.sessions[session].known * (requested - {ROOT}), i);
      case EvictSession(task, node) =>
        UntrackKeepsSum(s, s.tasks[task].session, {node}, i);
      case Track(task) => TrackBalance(s, task, i);
      case Remember(task, identity) => RememberKeepsSessions(c, s, task, identity, i);
      case _ => PlainBalance(c, s, step, i);
    }
  }

  lemma PlainBalance(c: Config, s: State, step: Step, i: nat)
    requires Enabled(s, step) && i in s.sessions && i in Apply(c, s, step).sessions && ROOT in s.sessions[i].known
    requires !step.Forget? && !step.EvictSession? && !step.Track? && !step.Remember?
    ensures var s' := Apply(c, s, step);
            && ROOT in s'.sessions[i].known
            && s'.sessions[i].free + |s'.sessions[i].known| + At(s'.tasks, TaskOf(step), OfSession(i))
            == s.sessions[i].free + |s.sessions[i].known| + At(s.tasks, TaskOf(step), OfSession(i))
  {
    if step.Release? {
      ReleaseBatchBalance(s, step.task, step.node, i);
    }
  }

  lemma ReleaseBatchBalance(s: State, task: nat, node: NodeId, i: nat)
    requires Enabled(s, Release(task, node))
    ensures var s' := ReleaseReference(s, task, node);
            s'.sessions == s.sessions && At(s'.tasks, task, OfSession(i)) == At(s.tasks, task, OfSession(i))
  {
  }

  lemma UntrackKeepsSum(s: State, session: nat, nodes: set<NodeId>, i: nat)
    requires session in s.sessions && nodes <= s.sessions[session].known && i in s.sessions
    ensures var (a, b) := (s.sessions[i], Untrack(s, session, nodes)[i]);
            b.free + |b.known| == a.free + |a.known|
  {
    var known := s.sessions[session].known;
    assert |known - nodes| + |nodes| == |known|;
  }

  lemma RememberKeepsSessions(c: Config, s: State, task: nat, identity: Identity, i: nat)
    requires Enabled(s, Remember(task, identity)) && i in s.sessions
    ensures var (s', q) := (RememberReserved(c, s, task, identity), OfSession(i));
            && i in s'.sessions && s'.sessions[i].known == s.sessions[i].known
            && s'.sessions[i].free + At(s'.tasks, task, q) == s.sessions[i].free + At(s.tasks, task, q)
  {
  }

  lemma TrackBalance(s: State, task: nat, i: nat)
    requires Enabled(s, Track(task)) && i in s.sessions && ROOT in s.sessions[i].known
    ensures var (a, b) := (s.sessions[i], TrackNode(s, task).sessions[i]);
            ROOT in b.known && b.free + |b.known| == a.free + |a.known| + At(s.tasks, task, OfSession(i))
  {
  }

  lemma StepKeepsSessionPermits(c: Config, s: State, step: Step)
    requires c.Accepted() && AllSessionPermits(c, s) && Enabled(s, step)
    ensures AllSessionPermits(c, Apply(c, s, step))
  {
    var s' := Apply(c, s, step);
    OneTaskMoves(c, s, step);
    forall i | i in s'.sessions ensures SessionPermits(c, s', i) {
      CountChanges(s.tasks, s'.tasks, TaskOf(step), OfSession(i));
      if i in s.sessions {
        SessionBalance(c, s, step, s', i);
      } else {
        assert Matching(s'.tasks, OfSession(i)) == {};
      }
    }
    SessionsStayLive(c, s, step);
  }

  lemma SessionsStayLive(c: Config, s: State, step: Step)
    requires Live(s) && Enabled(s, step)
    ensures Live(Apply(c, s, step))
  {
  }

  // ----- references -----

  ghost function Trackers(sessions: map<nat, Session>, n: NodeId): set<nat> { set i | i in sessions && n in sessions[i].known }

  function KnownAt(sessions: map<nat, Session>, i: nat, n: NodeId): nat { if i in sessions && n in sessions[i].known then 1 else 0 }

  function ReferencesOf(s: State, n: NodeId): nat { if n in s.byNode then s.byNode[n].references else 0 }

  /** Sessions tracking the node, releases of it still to come, and references that were abandoned. */
  ghost function Accounted(s: State, n: NodeId): nat {
    |Trackers(s.sessions, n)| + |Matching(s.tasks, Owes(n))| + s.leaked[n]
  }

  lemma TrackersChange(a: map<nat, Session>, b: map<nat, Session>, k: nat, n: NodeId)
    requires AgreeExcept(a, b, k)
    ensures |Trackers(b, n)| + KnownAt(a, k, n) == |Trackers(a, n)| + KnownAt(b, k, n)
  {
    CardinalityWithout(Trackers(a, n), k);
    CardinalityWithout(Trackers(b, n), k);
    assert Trackers(a, n) - {k} == Trackers(b, n) - {k};
  }

  /** The one session a step changes. */
  function SessionOf(s: State, step: Step): nat
    requires Enabled(s, step)
  {
    match step
    case Connect(session) => session
    case Disconnect(session, _) => session
    case OpenHandle(session, _, _) => session
    case CloseHandle(session, _) => session
    case AcquireSession(_, session) => session
    case GiveUp(task) => s.tasks[task].session
    case Remember(task, _) => s.tasks[task].session
    case Track(task) => s.tasks[task].session
    case EvictSession(task, _) => s.tasks[task].session
    case Forget(_, session, _) => session
    case _ => 0
  }

  lemma NodeStepMovesOneSession(c: Config, s: State, step: Step)
    requires Enabled(s, step) && (step.Remember? || step.Track? || step.Release?)
    ensures AgreeExcept(s.sessions, Apply(c, s, step).sessions, SessionOf(s, step))
  {
    match step {
      case Remember(task, identity) =>
        assert AgreeExcept(s.sessions, RememberReserved(c, s, task, identity).sessions, s.tasks[task].session);
      case Track(task) => assert AgreeExcept(s.sessions, TrackNode(s, task).sessions, s.tasks[task].session);
      case Release(task, node) => assert ReleaseReference(s, task, node).sessions == s.sessions;
    }
  }

  lemma OneSessionMoves(c: Config, s: State, step: Step)
    requires Enabled(s, step)
    ensures AgreeExcept(s.sessions, Apply(c, s, step).sessions, SessionOf(s, step))
  {
    if step.Remember? || step.Track? || step.Release? {
      NodeStepMovesOneSession(c, s, step);
    } else {
      PlainStepMovesOneSession(c, s, step);
    }
  }

  lemma PlainStepMovesOneSession(c: Config, s: State, step: Step)
    requires Enabled(s, step) && !step.Remember? && !step.Track? && !step.Release?
    ensures AgreeExcept(s.sessions, Apply(c, s, step).sessions, SessionOf(s, step))
  {
    var sessions, i := Apply(c, s, step).sessions, SessionOf(s, step);
    if i in sessions {
      assert sessions == s.sessions[i := sessions[i]];
    } else {
      assert sessions == Without(s.sessions, i) || sessions == s.sessions;
    }
  }

  /** The part of `Accounted` that a step can move. */
  function Local(s: State, session: nat, task: nat, n: NodeId): nat {
    KnownAt(s.sessions, session, n) + At(s.tasks, task, Owes(n)) + s.leaked[n]
  }

  /** A release that finds nothing to release. */
  predicate FindsNone(s: State, step: Step, n: NodeId) { step.Release? && step.node == n && ReferencesOf(s, n) == 0 }

  /** References of `n` moved together with what accounts for them. */
  predicate Balanced(s: State, s': State, session: nat, task: nat, n: NodeId) {
    ReferencesOf(s', n) + Local(s, session, task, n) == ReferencesOf(s, n) + Local(s', session, task, n)
  }

  lemma ReleaseBalance(s: State, task: nat, node: NodeId, n: NodeId)
    requires Enabled(s, Release(task, node)) && n != ROOT
    ensures var s' := ReleaseReference(s, task, node);
            if FindsNone(s, Release(task, node), n) then ReferencesOf(s', n) == 0 else Balanced(s, s', 0, task, n)
  {
  }

  lemma TrackBalanced(s: State, task: nat, n: NodeId)
    requires Enabled(s, Track(task))
    ensures Balanced(s, TrackNode(s, task), s.tasks[task].session, task, n)
  {
  }

  lemma RememberBalanced(c: Config, s: State, task: nat, identity: Identity, n: NodeId)
    requires Inverse(c, s) && Enabled(s, Remember(task, identity))
    ensures Balanced(s, RememberReserved(c, s, task, identity), s.tasks[task].session, task, n)
  {
    var node := c.stable(identity);
    assert identity !in s.byIdentity && node in s.byNode ==> s.byNode[node].identity != identity;
  }

  /** A node that leaves a session's working set is released later. */
  lemma UntrackingBalanced(c: Config, s: State, step: Step, n: NodeId)
    requires Enabled(s, step) && n != ROOT && (step.Disconnect? || step.Forget? || step.EvictSession?)
    ensures Balanced(s, Apply(c, s, step), SessionOf(s, step), TaskOf(step), n)
  {
  }

  /** Steps that touch no working set, no reference and no release. */
  predicate Quiet(step: Step) {
    step.Connect? || step.OpenHandle? || step.CloseHandle? || step.AcquireSession? || step.AcquireGlobal? || step.GiveUp? || step.Choose? || step.Pin?
  }

  lemma QuietBalanced(c: Config, s: State, step: Step, n: NodeId)
    requires Enabled(s, step) && n != ROOT && Quiet(step)
    ensures Balanced(s, Apply(c, s, step), SessionOf(s, step), TaskOf(step), n)
  {
  }

  /** A step moves a node's references together with what accounts for them, except where a node is
      dropped or a release finds nothing. */
  lemma ReferenceBalance(c: Config, s: State, step: Step, n: NodeId)
    requires Inverse(c, s) && Enabled(s, step) && n != ROOT
    ensures step == Drop(n) || FindsNone(s, step, n) ==> ReferencesOf(Apply(c, s, step), n) == 0
    ensures step != Drop(n) && !FindsNone(s, step, n) ==> Balanced(s, Apply(c, s, step), SessionOf(s, step), TaskOf(step), n)
  {
    if Quiet(step) {
      QuietBalanced(c, s, step, n);
    } else if step.Disconnect? || step.Forget? || step.EvictSession? {
      UntrackingBalanced(c, s, step, n);
    } else if step.Release? {
      ReleaseBalance(s, step.task, step.node, n);
    } else if step.Remember? {
      RememberBalanced(c, s, step.task, step.identity, n);
    } else if step.Track? {
      TrackBalanced(s, step.task, n);
    }
  }

  /** References never exceed what accounts for them, and match it exactly until a node is dropped. */
  ghost predicate References(s: State) {
    && (forall n :: n != ROOT ==> ReferencesOf(s, n) <= Accounted(s, n))
    && (!s.dropped ==> s.leaked == multiset{} && forall n :: n != ROOT ==> ReferencesOf(s, n) == Accounted(s, n))
  }

  lemma AccountedMoves(c: Config, s: State, step: Step, n: NodeId)
    requires Enabled(s, step)
    ensures var s' := Apply(c, s, step);
            Accounted(s', n) + Local(s, SessionOf(s, step), TaskOf(step), n) == Accounted(s, n) + Local(s', SessionOf(s, step), TaskOf(step), n)
  {
    var s' := Apply(c, s, step);
    OneTaskMoves(c, s, step);
    OneSessionMoves(c, s, step);
    CountChanges(s.tasks, s'.tasks, TaskOf(step), Owes(n));
    TrackersChange(s.sessions, s'.sessions, SessionOf(s, step), n);
  }

  /** A task that owes a release is accounted for. */
  lemma OwedIsAccounted(s: State, task: nat, node: NodeId)
    requires Enabled(s, Release(task, node))
    ensures Accounted(s, node) > 0
  {
    assert task in Matching(s.tasks, Owes(node));
  }

  lemma StepKeepsReferences(c: Config, s: State, step: Step)
    requires Inverse(c, s) && References(s) && Batches(s) && Enabled(s, step)
    ensures References(Apply(c, s, step))
  {
    var s' := Apply(c, s, step);
    forall n | n != ROOT
      ensures ReferencesOf(s', n) <= Accounted(s', n)
      ensures !s'.dropped ==> ReferencesOf(s', n) == Accounted(s', n)
    {
      AccountedMoves(c, s, step, n);
      ReferenceBalance(c, s, step, n);
      if step.Release? {
        OwedIsAccounted(s, step.task, step.node);
      }
    }
    NothingLeaksBeforeDrop(c, s, step);
  }

  /** The root is never released. */
  ghost predicate Batches(s: State) { forall t :: t in s.tasks && s.tasks[t].Releasing? ==> ROOT !in s.tasks[t].batch }

  lemma StepKeepsBatches(c: Config, s: State, step: Step)
    requires Batches(s) && Enabled(s, step)
    ensures Batches(Apply(c, s, step))
  {
  }

  lemma NothingLeaksBeforeDrop(c: Config, s: State, step: Step)
    requires References(s) && Batches(s) && Enabled(s, step)
    ensures var s' := Apply(c, s, step); !s'.dropped ==> s'.leaked == multiset{}
  {
    if step.Release? {
      OwedIsAccounted(s, step.task, step.node);
      assert !s.dropped ==> ReferencesOf(s, step.node) > 0;
    }
  }

  // ----- theorems over whole runs -----

  ghost predicate Inv(c: Config, s: State) {
    Inverse(c, s) && GlobalPermits(c, s) && AllSessionPermits(c, s) && References(s) && Batches(s)
  }

  lemma InitialInv(c: Config)
    requires c.Accepted()
    ensures Inv(c, Initial(c))
  {
    var s := Initial(c);
    assert Matching(s.tasks, Global) == {};
    forall n | n != ROOT ensures ReferencesOf(s, n) == Accounted(s, n) {
      assert Trackers(s.sessions, n) == {} && Matching(s.tasks, Owes(n)) == {};
    }
  }

  lemma {:induction false} RunKeepsInv(c: Config, states: seq<State>, steps: seq<Step>, i: nat)
    requires c.Accepted() && IsRun(c, states, steps) && i < |states|
    ensures Inv(c, states[i])
  {
    if i == 0 {
      InitialInv(c);
    } else {
      RunKeepsInv(c, states, steps, i - 1);
      var s, step := states[i - 1], steps[i - 1];
      StepKeepsInverse(c, s, step);
      StepKeepsGlobalPermits(c, s, step);
      StepKeepsSessionPermits(c, s, step);
      StepKeepsReferences(c, s, step);
      StepKeepsBatches(c, s, step);
    }
  }

  /** In every reachable state the two maps are mutually inverse and hold the root, and neither the
      registry nor a session's working set exceeds its limit. */
  lemma RegistryIsConsistent(c: Config, states: seq<State>, steps: seq<Step>, i: nat)
    requires c.Accepted() && IsRun(c, states, steps) && i < |states|
    ensures forall n, d :: (n in states[i].byNode && states[i].byNode[n].identity == d) <==> (d in states[i].byIdentity && states[i].byIdentity[d] == n)
    ensures ROOT in states[i].byNode && |states[i].byNode| <= c.maxTotal
    ensures forall e :: e in states[i].sessions ==> ROOT in states[i].sessions[e].known && |states[i].sessions[e].known| <= c.maxKnown
  {
    RunKeepsInv(c, states, steps, i);
  }

  /** With nothing dropped, a global eviction takes only nodes that no session tracks. */
  lemma GlobalEvictionSparesTracked(c: Config, states: seq<State>, steps: seq<Step>, i: nat)
    requires c.Accepted() && IsRun(c, states, steps) && i < |steps| && steps[i].EvictGlobal? && !states[i].dropped
    ensures steps[i].node != ROOT && Trackers(states[i].sessions, steps[i].node) == {}
  {
    RunKeepsInv(c, states, steps, i);
    assert ReferencesOf(states[i], steps[i].node) == Accounted(states[i], steps[i].node);
  }

  /** The handle was opened on the node by step `k` and not closed before state `j`. */
  ghost predicate OpenedSince(steps: seq<Step>, k: nat, j: nat, session: nat, h: nat, node: NodeId)
    requires k < j <= |steps|
  {
    steps[k] == OpenHandle(session, h, node) && forall m :: k < m < j ==> steps[m] != CloseHandle(session, h)
  }

  predicate IsNodeStep(step: Step) { step.Remember? || step.Track? || step.Release? }

  lemma RememberKeepsHandles(c: Config, s: State, task: nat, identity: Identity, session: nat)
    requires Enabled(s, Remember(task, identity)) && session in s.sessions
    ensures var sessions := RememberReserved(c, s, task, identity).sessions;
            session in sessions && sessions[session].handles == s.sessions[session].handles && sessions[session].known == s.sessions[session].known
  {
  }

  lemma TrackKeepsHandles(s: State, task: nat, session: nat)
    requires Enabled(s, Track(task)) && session in s.sessions
    ensures var sessions := TrackNode(s, task).sessions;
            session in sessions && sessions[session].handles == s.sessions[session].handles && s.sessions[session].known <= sessions[session].known
  {
  }

  lemma ReleaseKeepsSessions(s: State, task: nat, node: NodeId)
    requires Enabled(s, Release(task, node))
    ensures ReleaseReference(s, task, node).sessions == s.sessions
  {
  }

  lemma NodeStepKeepsHandles(c: Config, s: State, step: Step, session: nat)
    requires Enabled(s, step) && session in s.sessions && IsNodeStep(step)
    ensures var sessions := Apply(c, s, step).sessions;
            session in sessions && sessions[session].handles == s.sessions[session].handles && s.sessions[session].known <= sessions[session].known
  {
    match step {
      case Remember(task, identity) => RememberKeepsHandles(c, s, task, identity, session);
      case Track(task) => TrackKeepsHandles(s, task, session);
      case Release(task, node) => ReleaseKeepsSessions(s, task, node);
    }
  }

  lemma OtherStepKeepsHandles(c: Config, s: State, step: Step, session: nat)
    requires Enabled(s, step) && session in s.sessions && session in Apply(c, s, step).sessions
    requires !step.OpenHandle? && !step.CloseHandle? && !IsNodeStep(step)
    ensures Apply(c, s, step).sessions[session].handles == s.sessions[session].handles
  {
  }

  lemma HandleStep(c: Config, s: State, step: Step, session: nat, h: nat)
    requires Enabled(s, step) && session in s.sessions && session in Apply(c, s, step).sessions
    ensures h in Apply(c, s, step).sessions[session].handles ==>
              var node := Apply(c, s, step).sessions[session].handles[h];
              step != CloseHandle(session, h)
              && (step == OpenHandle(session, h, node) || (h in s.sessions[session].handles && s.sessions[session].handles[h] == node))
    ensures step.OpenHandle? && step.session == session && step.handle == h ==>
              h in Apply(c, s, step).sessions[session].handles && Apply(c, s, step).sessions[session].handles[h] == step.node
    ensures h in s.sessions[session].handles && step != CloseHandle(session, h) ==>
              h in Apply(c, s, step).sessions[session].handles && Apply(c, s, step).sessions[session].handles[h] == s.sessions[session].handles[h]
  {
    if IsNodeStep(step) {
      NodeStepKeepsHandles(c, s, step, session);
    } else if !step.OpenHandle? && !step.CloseHandle? {
      OtherStepKeepsHandles(c, s, step, session);
    }
  }

  /** An open handle was already open at `i`, or was opened since and not closed. */
  lemma {:induction false} HandleComesFromOpen(c: Config, states: seq<State>, steps: seq<Step>, i: nat, j: nat, session: nat, h: nat, node: NodeId)
    requires c.Accepted() && IsRun(c, states, steps) && i <= j < |states|
    requires forall k :: i <= k <= j ==> session in states[k].sessions
    requires h in states[j].sessions[session].handles && states[j].sessions[session].handles[h] == node
    requires node !in HandleNodes(states[i].sessions[session])
    ensures exists k :: i <= k < j && OpenedSince(steps, k, j, session, h, node)
  {
    if j > i {
      HandleStep(c, states[j - 1], steps[j - 1], session, h);
      if steps[j - 1] == OpenHandle(session, h, node) {
        assert OpenedSince(steps, j - 1, j, session, h, node);
      } else {
        HandleComesFromOpen(c, states, steps, i, j - 1, session, h, node);
        var k :| i <= k < j - 1 && OpenedSince(steps, k, j - 1, session, h, node);
        assert OpenedSince(steps, k, j, session, h, node);
      }
    }
  }

  /** A handle opened since and not closed is open. */
  lemma {:induction false} OpenedHandleStays(c: Config, states: seq<State>, steps: seq<Step>, k: nat, j: nat, session: nat, h: nat, node: NodeId)
    requires c.Accepted() && IsRun(c, states, steps) && k < j < |states|
    requires forall m :: k <= m <= j ==> session in states[m].sessions
    requires OpenedSince(steps, k, j, session, h, node)
    ensures h in states[j].sessions[session].handles && states[j].sessions[session].handles[h] == node
  {
    HandleStep(c, states[j - 1], steps[j - 1], session, h);
    if k < j - 1 {
      assert OpenedSince(steps, k, j - 1, session, h, node);
      OpenedHandleStays(c, states, steps, k, j - 1, session, h, node);
    }
  }

  /** The session of a pending eviction is alive throughout. */
  lemma PinnedSessionLives(c: Config, states: seq<State>, steps: seq<Step>, k: nat, task: nat, session: nat)
    requires c.Accepted() && IsRun(c, states, steps) && k < |states|
    requires task in states[k].tasks && states[k].tasks[task].Pinned? && states[k].tasks[task].session == session
    ensures session in states[k].sessions
  {
    RunKeepsInv(c, states, steps, k);
    assert Live(states[k]);
  }

  /** A session eviction never takes the root, nor a node behind a handle that was open when the
      eviction listed the handles. It takes a node behind an open handle if and only if such a handle
      was opened since the listing and has not been closed. */
  lemma SessionEvictionSparesHandles(c: Config, states: seq<State>, steps: seq<Step>, i: nat, j: nat, task: nat, session: nat, node: NodeId)
    requires c.Accepted() && IsRun(c, states, steps) && i < j < |steps|
    requires steps[i] == Pin(task, session) && steps[j] == EvictSession(task, node)
    requires forall k :: i < k <= j ==> task in states[k].tasks && states[k].tasks[task] == states[i + 1].tasks[task]
    ensures node != ROOT && session in states[i].sessions && session in states[j].sessions
    ensures node !in HandleNodes(states[i].sessions[session])
    ensures node in HandleNodes(states[j].sessions[session]) <==> exists k, h :: i < k < j && OpenedSince(steps, k, j, session, h, node)
  {
    assert states[i + 1].tasks[task] == Pinned(session, HandleNodes(states[i].sessions[session]));
    assert states[i + 1].sessions == states[i].sessions;
    forall k | i < k <= j ensures session in states[k].sessions {
      PinnedSessionLives(c, states, steps, k, task, session);
    }
    if node in HandleNodes(states[j].sessions[session]) {
      var h :| h in states[j].sessions[session].handles && states[j].sessions[session].handles[h] == node;
      HandleComesFromOpen(c, states, steps, i + 1, j, session, h, node);
    }
    if k, h :| i < k < j && OpenedSince(steps, k, j, session, h, node) {
      OpenedHandleStays(c, states, steps, k, j, session, h, node);
    }
  }

  // ----- references nobody accounts for -----

  /** A forget request meets a node that is registered without references, with `n` still to release. */
  predicate Abandons(s: State, step: Step, n: NodeId) {
    && step.Release? && step.task in s.tasks && s.tasks[step.task].Releasing? && s.tasks[step.task].stopsOnError
    && step.node in s.byNode && s.byNode[step.node].references == 0 && n in s.tasks[step.task].batch - {step.node}
  }

  /** How often a forget request was cut short with `n` still to release. */
  function TimesAbandoned(states: seq<State>, steps: seq<Step>, i: nat, n: NodeId): nat
    requires i <= |steps| <= |states|
  {
    if i == 0 then 0
    else TimesAbandoned(states, steps, i - 1, n) + if Abandons(states[i - 1], steps[i - 1], n) then 1 else 0
  }

  lemma LeakStep(c: Config, s: State, step: Step, n: NodeId)
    requires Enabled(s, step)
    ensures Apply(c, s, step).leaked[n] == s.leaked[n] + if Abandons(s, step, n) then 1 else 0
  {
  }

  lemma {:induction false} LeakedCounts(c: Config, states: seq<State>, steps: seq<Step>, i: nat, n: NodeId)
    requires c.Accepted() && IsRun(c, states, steps) && i <= |steps|
    ensures states[i].leaked[n] == TimesAbandoned(states, steps, i, n)
  {
    if i > 0 {
      LeakedCounts(c, states, steps, i - 1, n);
      LeakStep(c, states[i - 1], steps[i - 1], n);
    }
  }

  /** The sessions that track the node and the releases of it under way. */
  ghost function Covered(s: State, n: NodeId): nat { |Trackers(s.sessions, n)| + |Matching(s.tasks, Owes(n))| }

  /** References equal the sessions tracking the node plus the releases under way until some node is
      dropped by a remove or a rename. From then on they are at most that much, plus one for every
      time a forget request was cut short with this node still to release. */
  lemma ReferencesAreConserved(c: Config, states: seq<State>, steps: seq<Step>, i: nat, n: NodeId)
    requires c.Accepted() && IsRun(c, states, steps) && i < |states| && n in states[i].byNode && n != ROOT
    ensures states[i].byNode[n].references <= Covered(states[i], n) + TimesAbandoned(states, steps, i, n)
    ensures !states[i].dropped ==> states[i].byNode[n].references == Covered(states[i], n)
  {
    RunKeepsInv(c, states, steps, i);
    assert ReferencesOf(states[i], n) <= Accounted(states[i], n);
    LeakedCounts(c, states, steps, i, n);
  }

  /** In a run that never cuts a forget request short with `n` left, its references never exceed the
      sessions tracking it plus the releases under way, whatever was dropped. */
  lemma {:induction false} NeverAbandonedNeverExceeds(c: Config, states: seq<State>, steps: seq<Step>, i: nat, n: NodeId)
    requires c.Accepted() && IsRun(c, states, steps) && i < |states| && n in states[i].byNode && n != ROOT
    requires forall k :: 0 <= k < i ==> !Abandons(states[k], steps[k], n)
    ensures states[i].byNode[n].references <= Covered(states[i], n)
  {
    NeverAbandoned(states, steps, i, n);
    ReferencesAreConserved(c, states, steps, i, n);
  }

  lemma {:induction false} NeverAbandoned(states: seq<State>, steps: seq<Step>, i: nat, n: NodeId)
    requires i <= |steps| <= |states|
    requires forall k :: 0 <= k < i ==> !Abandons(states[k], steps[k], n)
    ensures TimesAbandoned(states, steps, i, n) == 0
  {
    if i > 0 {
      NeverAbandoned(states, steps, i - 1, n);
    }
  }

  /** Cutting a forget request short takes one coming release away and leaves references and tracking
      sessions as they were, so the references exceed what covers them, by one, if and only if they
      matched it before. */
  lemma CutShortForgetExceeds(c: Config, s: State, step: Step, n: NodeId)
    requires Enabled(s, step) && Abandons(s, step, n) && n in s.byNode
    ensures var s' := Apply(c, s, step);
            && n in s'.byNode && s'.byNode[n].references == s.byNode[n].references && Trackers(s'.sessions, n) == Trackers(s.sessions, n)
            && (s'.byNode[n].references == Covered(s', n) + 1 <==> s.byNode[n].references == Covered(s, n))
  {
    OneTaskMoves(c, s, step);
    CountChanges(s.tasks, Apply(c, s, step).tasks, step.task, Owes(n));
  }

  // ----- remembering an identity -----

  /** The request fails: the identifier derived for a new identity is the root's or in use. */
  predicate Collides(c: Config, s: State, identity: Identity) {
    identity !in s.byIdentity && (c.stable(identity) == ROOT || c.stable(identity) in s.byNode)
  }

  /** A request to remember an identity goes on to track the node registered for exactly that identity,
      unless the derived identifier collides; then it ends and registers nothing. */
  lemma RememberFindsTheIdentity(c: Config, states: seq<State>, steps: seq<Step>, i: nat)
    requires c.Accepted() && IsRun(c, states, steps) && i < |steps| && steps[i].Remember?
    ensures var (s, s', Remember(task, identity)) := (states[i], states[i + 1], steps[i]);
            if Collides(c, s, identity) then task !in s'.tasks && s'.byNode == s.byNode && s'.byIdentity == s.byIdentity
            else
              && identity in s'.byIdentity && s'.byIdentity[identity] in s'.byNode && s'.byNode[s'.byIdentity[identity]].identity == identity
              && task in s'.tasks && s'.tasks[task] == Tracking(s.tasks[task].session, s'.byIdentity[identity])
              && (identity in s.byIdentity ==> s'.byNode == s.byNode && s'.byIdentity == s.byIdentity)
  {
    RunKeepsInv(c, states, steps, i);
  }

  /** The step is one of this task. */
  predicate Own(step: Step, task: nat) {
    !step.Connect? && !step.OpenHandle? && !step.CloseHandle? && !step.EvictGlobal? && !step.Drop? && TaskOf(step) == task
  }

  lemma {:induction false} TaskWaits(c: Config, states: seq<State>, steps: seq<Step>, i: nat, j: nat, task: nat)
    requires c.Accepted() && IsRun(c, states, steps) && i <= j < |states| && task in states[i].tasks
    requires forall k :: i <= k < j ==> !Own(steps[k], task)
    ensures task in states[j].tasks && states[j].tasks[task] == states[i].tasks[task]
  {
    if i < j {
      TaskWaits(c, states, steps, i, j - 1, task);
      OneTaskMoves(c, states[j - 1], steps[j - 1]);
    }
  }

  /** Tracking ends the request; the session then knows the node besides what it knew, provided the node
      is still registered, and knows nothing else. */
  lemma TrackKnows(c: Config, s: State, task: nat)
    requires Enabled(s, Track(task))
    ensures var (s', Tracking(session, node)) := (Apply(c, s, Track(task)), s.tasks[task]);
            && task !in s'.tasks && session in s'.sessions
            && s'.sessions[session].known == s.sessions[session].known + if node in s.byNode then {node} else {}
  {
  }

  /** Remembering an identity and then tracking: whatever other requests do in between, the session comes
      to know the node that was registered for this identity, if it is still registered by then. */
  lemma RememberedIsTracked(c: Config, states: seq<State>, steps: seq<Step>, i: nat, j: nat)
    requires c.Accepted() && IsRun(c, states, steps) && i < j < |steps| && steps[i].Remember? && steps[j] == Track(steps[i].task)
    requires !Collides(c, states[i], steps[i].identity) && forall k :: i < k < j ==> !Own(steps[k], steps[i].task)
    ensures var Remember(task, identity) := steps[i];
            && identity in states[i + 1].byIdentity && task in states[i].tasks && states[i].tasks[task].Granted?
            && var (session, node) := (states[i].tasks[task].session, states[i + 1].byIdentity[identity]);
            && node in states[i + 1].byNode && states[i + 1].byNode[node].identity == identity
            && session in states[j].sessions && session in states[j + 1].sessions
            && states[j + 1].sessions[session].known == states[j].sessions[session].known + if node in states[j].byNode then {node} else {}
  {
    RememberFindsTheIdentity(c, states, steps, i);
    TaskWaits(c, states, steps, i + 1, j, steps[i].task);
    TrackKnows(c, states[j], steps[i].task);
  }

  /** The same for a node a request has found by itself. */
  lemma ChosenIsTracked(c: Config, states: seq<State>, steps: seq<Step>, i: nat, j: nat)
    requires c.Accepted() && IsRun(c, states, steps) && i < j < |steps| && steps[i].Choose? && steps[j] == Track(steps[i].task)
    requires forall k :: i < k < j ==> !Own(steps[k], steps[i].task)
    ensures var Choose(task, node) := steps[i];
            && task in states[i].tasks && states[i].tasks[task].Reserved?
            && var session := states[i].tasks[task].session;
            && session in states[j].sessions && session in states[j + 1].sessions
            && states[j + 1].sessions[session].known == states[j].sessions[session].known + if node in states[j].byNode then {node} else {}
  {
    TaskWaits(c, states, steps, i + 1, j, steps[i].task);
    TrackKnows(c, states[j], steps[i].task);
  }

  // ----- what a session knows -----

  /** The step takes the node from the session: a forget request for it, its eviction, or the end of the
      session. */
  predicate Takes(s: State, step: Step, session: nat, node: NodeId) {
    || (step.Forget? && step.session == session && node in step.requested && node != ROOT)
    || (step.EvictSession? && step.node == node && step.task in s.tasks && Serves(s.tasks[step.task], session))
    || (step.Disconnect? && step.session == session)
  }

  predicate Knows(s: State, session: nat, node: NodeId) { session in s.sessions && node in s.sessions[session].known }

  lemma StepKeepsKnown(c: Config, s: State, step: Step, session: nat, node: NodeId)
    requires Enabled(s, step) && Knows(s, session, node)
    ensures Knows(Apply(c, s, step), session, node) <==> !Takes(s, step, session, node)
  {
    if IsNodeStep(step) {
      NodeStepKeepsHandles(c, s, step, session);
    }
  }

  /** Step `k` does not make the session lose the node. */
  predicate StaysKnown(states: seq<State>, k: nat, session: nat, node: NodeId)
    requires k + 1 < |states|
  {
    Knows(states[k], session, node) ==> Knows(states[k + 1], session, node)
  }

  lemma {:induction false} KnowledgePropagates(states: seq<State>, i: nat, j: nat, session: nat, node: NodeId)
    requires i <= j < |states| && Knows(states[i], session, node)
    requires forall k :: i <= k < j ==> StaysKnown(states, k, session, node)
    ensures Knows(states[j], session, node)
  {
    if i < j {
      KnowledgePropagates(states, i, j - 1, session, node);
      assert StaysKnown(states, j - 1, session, node);
    }
  }

  /** A session knows a node until one of these steps takes it, whatever the other sessions do. */
  lemma KnownUntilTaken(c: Config, states: seq<State>, steps: seq<Step>, i: nat, j: nat, session: nat, node: NodeId)
    requires c.Accepted() && IsRun(c, states, steps) && i <= j < |states| && Knows(states[i], session, node)
    requires forall k :: i <= k < j ==> !Takes(states[k], steps[k], session, node)
    ensures Knows(states[j], session, node)
  {
    forall k | i <= k < j ensures StaysKnown(states, k, session, node) {
      if Knows(states[k], session, node) {
        StepKeepsKnown(c, states[k], steps[k], session, node);
      }
    }
    KnowledgePropagates(states, i, j, session, node);
  }
}
