/** Two reachable states of the node registry in which its counting or its pinning falls short. */
module RegistryExamples {
  import opened Registry

  /** Identities 1 and 2 become nodes 2 and 3. */
  const EXAMPLE := Config(8, 4, 100, (identity: Identity) => identity + 1)

  ghost predicate Reachable(s: State) {
    exists states, steps :: IsRun(EXAMPLE, states, steps) && states[|steps|] == s
  }

  lemma Start()
    ensures Reachable(Initial(EXAMPLE))
  {
    assert IsRun(EXAMPLE, [Initial(EXAMPLE)], []);
  }

  lemma Go(s: State, step: Step) returns (r: State)
    requires Reachable(s) && Enabled(s, step)
    ensures r == Apply(EXAMPLE, s, step) && Reachable(r)
  {
    r := Apply(EXAMPLE, s, step);
    var states, steps :| IsRun(EXAMPLE, states, steps) && states[|steps|] == s;
    var states', steps' := states + [r], steps + [step];
    assert forall i :: 0 <= i < |steps'| ==> steps'[i] == if i < |steps| then steps[i] else step;
    assert IsRun(EXAMPLE, states', steps');
  }

  /** The registry with one session and nothing in flight. */
  function Quiet(byNode: map<NodeId, Entry>, byIdentity: map<Identity, NodeId>, free: nat, session: Session, dropped: bool): State {
    State(byNode, byIdentity, free, map[1 := session], map[], dropped, multiset{})
  }

  /** It has reserved both permits. */
  lemma Reserve(byNode: map<NodeId, Entry>, byIdentity: map<Identity, NodeId>, free: nat, session: Session, dropped: bool) returns (s: State)
    requires Reachable(Quiet(byNode, byIdentity, free, session, dropped)) && free > 0 && session.free > 0
    ensures Reachable(s)
    ensures s == State(byNode, byIdentity, free - 1, map[1 := session.(free := session.free - 1)], map[1 := Granted(1)], dropped, multiset{})
  {
    s := Go(Quiet(byNode, byIdentity, free, session, dropped), AcquireSession(1, 1));
    s := Go(s, AcquireGlobal(1));
  }

  /** It remembers a file that is not registered. */
  lemma RememberNew(s: State, identity: Identity) returns (r: State)
    requires Reachable(s) && s.tasks == map[1 := Granted(1)] && 1 in s.sessions
    requires identity !in s.byIdentity && identity + 1 !in s.byNode
    ensures Reachable(r)
    ensures r == s.(byNode := s.byNode[identity + 1 := Entry(identity, 0)], byIdentity := s.byIdentity[identity := identity + 1],
                    tasks := map[1 := Tracking(1, identity + 1)])
  {
    r := Go(s, Remember(1, identity));
  }

  /** The session looks up a file that is not registered. */
  lemma LookUp(byNode: map<NodeId, Entry>, byIdentity: map<Identity, NodeId>, free: nat, session: Session, dropped: bool, identity: Identity)
    requires Reachable(Quiet(byNode, byIdentity, free, session, dropped)) && free > 0 && session.free > 0
    requires identity !in byIdentity && identity + 1 !in byNode
    ensures var node := identity + 1;
            var known := node in session.known;
            Reachable(Quiet(byNode[node := Entry(identity, if known then 0 else 1)], byIdentity[identity := node], free - 1,
                            if known then session else session.(known := session.known + {node}, free := session.free - 1), dropped))
  {
    var node := identity + 1;
    var s := Reserve(byNode, byIdentity, free, session, dropped);
    s := RememberNew(s, identity);
    s := Go(s, Track(1));
    assert s.tasks == map[];
    assert s.byNode == byNode[node := Entry(identity, if node in session.known then 0 else 1)];
  }

  /** A session that knows nodes 2 and 3. */
  lemma TwoKnown()
    ensures Reachable(Quiet(map[0 := Entry(100, 0), 2 := Entry(1, 1), 3 := Entry(2, 1)], map[100 := 0, 1 := 2, 2 := 3], 5,
                            Session({0, 2, 3}, 1, map[]), false))
  {
    Start();
    var s := Go(Initial(EXAMPLE), Connect(1));
    var root, session := map[0 := Entry(100, 0)], Session({0}, 3, map[]);
    assert s == Quiet(root, map[100 := 0], 7, session, false);
    LookUp(root, map[100 := 0], 7, session, false, 1);
    var one, session' := map[0 := Entry(100, 0), 2 := Entry(1, 1)], Session({0, 2}, 2, map[]);
    assert one == root[2 := Entry(1, 1)] && map[100 := 0, 1 := 2] == map[100 := 0][1 := 2];
    assert session' == session.(known := session.known + {2}, free := 2);
    LookUp(one, map[100 := 0, 1 := 2], 6, session', false, 2);
    assert session'.(known := session'.known + {3}, free := 1) == Session({0, 2, 3}, 1, map[]);
    assert map[100 := 0, 1 := 2][2 := 3] == map[100 := 0, 1 := 2, 2 := 3];
    assert one[3 := Entry(2, 1)] == map[0 := Entry(100, 0), 2 := Entry(1, 1), 3 := Entry(2, 1)];
  }

  /** Node 2 is dropped and remembered again while the session still knows it. */
  lemma DroppedAndBack()
    ensures Reachable(Quiet(map[0 := Entry(100, 0), 3 := Entry(2, 1), 2 := Entry(1, 0)], map[100 := 0, 2 := 3, 1 := 2], 5,
                            Session({0, 2, 3}, 1, map[]), true))
  {
    TwoKnown();
    var byNode, byIdentity := map[0 := Entry(100, 0), 2 := Entry(1, 1), 3 := Entry(2, 1)], map[100 := 0, 1 := 2, 2 := 3];
    var session := Session({0, 2, 3}, 1, map[]);
    var s := Go(Quiet(byNode, byIdentity, 5, session, false), Drop(2));
    var byNode', byIdentity' := map[0 := Entry(100, 0), 3 := Entry(2, 1)], map[100 := 0, 2 := 3];
    assert s.byNode == byNode' && s.byIdentity == byIdentity';
    LookUp(byNode', byIdentity', 6, session, true, 1);
  }

  /** Its forget request then fails on that node, and the other node of the request keeps a reference
      that no session and no coming release accounts for. */
  lemma CutShortForgetLeaks() returns (s: State)
    ensures Reachable(s) && s.tasks == map[]
    ensures 3 in s.byNode && s.byNode[3].references == 1 && Trackers(s.sessions, 3) == {}
  {
    DroppedAndBack();
    var session := Session({0, 2, 3}, 1, map[]);
    s := Quiet(map[0 := Entry(100, 0), 3 := Entry(2, 1), 2 := Entry(1, 0)], map[100 := 0, 2 := 3, 1 := 2], 5, session, true);
    s := Go(s, Forget(1, 1, {2, 3}));
    s := Go(s, Release(1, 2));
    assert s.tasks == map[];
    assert s.sessions.Keys == {1} && 3 !in s.sessions[1].known;
  }

  /** A handle opened between the listing of the handles and the eviction does not save its node. */
  lemma EvictionRacesWithOpen() returns (s: State)
    ensures Reachable(s) && Enabled(s, EvictSession(1, 2))
    ensures 1 in s.sessions && 2 in HandleNodes(s.sessions[1])
  {
    TwoKnown();
    s := Quiet(map[0 := Entry(100, 0), 2 := Entry(1, 1), 3 := Entry(2, 1)], map[100 := 0, 1 := 2, 2 := 3], 5, Session({0, 2, 3}, 1, map[]), false);
    s := Go(s, Pin(1, 1));
    s := Go(s, OpenHandle(1, 7, 2));
    assert s.sessions[1].handles[7] == 2;
  }
}
