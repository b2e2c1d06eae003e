/**
 The remembered paths of the node registry and what unlink and rename do to them,
 against the namespace of the exported file system. A namespace maps a path to the
 identity of the file it names; hard links give one identity several paths.
 */
module PathRegistry {
  import opened Common

  type Path = seq<string>
  type Identity = nat
  type NodeId = nat
  type Namespace = Path -> Option<Identity>

  const ROOT: NodeId := 0

  datatype RenameMode = Replace | NoReplace | Exchange

  datatype Known = Known(identity: Identity, paths: set<Path>)

  datatype Registry = Registry(byNode: map<NodeId, Known>, byIdentity: map<Identity, NodeId>)

  // ----- the file system -----

  /** Whatever has a descendant exists. */
  ghost predicate Tree(ns: Namespace) { forall p: Path, q: Path :: q <= p && ns(p).Some? ==> ns(q).Some? }

  ghost predicate Leaf(ns: Namespace, path: Path) { forall p: Path :: path < p ==> ns(p).None? }

  /** When `rename` succeeds: nothing moves into itself, only a leaf is replaced, and the flags of the
      two other modes hold. */
  ghost predicate Succeeds(ns: Namespace, from: Path, to: Path, mode: RenameMode) {
    && from != [] && to != [] && ns(from).Some? && ns(to[..|to| - 1]).Some? && !(from < to)
    && (mode == NoReplace ==> ns(to).None?)
    && (mode == Exchange ==> ns(to).Some? && !(to < from))
    && (mode == Replace && ns(to) != ns(from) ==> Leaf(ns, to))
  }

  /** The namespace after a successful `rename`. Two names of one file stay as they are. */
  function Renamed(ns: Namespace, from: Path, to: Path, mode: RenameMode): Namespace {
    if ns(from) == ns(to) then ns
    else
      (p: Path) =>
        if to <= p then ns(from + p[|to|..])
        else if from <= p then if mode == Exchange then ns(to + p[|from|..]) else None
        else ns(p)
  }

  /** The namespace after `unlink` or `rmdir` of a leaf. */
  function Unlinked(ns: Namespace, path: Path): Namespace { (p: Path) => if p == path then None else ns(p) }

  lemma ProperPrefix(a: Path, b: Path)
    ensures a <= b ==> a == b || a < b
  {
    if a <= b && |a| == |b| {
      assert a == b[..|a|];
    }
  }

  /** After a rename that did something, neither path is an ancestor of the other. */
  lemma PathsAreApart(ns: Namespace, from: Path, to: Path, mode: RenameMode)
    requires Tree(ns) && Succeeds(ns, from, to, mode) && ns(from) != ns(to)
    ensures !(from <= to) && !(to <= from)
  {
    ProperPrefix(from, to);
    ProperPrefix(to, from);
    assert to <= from ==> ns(to).Some?;
  }

  lemma ApartBelow(a: Path, b: Path, p: Path)
    requires !(a <= b) && !(b <= a) && a <= p
    ensures !(b <= p)
  {
  }

  lemma Graft(from: Path, to: Path, p: Path)
    requires from <= p
    ensures var q := to + p[|from|..]; to <= q && from + q[|to|..] == p
  {
    var q := to + p[|from|..];
    assert q[|to|..] == p[|from|..] && q[..|to|] == to;
    assert from + p[|from|..] == p;
  }

  lemma RenameKeepsTree(ns: Namespace, from: Path, to: Path, mode: RenameMode)
    requires Tree(ns) && Succeeds(ns, from, to, mode)
    ensures Tree(Renamed(ns, from, to, mode))
  {
    if ns(from) != ns(to) {
      PathsAreApart(ns, from, to, mode);
      var ns' := Renamed(ns, from, to, mode);
      forall p: Path, q: Path | q <= p && ns'(p).Some? ensures ns'(q).Some? {
        AncestorSurvives(ns, from, to, mode, p, q);
      }
    }
  }

  lemma AncestorSurvives(ns: Namespace, from: Path, to: Path, mode: RenameMode, p: Path, q: Path)
    requires Tree(ns) && Succeeds(ns, from, to, mode) && ns(from) != ns(to) && !(from <= to) && !(to <= from)
    requires q <= p && Renamed(ns, from, to, mode)(p).Some?
    ensures Renamed(ns, from, to, mode)(q).Some?
  {
    if to <= p {
      ApartBelow(to, from, p);
      if to <= q {
        assert from + q[|to|..] <= from + p[|to|..];
      } else {
        assert q <= to[..|to| - 1];
        assert !(from <= q);
      }
    } else if from <= p {
      assert !(to <= q);
      if from <= q {
        assert to + q[|from|..] <= to + p[|from|..];
      } else {
        assert q <= from;
      }
    } else {
      assert !(to <= q) && !(from <= q);
    }
  }

  // ----- the registry -----

  /** `replace_prefix`. */
  function ReplacePrefix(path: Path, from: Path, to: Path): Path {
    if from <= path then to + path[|from|..] else path
  }

  /** Where a remembered path goes. */
  function Moved(path: Path, from: Path, to: Path, mode: RenameMode): Path {
    if mode == Exchange && from <= path then ReplacePrefix(path, from, to)
    else if mode == Exchange && to <= path then ReplacePrefix(path, to, from)
    else if from <= path then ReplacePrefix(path, from, to)
    else path
  }

  /** The paths of one node that a replacing rename leaves it. */
  function Spared(known: Known, to: Path, source: Identity): Known {
    if known.identity == source then known else known.(paths := set p | p in known.paths && !(to <= p))
  }

  function Rewritten(known: Known, from: Path, to: Path, mode: RenameMode): Known {
    known.(paths := set p | p in known.paths :: Moved(p, from, to, mode))
  }

  function Pruned(known: Known, path: Path, descendants: bool): Known {
    known.(paths := set p | p in known.paths && if descendants then !(path <= p) else p != path)
  }

  function Empty(byNode: map<NodeId, Known>): set<NodeId> { set n | n in byNode && n != ROOT && byNode[n].paths == {} }

  function WithoutEmpty(r: Registry): Registry {
    Registry(r.byNode - Empty(r.byNode), r.byIdentity - (set n | n in Empty(r.byNode) :: r.byNode[n].identity))
  }

  function SparedAll(byNode: map<NodeId, Known>, to: Path, source: Identity): map<NodeId, Known> {
    map n | n in byNode :: Spared(byNode[n], to, source)
  }

  function RewrittenAll(byNode: map<NodeId, Known>, from: Path, to: Path, mode: RenameMode): map<NodeId, Known> {
    map n | n in byNode :: Rewritten(byNode[n], from, to, mode)
  }

  function PrunedAll(byNode: map<NodeId, Known>, path: Path, descendants: bool): map<NodeId, Known> {
    map n | n in byNode :: if n == ROOT then byNode[n] else Pruned(byNode[n], path, descendants)
  }

  function AfterUnlink(r: Registry, path: Path, descendants: bool): Registry {
    WithoutEmpty(r.(byNode := PrunedAll(r.byNode, path, descendants)))
  }

  function AfterRename(r: Registry, from: Path, to: Path, mode: RenameMode, source: Identity, destination: Option<Identity>): Registry {
    if destination == Some(source) then r
    else
      var spared := if mode == Replace then SparedAll(r.byNode, to, source) else r.byNode;
      WithoutEmpty(r.(byNode := RewrittenAll(spared, from, to, mode)))
  }

  /** The registry as the object it is, with the loops that update it. */
  class Table {
    var byNode: map<NodeId, Known>
    var byIdentity: map<Identity, NodeId>

    constructor (rootIdentity: Identity)
      ensures View() == Registry(map[ROOT := Known(rootIdentity, {[]})], map[rootIdentity := ROOT])
    {
      byNode, byIdentity := map[ROOT := Known(rootIdentity, {[]})], map[rootIdentity := ROOT];
    }

    function View(): Registry
      reads this
    {
      Registry(byNode, byIdentity)
    }

    method Spare(to: Path, source: Identity)
      modifies this`byNode
      ensures byNode == SparedAll(old(byNode), to, source)
    {
      var todo := byNode.Keys;
      while todo != {}
        invariant todo <= byNode.Keys == old(byNode.Keys)
        invariant forall n :: n in byNode ==> byNode[n] == if n in todo then old(byNode)[n] else Spared(old(byNode)[n], to, source)
        decreases |todo|
      {
        var n :| n in todo;
        byNode := byNode[n := Spared(byNode[n], to, source)];
        todo := todo - {n};
      }
    }

    method Rewrite(from: Path, to: Path, mode: RenameMode)
      modifies this`byNode
      ensures byNode == RewrittenAll(old(byNode), from, to, mode)
    {
      var todo := byNode.Keys;
      while todo != {}
        invariant todo <= byNode.Keys == old(byNode.Keys)
        invariant forall n :: n in byNode ==> byNode[n] == if n in todo then old(byNode)[n] else Rewritten(old(byNode)[n], from, to, mode)
        decreases |todo|
      {
        var n :| n in todo;
        byNode := byNode[n := Rewritten(byNode[n], from, to, mode)];
        todo := todo - {n};
      }
    }

    method Prune(path: Path, descendants: bool)
      modifies this`byNode
      ensures byNode == PrunedAll(old(byNode), path, descendants)
    {
      var todo := byNode.Keys - {ROOT};
      while todo != {}
        invariant todo <= byNode.Keys == old(byNode.Keys) && ROOT !in todo
        invariant forall n :: n in byNode ==>
                    byNode[n] == if n in todo || n == ROOT then old(byNode)[n] else Pruned(old(byNode)[n], path, descendants)
        decreases |todo|
      {
        var n :| n in todo;
        byNode := byNode[n := Pruned(byNode[n], path, descendants)];
        todo := todo - {n};
      }
    }

    method DropEmpty()
      modifies this
      ensures View() == WithoutEmpty(old(View()))
    {
      ghost var was := View();
      var empty := Empty(byNode);
      var todo := empty;
      while todo != {}
        invariant todo <= empty
        invariant byNode == was.byNode - (empty - todo)
        invariant byIdentity == was.byIdentity - (set n | n in empty - todo :: was.byNode[n].identity)
        decreases |todo|
      {
        var n :| n in todo;
        byNode, byIdentity := byNode - {n}, byIdentity - {byNode[n].identity};
        todo := todo - {n};
      }
    }

    /** `remove_registry_path`. */
    method RemovePath(path: Path, descendants: bool)
      modifies this
      ensures View() == AfterUnlink(old(View()), path, descendants)
    {
      Prune(path, descendants);
      DropEmpty();
    }

    /** `update_registry_after_rename`. */
    method UpdateAfterRename(from: Path, to: Path, mode: RenameMode, source: Identity, destination: Option<Identity>)
      modifies this
      ensures View() == AfterRename(old(View()), from, to, mode, source, destination)
    {
      if destination == Some(source) {
        return;
      }
      if mode == Replace {
        Spare(to, source);
      }
      Rewrite(from, to, mode);
      DropEmpty();
    }
  }

  // ----- truth -----

  /** Every remembered path names its node's identity. */
  ghost predicate Truthful(r: Registry, ns: Namespace) {
    forall n, p :: n in r.byNode && p in r.byNode[n].paths ==> ns(p) == Some(r.byNode[n].identity)
  }

  ghost predicate Inverse(r: Registry) {
    && (forall n :: n in r.byNode ==> r.byNode[n].identity in r.byIdentity && r.byIdentity[r.byNode[n].identity] == n)
    && (forall i :: i in r.byIdentity ==> r.byIdentity[i] in r.byNode && r.byNode[r.byIdentity[i]].identity == i)
  }

  lemma DropKeepsTruth(r: Registry, ns: Namespace)
    requires Truthful(r, ns)
    ensures Truthful(WithoutEmpty(r), ns)
  {
  }

  lemma DropKeepsInverse(r: Registry)
    requires Inverse(r)
    ensures Inverse(WithoutEmpty(r))
  {
  }

  /** A path that is kept names after the rename, at its new place, what it named before. */
  lemma MovedNamesSame(ns: Namespace, from: Path, to: Path, mode: RenameMode, p: Path)
    requires Tree(ns) && Succeeds(ns, from, to, mode) && ns(from) != ns(to) && ns(p).Some?
    requires mode == Replace ==> !(to <= p)
    ensures Renamed(ns, from, to, mode)(Moved(p, from, to, mode)) == ns(p)
  {
    PathsAreApart(ns, from, to, mode);
    if from <= p {
      Graft(from, to, p);
    } else if mode == Exchange && to <= p {
      Graft(to, from, p);
      ApartBelow(from, to, from + p[|to|..]);
    }
  }

  /** The paths of a node that survive a replacing rename do not lie under its target. */
  lemma SparedIsOutside(ns: Namespace, known: Known, from: Path, to: Path, source: Identity, p: Path)
    requires Succeeds(ns, from, to, Replace) && ns(from) == Some(source) && ns(to) != ns(from)
    requires p in Spared(known, to, source).paths && ns(p) == Some(known.identity)
    ensures !(to <= p)
  {
    ProperPrefix(to, p);
  }

  lemma NodeStaysTrue(ns: Namespace, known: Known, from: Path, to: Path, mode: RenameMode, source: Identity, q: Path)
    requires Tree(ns) && Succeeds(ns, from, to, mode) && ns(from) == Some(source) && ns(to) != ns(from)
    requires forall p :: p in known.paths ==> ns(p) == Some(known.identity)
    requires q in Rewritten(if mode == Replace then Spared(known, to, source) else known, from, to, mode).paths
    ensures Renamed(ns, from, to, mode)(q) == Some(known.identity)
  {
    var spared := if mode == Replace then Spared(known, to, source) else known;
    var p :| p in spared.paths && q == Moved(p, from, to, mode);
    assert p in known.paths;
    if mode == Replace {
      SparedIsOutside(ns, known, from, to, source, p);
    }
    MovedNamesSame(ns, from, to, mode, p);
  }

  /** A rename keeps every remembered path true, in all three modes. */
  lemma RenameKeepsTruth(r: Registry, ns: Namespace, from: Path, to: Path, mode: RenameMode)
    requires Tree(ns) && Succeeds(ns, from, to, mode) && Truthful(r, ns)
    ensures Truthful(AfterRename(r, from, to, mode, ns(from).value, ns(to)), Renamed(ns, from, to, mode))
  {
    if ns(from) != ns(to) {
      var source, ns' := ns(from).value, Renamed(ns, from, to, mode);
      var spared := if mode == Replace then SparedAll(r.byNode, to, source) else r.byNode;
      var moved := r.(byNode := RewrittenAll(spared, from, to, mode));
      forall n, q | n in moved.byNode && q in moved.byNode[n].paths ensures ns'(q) == Some(moved.byNode[n].identity) {
        NodeStaysTrue(ns, r.byNode[n], from, to, mode, source, q);
      }
      DropKeepsTruth(moved, ns');
    }
  }

  /** A rename forgets a remembered path only where its name was replaced. */
  lemma RenameForgetsOnlyReplaced(r: Registry, ns: Namespace, from: Path, to: Path, mode: RenameMode, n: NodeId, p: Path)
    requires Tree(ns) && Succeeds(ns, from, to, mode) && Truthful(r, ns) && n in r.byNode && p in r.byNode[n].paths
    ensures var after := AfterRename(r, from, to, mode, ns(from).value, ns(to));
            var q := if ns(from) == ns(to) then p else Moved(p, from, to, mode);
            (n in after.byNode && q in after.byNode[n].paths) || (mode == Replace && p == to && ns(from) != ns(to))
  {
    ProperPrefix(to, p);
    assert ns(p) == Some(r.byNode[n].identity);
    if ns(from) != ns(to) && !(mode == Replace && to <= p) {
      var source := ns(from).value;
      var known := r.byNode[n];
      var spared := if mode == Replace then Spared(known, to, source) else known;
      assert p in spared.paths;
      assert Moved(p, from, to, mode) in Rewritten(spared, from, to, mode).paths;
    }
  }

  /** Both operations keep the two maps inverse to each other. */
  lemma UpdatesKeepInverse(r: Registry, from: Path, to: Path, mode: RenameMode, source: Identity, destination: Option<Identity>, descendants: bool)
    requires Inverse(r)
    ensures Inverse(AfterRename(r, from, to, mode, source, destination)) && Inverse(AfterUnlink(r, from, descendants))
  {
    var spared := if mode == Replace then SparedAll(r.byNode, to, source) else r.byNode;
    DropKeepsInverse(r.(byNode := RewrittenAll(spared, from, to, mode)));
    DropKeepsInverse(r.(byNode := PrunedAll(r.byNode, from, descendants)));
  }

  /** The root is remembered under its own path only. */
  ghost predicate RootPath(r: Registry) { ROOT in r.byNode && r.byNode[ROOT].paths == {[]} }

  /** Unlinking keeps every remembered path true. */
  lemma UnlinkKeepsTruth(r: Registry, ns: Namespace, path: Path, descendants: bool)
    requires Truthful(r, ns) && path != [] && RootPath(r)
    ensures Truthful(AfterUnlink(r, path, descendants), Unlinked(ns, path))
  {
    var pruned := r.(byNode := PrunedAll(r.byNode, path, descendants));
    assert Truthful(pruned, Unlinked(ns, path));
    DropKeepsTruth(pruned, Unlinked(ns, path));
  }

  /** Unlinking forgets no other path that still has a name. */
  lemma UnlinkForgetsOnlyPath(r: Registry, ns: Namespace, path: Path, descendants: bool, n: NodeId, p: Path)
    requires Truthful(r, ns) && Leaf(ns, path) && n in r.byNode && p in r.byNode[n].paths && p != path
    ensures var after := AfterUnlink(r, path, descendants); n in after.byNode && p in after.byNode[n].paths
  {
    ProperPrefix(path, p);
    assert ns(p) == Some(r.byNode[n].identity);
    assert n == ROOT || p in Pruned(r.byNode[n], path, descendants).paths;
  }

  // ----- whatever the disk says -----

  function PathsOf(r: Registry, n: NodeId): set<Path> { if n in r.byNode then r.byNode[n].paths else {} }

  /** Removing a path takes from every node but the root exactly that path, and what lies below it if asked
      to; a node left without a path is forgotten, and no other. */
  lemma UnlinkIsExact(r: Registry, path: Path, descendants: bool, n: NodeId, p: Path)
    ensures var after := AfterUnlink(r, path, descendants);
            && (p in PathsOf(after, n) <==> p in PathsOf(r, n) && (n == ROOT || if descendants then !(path <= p) else p != path))
            && (n in after.byNode ==> n in r.byNode && after.byNode[n].identity == r.byNode[n].identity)
            && (n in r.byNode && n != ROOT ==> (n in after.byNode <==> PathsOf(after, n) != {}))
  {
  }

  /** The rename takes the path from the node: it lay at or below the target, and the node is not the one
      that moves there. */
  predicate Overwritten(known: Known, to: Path, mode: RenameMode, source: Identity, p: Path) {
    mode == Replace && known.identity != source && to <= p
  }

  /** A rename between different files moves every path of every node that is not overwritten, and leaves
      no other; in particular the node that moves loses none. */
  lemma RenameIsExact(r: Registry, from: Path, to: Path, mode: RenameMode, source: Identity, destination: Option<Identity>, n: NodeId, q: Path)
    requires destination != Some(source)
    ensures var after := AfterRename(r, from, to, mode, source, destination);
            && (q in PathsOf(after, n)
                <==> n in r.byNode && exists p :: p in r.byNode[n].paths && !Overwritten(r.byNode[n], to, mode, source, p) && q == Moved(p, from, to, mode))
            && (n in after.byNode ==> n in r.byNode && after.byNode[n].identity == r.byNode[n].identity)
            && (n in r.byNode && n != ROOT ==> (n in after.byNode <==> PathsOf(after, n) != {}))
  {
    if n in r.byNode {
      var known := r.byNode[n];
      var spared := if mode == Replace then Spared(known, to, source) else known;
      forall p ensures p in spared.paths <==> p in known.paths && !Overwritten(known, to, mode, source, p) {
      }
      var rewritten := Rewritten(spared, from, to, mode).paths;
      assert q in rewritten <==> exists p :: p in spared.paths && q == Moved(p, from, to, mode);
    }
  }

  // ----- any sequence of operations -----

  datatype World = World(ns: Namespace, registry: Registry)

  /** `Link` creates a file or a further name for one; `Remember` registers what a name was seen to name. */
  datatype Op =
    | Link(path: Path, identity: Identity)
    | Remember(path: Path, node: NodeId)
    | Unlink(path: Path, descendants: bool)
    | Rename(from: Path, to: Path, mode: RenameMode)

  ghost predicate Allowed(w: World, op: Op) {
    match op
    case Link(path, _) => path != [] && w.ns(path).None? && w.ns(path[..|path| - 1]).Some?
    case Remember(path, node) =>
      && path != [] && w.ns(path).Some? && node != ROOT
      && (if w.ns(path).value in w.registry.byIdentity then w.registry.byIdentity[w.ns(path).value] == node else node !in w.registry.byNode)
    case Unlink(path, _) => path != [] && w.ns(path).Some? && Leaf(w.ns, path)
    case Rename(from, to, mode) => Succeeds(w.ns, from, to, mode)
  }

  function Remembered(r: Registry, path: Path, node: NodeId, identity: Identity): Registry {
    var paths := if node in r.byNode then r.byNode[node].paths else {};
    Registry(r.byNode[node := Known(identity, paths + {path})], r.byIdentity[identity := node])
  }

  ghost function After(w: World, op: Op): World
    requires Allowed(w, op)
  {
    match op
    case Link(path, identity) => w.(ns := (p: Path) => if p == path then Some(identity) else w.ns(p))
    case Remember(path, node) => w.(registry := Remembered(w.registry, path, node, w.ns(path).value))
    case Unlink(path, descendants) => World(Unlinked(w.ns, path), AfterUnlink(w.registry, path, descendants))
    case Rename(from, to, mode) =>
      World(Renamed(w.ns, from, to, mode), AfterRename(w.registry, from, to, mode, w.ns(from).value, w.ns(to)))
  }

  ghost predicate Inv(w: World) { Tree(w.ns) && Truthful(w.registry, w.ns) && Inverse(w.registry) && RootPath(w.registry) }

  lemma UpdatesKeepRoot(r: Registry, from: Path, to: Path, mode: RenameMode, source: Identity, destination: Option<Identity>, descendants: bool)
    requires RootPath(r) && from != [] && to != []
    ensures RootPath(AfterRename(r, from, to, mode, source, destination)) && RootPath(AfterUnlink(r, from, descendants))
  {
    var known := r.byNode[ROOT];
    assert Spared(known, to, source).paths == {[]} && Rewritten(known, from, to, mode).paths == {[]};
  }

  lemma OpKeepsTree(w: World, op: Op)
    requires Tree(w.ns) && Allowed(w, op)
    ensures Tree(After(w, op).ns)
  {
    match op {
      case Rename(from, to, mode) => RenameKeepsTree(w.ns, from, to, mode);
      case Unlink(path, _) =>
        forall p: Path, q: Path | q <= p && After(w, op).ns(p).Some? ensures After(w, op).ns(q).Some? {
          ProperPrefix(q, p);
        }
      case Link(path, _) =>
        forall p: Path, q: Path | q <= p && After(w, op).ns(p).Some? ensures After(w, op).ns(q).Some? {
          assert p == path && q != path ==> q <= path[..|path| - 1];
        }
      case _ =>
    }
  }

  lemma RememberKeepsInv(w: World, path: Path, node: NodeId)
    requires Inv(w) && Allowed(w, Remember(path, node))
    ensures Inv(After(w, Remember(path, node)))
  {
  }

  lemma OpKeepsInv(w: World, op: Op)
    requires Inv(w) && Allowed(w, op)
    ensures Inv(After(w, op))
  {
    OpKeepsTree(w, op);
    match op {
      case Link(_, _) =>
      case Remember(path, node) => RememberKeepsInv(w, path, node);
      case Unlink(path, descendants) =>
        UnlinkKeepsTruth(w.registry, w.ns, path, descendants);
        UpdatesKeepInverse(w.registry, path, path, Exchange, 0, None, descendants);
        UpdatesKeepRoot(w.registry, path, path, Exchange, 0, None, descendants);
      case Rename(from, to, mode) =>
        RenameKeepsTruth(w.registry, w.ns, from, to, mode);
        UpdatesKeepInverse(w.registry, from, to, mode, w.ns(from).value, w.ns(to), false);
        UpdatesKeepRoot(w.registry, from, to, mode, w.ns(from).value, w.ns(to), false);
    }
  }

  /** After any sequence of operations every remembered path names its node's identity. */
  lemma {:induction false} RegistryStaysTrue(worlds: seq<World>, ops: seq<Op>, i: nat)
    requires |worlds| == |ops| + 1 && Inv(worlds[0]) && i < |worlds|
    requires forall k {:trigger ops[k]} :: 0 <= k < |ops| ==> Allowed(worlds[k], ops[k]) && worlds[k + 1] == After(worlds[k], ops[k])
    ensures Truthful(worlds[i].registry, worlds[i].ns) && Inv(worlds[i])
  {
    if i > 0 {
      RegistryStaysTrue(worlds, ops, i - 1);
      OpKeepsInv(worlds[i - 1], ops[i - 1]);
    }
  }
}
