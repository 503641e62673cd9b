/** Cycle detection against the graph: walks, reachability, closed walks. */
module Cycles {
  import opened Values
  import opened Workflows
  import opened Engine
  import opened Unfolding
  import E = Executions
  import P = RunProperties

  // ---------- walks in the graph ----------

  predicate HasEdge(w: World, a: string, b: string) {
    exists i :: 0 <= i < |w.edges| && w.edges[i].source == a && w.edges[i].target == b
  }

  predicate IsWalk(w: World, p: seq<string>) {
    p != [] && forall i :: 0 <= i < |p| - 1 ==> HasEdge(w, p[i], p[i + 1])
  }

  ghost predicate WalkFromTo(w: World, p: seq<string>, a: string, b: string) {
    IsWalk(w, p) && p[0] == a && p[|p| - 1] == b
  }

  ghost predicate Reaches(w: World, a: string, b: string) {
    exists p :: WalkFromTo(w, p, a, b)
  }

  /** A walk of at least one edge leads from n back to n. */
  ghost predicate OnCycle(w: World, n: string) {
    exists p :: WalkFromTo(w, p, n, n) && |p| >= 2
  }

  ghost predicate CycleReachable(w: World, a: string) {
    exists n :: Reaches(w, a, n) && OnCycle(w, n)
  }

  lemma SuccessorsAreEdges(w: World, id: string)
    ensures forall t :: t in Successors(w, id) <==> HasEdge(w, id, t)
  {
    var out := OutEdges(w.edges, id);
    forall t | t in Successors(w, id) ensures HasEdge(w, id, t) {
      var i :| 0 <= i < |out| && out[i].target == t;
      assert out[i] in out;
    }
    forall t | HasEdge(w, id, t) ensures t in Successors(w, id) {
      var i :| 0 <= i < |w.edges| && w.edges[i].source == id && w.edges[i].target == t;
      assert w.edges[i] in out;
      var k :| 0 <= k < |out| && out[k] == w.edges[i];
      assert Successors(w, id)[k] == t;
    }
  }

  lemma {:induction false} BranchIsAnEdge(edges: seq<Edge>, handle: string)
    ensures forall t :: t in BranchTargets(edges, handle) ==> exists e :: e in edges && e.target == t
    decreases |edges|
  {
    if edges == [] {
    } else {
      if edges[0].sourceHandle == Some(handle) {
        assert edges[0] in edges;
      } else {
        BranchIsAnEdge(edges[1..], handle);
      }
    }
  }

  lemma NextIsAnEdge(w: World, id: string, branch: Option<bool>)
    requires id in w.nodes
    ensures forall t :: t in NextOf(w, id, branch) ==> HasEdge(w, id, t)
  {
    SuccessorsAreEdges(w, id);
    if w.nodes[id].kind.Conditional? && branch.Some? {
      BranchIsAnEdge(OutEdges(w.edges, id), if branch.value then "true" else "false");
      forall t | t in NextOf(w, id, branch) ensures HasEdge(w, id, t) {
        var e :| e in OutEdges(w.edges, id) && e.target == t;
        assert e in w.edges;
      }
    }
  }

  lemma ExtendWalk(w: World, p: seq<string>, b: string)
    requires IsWalk(w, p) && HasEdge(w, p[|p| - 1], b)
    ensures IsWalk(w, p + [b])
  {
  }

  // ---------- soundness ----------

  ghost function Elements(stack: seq<string>): set<string> {
    set x | x in stack
  }

  /** What a cycle or missing-node error says about the graph. */
  ghost predicate ErrorIsReal(w: World, root: string, err: Option<E.RunError>) {
    match err
    case Some(CycleDetected(n)) => OnCycle(w, n) && Reaches(w, root, n)
    case Some(NodeNotFound(n)) => n !in w.nodes && Reaches(w, root, n)
    case _ => true
  }

  lemma ErrorAtNode(w: World, stack: seq<string>, id: string)
    requires IsWalk(w, stack + [id])
    ensures Reaches(w, (stack + [id])[0], id)
    ensures id in stack ==> OnCycle(w, id)
  {
    var p := stack + [id];
    assert WalkFromTo(w, p, p[0], id);
    if id in stack {
      var k :| 0 <= k < |stack| && stack[k] == id;
      assert WalkFromTo(w, p[k..], id, id) by {
        forall i | 0 <= i < |p[k..]| - 1 ensures HasEdge(w, p[k..][i], p[k..][i + 1]) {
          assert p[k..][i] == p[k + i] && p[k..][i + 1] == p[k + i + 1];
        }
      }
    }
  }

  /** With conditionals too, under any environment: a cycle error names a node on a real closed walk
      reachable from the root, and a missing-node error a node that edges reach but that is unknown. */
  lemma {:induction false} ErrorsAreReal(w: World, stack: seq<string>, id: string, s: St)
    requires WellKeyed(w.nodes) && IsWalk(w, stack + [id])
    ensures ErrorIsReal(w, (stack + [id])[0], Visit(w, Elements(stack), id, s).0)
    decreases |w.nodes.Keys - Elements(stack)|, 0
  {
    var path := Elements(stack);
    ErrorAtNode(w, stack, id);
    if w.env.expired(s.now) || id in path || id !in w.nodes {
    } else {
      VisitEquation(w, path, id, s);
      NoSuchErrors(w, id, s.Later());
      var p := ProcessNode(w, id, s.Later());
      if p.error.None? {
        TargetsAreEdges(w, id, s.Later());
        PathGrows(w, path, id);
        PushedElements(stack, id);
        ErrorsBelowAreReal(w, stack + [id], p.targets, p.after);
      }
    }
  }

  lemma PushedElements(stack: seq<string>, id: string)
    ensures Elements(stack + [id]) == Elements(stack) + {id}
  {
  }

  lemma TargetsAreEdges(w: World, id: string, s: St)
    requires WellKeyed(w.nodes) && id in w.nodes && ProcessNode(w, id, s).error.None?
    ensures forall t :: t in ProcessNode(w, id, s).targets ==> HasEdge(w, id, t)
  {
    var branch := ProcessedNode(w, id, s);
    NextIsAnEdge(w, id, branch);
  }

  lemma NoSuchErrors(w: World, id: string, s: St)
    requires id in w.nodes
    ensures var e := ProcessNode(w, id, s).error;
            e.Some? ==> e.value.NodeFailed? || e.value.StateConflict? || e.value.PersistFailed?
  {
  }

  lemma {:induction false} ErrorsBelowAreReal(w: World, stack: seq<string>, targets: seq<string>, s: St)
    requires WellKeyed(w.nodes) && IsWalk(w, stack)
    requires forall t :: t in targets ==> HasEdge(w, stack[|stack| - 1], t)
    ensures ErrorIsReal(w, stack[0], VisitAll(w, Elements(stack), targets, s).0)
    decreases |w.nodes.Keys - Elements(stack)|, |targets|
  {
    if targets == [] {
    } else {
      assert targets[0] in targets;
      ExtendWalk(w, stack, targets[0]);
      ErrorsAreReal(w, stack, targets[0], s);
      var (err, s1) := Visit(w, Elements(stack), targets[0], s);
      assert forall t :: t in targets[1..] ==> t in targets;
      if err.None? { ErrorsBelowAreReal(w, stack, targets[1..], s1); }
    }
  }

  // ---------- completeness ----------

  ghost predicate Simple(p: seq<string>) {
    forall i, j :: 0 <= i < j < |p| ==> p[i] != p[j]
  }

  /** No conditional node can be reached from a. */
  ghost predicate Unconditional(w: World, a: string) {
    forall n :: Reaches(w, a, n) && n in w.nodes ==> !w.nodes[n].kind.Conditional?
  }

  lemma ReachesNext(w: World, a: string, b: string, c: string)
    requires Reaches(w, a, b) && HasEdge(w, b, c)
    ensures Reaches(w, a, c)
  {
    var p :| WalkFromTo(w, p, a, b);
    ExtendWalk(w, p, c);
    assert WalkFromTo(w, p + [c], a, c);
  }

  lemma ReachesSelf(w: World, a: string)
    ensures Reaches(w, a, a)
  {
    assert WalkFromTo(w, [a], a, a);
  }

  /** A whole unfolding without conditionals meets every walk from its root: such a walk stays off
      the path, repeats no node, and knows all its nodes. */
  lemma {:induction false} WholeMeetsWalks(w: World, root: string, path: set<string>, t: Tree, p: seq<string>)
    requires Unconditional(w, root) && Reaches(w, root, t.id)
    requires Unfolds(w, path, t) && t.whole && IsWalk(w, p) && p[0] == t.id
    ensures Simple(p) && forall i :: 0 <= i < |p| ==> p[i] in w.nodes && p[i] !in path
    decreases |p|
  {
    if |p| == 1 {
    } else {
      var q := p[1..];
      assert HasEdge(w, p[0], p[1]);
      SuccessorsAreEdges(w, t.id);
      var k :| 0 <= k < |Successors(w, t.id)| && Successors(w, t.id)[k] == p[1];
      assert NextOf(w, t.id, t.branch) == Successors(w, t.id);
      assert t.kids[k].id == p[1];
      ReachesNext(w, root, t.id, p[1]);
      assert IsWalk(w, q) by {
        forall i | 0 <= i < |q| - 1 ensures HasEdge(w, q[i], q[i + 1]) {
          assert q[i] == p[i + 1] && q[i + 1] == p[i + 2];
        }
      }
      WholeMeetsWalks(w, root, path + {t.id}, t.kids[k], q);
      forall i | 0 <= i < |p| ensures p[i] in w.nodes && p[i] !in path {
        if i > 0 { assert p[i] == q[i - 1]; }
      }
      forall i, j | 0 <= i < j < |p| ensures p[i] != p[j] {
        assert p[j] == q[j - 1];
        if i > 0 { assert p[i] == q[i - 1]; }
      }
    }
  }

  ghost predicate AllKnown(w: World, a: string) {
    forall n :: Reaches(w, a, n) ==> n in w.nodes
  }

  lemma JoinWalks(w: World, p: seq<string>, q: seq<string>)
    requires IsWalk(w, p) && IsWalk(w, q) && p[|p| - 1] == q[0]
    ensures IsWalk(w, p + q[1..])
  {
    var r := p + q[1..];
    forall i | 0 <= i < |r| - 1 ensures HasEdge(w, r[i], r[i + 1]) {
      if i >= |p| - 1 {
        var k := i - (|p| - 1);
        assert r[i] == q[k] && r[i + 1] == q[k + 1];
        assert HasEdge(w, q[k], q[k + 1]);
      }
    }
  }

  /** A walk without error over an unconditional graph has met no cycle and no unknown node. */
  lemma NoErrorNoCycle(w: World, root: string, s: St)
    requires WellKeyed(w.nodes) && Unconditional(w, root) && Visit(w, {}, root, s).0.None?
    ensures !CycleReachable(w, root) && AllKnown(w, root)
  {
    var t := VisitUnfolds(w, {}, root, s);
    ReachesSelf(w, root);
    forall n | Reaches(w, root, n) ensures n in w.nodes && !OnCycle(w, n) {
      var p :| WalkFromTo(w, p, root, n);
      WholeMeetsWalks(w, root, {}, t.value, p);
      assert p[|p| - 1] in w.nodes;
      if OnCycle(w, n) {
        var c :| WalkFromTo(w, c, n, n) && |c| >= 2;
        JoinWalks(w, p, c);
        var q := p + c[1..];
        assert q[|p| - 1] == n == q[|q| - 1];
        WholeMeetsWalks(w, root, {}, t.value, q);
      }
    }
  }

  // ---------- exactness ----------

  /** Every reachable node that is processed succeeds, and time never runs out. */
  ghost predicate Succeeds(w: World, root: string) {
    && P.Alone(w)
    && (forall t :: !w.env.expired(t))
    && forall n, s :: Reaches(w, root, n) && n in w.nodes && P.StoreGoing(s) ==> ProcessNode(w, n, s).error.None?
  }

  /** Succeeds holds when the only worker's writes never fail and every reachable executor delivers. */
  lemma CalmSucceeds(w: World, root: string)
    requires WellKeyed(w.nodes) && Unconditional(w, root)
    requires P.Alone(w) && P.NeverFails(w) && forall t :: !w.env.expired(t)
    requires forall n, t :: Reaches(w, root, n) && n in w.nodes && w.nodes[n].kind.Executor? ==>
               ExecutorResult(w.nodes[n], w.env.call(t)).Delivered?
    ensures Succeeds(w, root)
  {
    forall n, s | Reaches(w, root, n) && n in w.nodes && P.StoreGoing(s)
      ensures ProcessNode(w, n, s).error.None?
    {
      if w.nodes[n].kind.Executor? {
        assert ExecutorResult(w.nodes[n], w.env.call(s.now)).Delivered?;
        assert w.env.weather(s.now + 1).intruder.None? && !w.env.weather(s.now + 1).fails;
      }
    }
  }

  ghost predicate OnlyGraphErrors(err: Option<E.RunError>) {
    err.Some? ==> err.value.CycleDetected? || err.value.NodeNotFound?
  }

  lemma SuccessfulNode(w: World, root: string, id: string, s: St)
    requires WellKeyed(w.nodes) && Succeeds(w, root) && Reaches(w, root, id) && id in w.nodes && P.StoreGoing(s)
    ensures var p := ProcessNode(w, id, s);
      p.error.None? && P.StoreGoing(p.after) && forall t :: t in p.targets ==> HasEdge(w, id, t)
  {
    P.StoreOfOneNode(w, id, s);
    TargetsAreEdges(w, id, s);
  }

  lemma {:induction false} SuccessLeavesGraphErrors(w: World, root: string, path: set<string>, id: string, s: St)
    requires WellKeyed(w.nodes) && Succeeds(w, root) && Reaches(w, root, id) && P.StoreGoing(s)
    ensures OnlyGraphErrors(Visit(w, path, id, s).0)
    decreases |w.nodes.Keys - path|, 0
  {
    if id in path || id !in w.nodes {
    } else {
      VisitEquation(w, path, id, s);
      SuccessfulNode(w, root, id, s.Later());
      PathGrows(w, path, id);
      SuccessFrom(w, root, path, id, ProcessNode(w, id, s.Later()));
    }
  }

  lemma {:induction false} SuccessFrom(w: World, root: string, path: set<string>, id: string, p: Processed)
    requires WellKeyed(w.nodes) && Succeeds(w, root) && Reaches(w, root, id) && id in w.nodes && id !in path
    requires P.StoreGoing(p.after) && forall t :: t in p.targets ==> HasEdge(w, id, t)
    ensures OnlyGraphErrors(VisitAll(w, path + {id}, p.targets, p.after).0)
    decreases |w.nodes.Keys - (path + {id})|, |p.targets| + 1
  {
    SuccessBelow(w, root, path + {id}, id, p.targets, p.after);
  }

  lemma {:induction false} SuccessBelow(w: World, root: string, path: set<string>, from: string,
                                        targets: seq<string>, s: St)
    requires WellKeyed(w.nodes) && Succeeds(w, root) && Reaches(w, root, from) && P.StoreGoing(s)
    requires forall t :: t in targets ==> HasEdge(w, from, t)
    ensures OnlyGraphErrors(VisitAll(w, path, targets, s).0)
    decreases |w.nodes.Keys - path|, |targets|
  {
    if targets == [] {
    } else {
      assert targets[0] in targets;
      ReachesNext(w, root, from, targets[0]);
      SuccessLeavesGraphErrors(w, root, path, targets[0], s);
      P.StoreDiscipline(w, path, targets[0], s);
      var (err, s1) := Visit(w, path, targets[0], s);
      if err.None? { SuccessBelow(w, root, path, from, targets[1..], s1); }
    }
  }

  /** Cycle detection is exact: when all reachable nodes are known and unconditional and their steps
      succeed, the walk returns without error exactly when no cycle is reachable, and otherwise with a
      cycle error that names a node on a reachable cycle. */
  lemma CycleDetectionIsExact(w: World, root: string, s: St)
    requires WellKeyed(w.nodes) && AllKnown(w, root) && Unconditional(w, root)
    requires Succeeds(w, root) && P.StoreGoing(s)
    ensures var err := Visit(w, {}, root, s).0;
      && (err.None? <==> !CycleReachable(w, root))
      && (err.Some? ==> err.value.CycleDetected? && OnCycle(w, err.value.node) && Reaches(w, root, err.value.node))
  {
    var err := Visit(w, {}, root, s).0;
    ReachesSelf(w, root);
    SuccessLeavesGraphErrors(w, root, {}, root, s);
    assert [] + [root] == [root] && Elements([]) == {};
    ErrorsAreReal(w, [], root, s);
    if err.None? { NoErrorNoCycle(w, root, s); }
  }

  // ---------- valid workflows ----------

  /** In a graph whose edges end in known nodes, a walk from a known node never misses a node. */
  lemma {:induction false} ClosedGraphNeverMisses(w: World, path: set<string>, id: string, s: St)
    requires WellKeyed(w.nodes) && id in w.nodes && forall a, b :: HasEdge(w, a, b) ==> b in w.nodes
    ensures var err := Visit(w, path, id, s).0; err.Some? ==> !err.value.NodeNotFound?
    decreases |w.nodes.Keys - path|, 0
  {
    if w.env.expired(s.now) || id in path {
    } else {
      VisitEquation(w, path, id, s);
      NoSuchErrors(w, id, s.Later());
      var p := ProcessNode(w, id, s.Later());
      PathGrows(w, path, id);
      if p.error.None? {
        TargetsAreEdges(w, id, s.Later());
        ClosedBelow(w, path + {id}, p.targets, p.after);
      }
    }
  }

  lemma {:induction false} ClosedBelow(w: World, path: set<string>, targets: seq<string>, s: St)
    requires WellKeyed(w.nodes) && (forall a, b :: HasEdge(w, a, b) ==> b in w.nodes)
    requires forall t :: t in targets ==> t in w.nodes
    ensures var err := VisitAll(w, path, targets, s).0; err.Some? ==> !err.value.NodeNotFound?
    decreases |w.nodes.Keys - path|, |targets|
  {
    if targets == [] {
    } else {
      assert targets[0] in targets;
      ClosedGraphNeverMisses(w, path, targets[0], s);
      var (err, s1) := Visit(w, path, targets[0], s);
      if err.None? { ClosedBelow(w, path, targets[1..], s1); }
    }
  }

  /** A run of a well-structured workflow with non-empty node ids finds its trigger and never meets
      an unknown node. */
  lemma StructuredRun(d: Definition, env: Env, s: St)
    requires d.Structured() && forall i :: 0 <= i < |d.nodes| ==> d.nodes[i].id != ""
    ensures var w := World(NodeMap(d.nodes), d.edges, env);
      var err := Visit(w, {}, FirstTrigger(d.nodes), s).0;
      FirstTrigger(d.nodes) != "" && (err.Some? ==> !err.value.NodeNotFound?)
  {
    var w := World(NodeMap(d.nodes), d.edges, env);
    FirstTriggerFound(d.nodes);
    ClosedGraphNeverMisses(w, {}, FirstTrigger(d.nodes), s);
  }
}
