/** How many steps a run logs, against the total that an execution announces. */
module Totals {
  import opened Values
  import opened Workflows
  import opened Engine
  import opened Unfolding
  import opened Cycles
  import opened Counting
  import E = Executions
  import M = Moments
  import P = RunProperties
  import R = Retry

  // ---------- at most one incoming edge ----------

  ghost predicate InDegreeOne(edges: seq<Edge>) {
    forall i, j :: 0 <= i < j < |edges| ==> edges[i].target != edges[j].target
  }

  /** The source of the first edge into n. */
  function Predecessor(edges: seq<Edge>, n: string): Option<string> {
    if edges == [] then None
    else if edges[0].target == n then Some(edges[0].source)
    else Predecessor(edges[1..], n)
  }

  lemma {:induction false} ThePredecessor(edges: seq<Edge>, i: nat)
    requires InDegreeOne(edges) && i < |edges|
    ensures Predecessor(edges, edges[i].target) == Some(edges[i].source)
    decreases |edges|
  {
    if i == 0 {
    } else {
      ThePredecessor(edges[1..], i - 1);
    }
  }

  function Up(w: World, n: string, k: nat): Option<string> {
    if k == 0 then Some(n)
    else match Up(w, n, k - 1) case None => None case Some(m) => Predecessor(w.edges, m)
  }

  function Ids(t: Tree): set<string>
    decreases t
  {
    {t.id} + IdsAll(t.kids)
  }

  function IdsAll(kids: seq<Tree>): set<string>
    decreases kids
  {
    if kids == [] then {} else Ids(kids[0]) + IdsAll(kids[1..])
  }

  lemma {:induction false} IdsAllHas(kids: seq<Tree>, n: string)
    ensures n in IdsAll(kids) <==> exists i :: 0 <= i < |kids| && n in Ids(kids[i])
    decreases |kids|
  {
    if kids == [] {
    } else {
      IdsAllHas(kids[1..], n);
      if i :| 0 <= i < |kids[1..]| && n in Ids(kids[1..][i]) { assert n in Ids(kids[i + 1]); }
      if i :| 0 <= i < |kids| && n in Ids(kids[i]) && i > 0 { assert n in Ids(kids[1..][i - 1]); }
    }
  }

  lemma {:induction false} IdsOffPath(w: World, path: set<string>, t: Tree, n: string)
    requires Unfolds(w, path, t) && n in Ids(t)
    ensures n !in path
    decreases t
  {
    if n == t.id {
    } else {
      IdsAllHas(t.kids, n);
      var i :| 0 <= i < |t.kids| && n in Ids(t.kids[i]);
      IdsOffPath(w, path + {t.id}, t.kids[i], n);
    }
  }

  /** In an unfolding every kid has its parent as the predecessor. */
  ghost predicate Rooted(w: World, t: Tree)
    decreases t
  {
    forall i :: 0 <= i < |t.kids| ==> Predecessor(w.edges, t.kids[i].id) == Some(t.id) && Rooted(w, t.kids[i])
  }

  lemma {:induction false} UnfoldingIsRooted(w: World, path: set<string>, t: Tree)
    requires InDegreeOne(w.edges) && Unfolds(w, path, t)
    ensures Rooted(w, t)
    decreases t
  {
    NextIsAnEdge(w, t.id, t.branch);
    forall i | 0 <= i < |t.kids| ensures Predecessor(w.edges, t.kids[i].id) == Some(t.id) && Rooted(w, t.kids[i]) {
      assert t.kids[i].id in NextOf(w, t.id, t.branch);
      EdgeGivesPredecessor(w, t.id, t.kids[i].id);
      UnfoldingIsRooted(w, path + {t.id}, t.kids[i]);
    }
  }

  lemma EdgeGivesPredecessor(w: World, a: string, b: string)
    requires InDegreeOne(w.edges) && HasEdge(w, a, b)
    ensures Predecessor(w.edges, b) == Some(a)
  {
    var k :| 0 <= k < |w.edges| && w.edges[k].source == a && w.edges[k].target == b;
    ThePredecessor(w.edges, k);
  }

  lemma KidIds(t: Tree, i: nat)
    requires i < |t.kids|
    ensures Ids(t.kids[i]) <= Ids(t)
  {
    forall n | n in Ids(t.kids[i]) ensures n in Ids(t) { IdsAllHas(t.kids, n); }
  }

  /** Climbing k steps from n ends at `top`, inside `ids` all the way. */
  ghost predicate Climbs(w: World, n: string, k: nat, top: string, ids: set<string>) {
    Up(w, n, k) == Some(top) && forall j: nat :: j <= k ==> Up(w, n, j).Some? && Up(w, n, j).value in ids
  }

  lemma ClimbOnce(w: World, n: string, k: nat, top: string, ids: set<string>, next: string, more: set<string>)
    requires Climbs(w, n, k, top, ids) && Predecessor(w.edges, top) == Some(next) && ids <= more && next in more
    ensures Climbs(w, n, k + 1, next, more)
  {
  }

  /** From any node of an unfolding the predecessors lead up to its root, inside the unfolding. */
  lemma {:induction false} Climb(w: World, t: Tree, n: string) returns (k: nat)
    requires Rooted(w, t) && n in Ids(t)
    ensures Climbs(w, n, k, t.id, Ids(t))
    decreases t
  {
    if n == t.id { return 0; }
    var i := KidWith(t, n);
    var below := Climb(w, t.kids[i], n);
    KidIds(t, i);
    ClimbOnce(w, n, below, t.kids[i].id, Ids(t.kids[i]), t.id, Ids(t));
    k := below + 1;
  }

  lemma KidWith(t: Tree, n: string) returns (i: nat)
    requires n in Ids(t) && n != t.id
    ensures i < |t.kids| && n in Ids(t.kids[i])
  {
    IdsAllHas(t.kids, n);
    i :| 0 <= i < |t.kids| && n in Ids(t.kids[i]);
  }

  lemma {:induction false} OutTargetsDiffer(edges: seq<Edge>, source: string)
    requires InDegreeOne(edges)
    ensures InDegreeOne(OutEdges(edges, source))
    decreases |edges|
  {
    if edges == [] {
    } else {
      var n := |edges| - 1;
      OutTargetsDiffer(edges[..n], source);
      var before := OutEdges(edges[..n], source);
      forall k | 0 <= k < |before| ensures before[k].target != edges[n].target {
        assert before[k] in edges[..n];
      }
    }
  }

  lemma NextDiffer(w: World, id: string, branch: Option<bool>)
    requires InDegreeOne(w.edges) && id in w.nodes
    ensures Simple(NextOf(w, id, branch))
  {
    OutTargetsDiffer(w.edges, id);
    if branch.Some? { OneBranch(OutEdges(w.edges, id), if branch.value then "true" else "false"); }
  }

  lemma OneBranch(edges: seq<Edge>, handle: string)
    ensures |BranchTargets(edges, handle)| <= 1
  {
  }

  /** Two kids that share a node: climbing from it out of the one with the shorter way would meet the
      parent inside the other one. */
  lemma ShorterClimb(w: World, path: set<string>, t: Tree, i: nat, j: nat, n: string, a: nat, b: nat)
    requires Rooted(w, t) && Unfolds(w, path, t) && i < |t.kids| && j < |t.kids|
    requires Climbs(w, n, a, t.kids[i].id, Ids(t.kids[i])) && Climbs(w, n, b, t.kids[j].id, Ids(t.kids[j]))
    ensures a >= b
  {
    if a < b {
      assert Up(w, n, a + 1) == Some(t.id);
      IdsOffPath(w, path + {t.id}, t.kids[j], t.id);
    }
  }

  lemma KidsDisjoint(w: World, path: set<string>, t: Tree, i: nat, j: nat, n: string)
    requires InDegreeOne(w.edges) && Unfolds(w, path, t) && i < |t.kids| && j < |t.kids| && i != j
    requires n in Ids(t.kids[i])
    ensures n !in Ids(t.kids[j])
  {
    if n in Ids(t.kids[j]) {
      UnfoldingIsRooted(w, path, t);
      var a := Climb(w, t.kids[i], n);
      var b := Climb(w, t.kids[j], n);
      ShorterClimb(w, path, t, i, j, n, a, b);
      ShorterClimb(w, path, t, j, i, n, b, a);
      NextDiffer(w, t.id, t.branch);
      assert false;
    }
  }

  function Recorders(w: World, ids: set<string>): set<string> {
    set n | n in ids && Records(w, n)
  }

  /** With one incoming edge per node at most, an unfolding logs each of its nodes once. */
  lemma {:induction false} LogsOnce(w: World, path: set<string>, t: Tree)
    requires InDegreeOne(w.edges) && Unfolds(w, path, t)
    ensures |Preorder(w, t)| == |Recorders(w, Ids(t))|
    decreases t, 1, 0
  {
    LogsOnceAll(w, path, t, 0);
    RootOffKids(w, path, t);
    assert t.kids[0..] == t.kids;
    RecordersWithRoot(w, t);
  }

  lemma RecordersWithRoot(w: World, t: Tree)
    requires t.id !in IdsAll(t.kids)
    ensures |Recorders(w, Ids(t))| == |Recorders(w, IdsAll(t.kids))| + (if Records(w, t.id) then 1 else 0)
  {
    var root := if Records(w, t.id) then {t.id} else {};
    assert Recorders(w, Ids(t)) == Recorders(w, IdsAll(t.kids)) + root;
  }

  lemma RootOffKids(w: World, path: set<string>, t: Tree)
    requires Unfolds(w, path, t)
    ensures t.id !in IdsAll(t.kids)
  {
    IdsAllHas(t.kids, t.id);
    if i :| 0 <= i < |t.kids| && t.id in Ids(t.kids[i]) {
      IdsOffPath(w, path + {t.id}, t.kids[i], t.id);
    }
  }

  lemma {:induction false} LogsOnceAll(w: World, path: set<string>, t: Tree, i: nat)
    requires InDegreeOne(w.edges) && Unfolds(w, path, t) && i <= |t.kids|
    ensures |PreorderAll(w, t.kids[i..])| == |Recorders(w, IdsAll(t.kids[i..]))|
    decreases t, 0, |t.kids| - i
  {
    if i == |t.kids| {
    } else {
      var rest := t.kids[i + 1..];
      assert t.kids[i..][1..] == rest;
      LogsOnce(w, path + {t.id}, t.kids[i]);
      LogsOnceAll(w, path, t, i + 1);
      KidOffTheRest(w, path, t, i);
      RecordersAdd(w, Ids(t.kids[i]), IdsAll(rest));
    }
  }

  lemma KidOffTheRest(w: World, path: set<string>, t: Tree, i: nat)
    requires InDegreeOne(w.edges) && Unfolds(w, path, t) && i < |t.kids|
    ensures Ids(t.kids[i]) !! IdsAll(t.kids[i + 1..])
  {
    forall n | n in Ids(t.kids[i]) ensures n !in IdsAll(t.kids[i + 1..]) {
      NodeOffTheRest(w, path, t, i, n);
    }
  }

  lemma NodeOffTheRest(w: World, path: set<string>, t: Tree, i: nat, n: string)
    requires InDegreeOne(w.edges) && Unfolds(w, path, t) && i < |t.kids| && n in Ids(t.kids[i])
    ensures n !in IdsAll(t.kids[i + 1..])
  {
    var rest := t.kids[i + 1..];
    IdsAllHas(rest, n);
    if k :| 0 <= k < |rest| && n in Ids(rest[k]) {
      KidsDisjoint(w, path, t, i, i + 1 + k, n);
    }
  }

  lemma RecordersAdd(w: World, a: set<string>, b: set<string>)
    requires a !! b
    ensures |Recorders(w, a + b)| == |Recorders(w, a)| + |Recorders(w, b)|
  {
    assert Recorders(w, a + b) == Recorders(w, a) + Recorders(w, b);
    assert Recorders(w, a) !! Recorders(w, b);
  }

  lemma {:induction false} IdsKnown(w: World, path: set<string>, t: Tree, n: string)
    requires Unfolds(w, path, t) && n in Ids(t)
    ensures n in w.nodes
    decreases t
  {
    if n == t.id {
    } else {
      IdsAllHas(t.kids, n);
      var i :| 0 <= i < |t.kids| && n in Ids(t.kids[i]);
      IdsKnown(w, path + {t.id}, t.kids[i], n);
    }
  }

  ghost function NonTriggers(m: map<string, Node>): set<string> {
    set k | k in m && !m[k].kind.Trigger?
  }

  lemma {:induction false} NonTriggersBound(nodes: seq<Node>)
    ensures |NonTriggers(NodeMap(nodes))| <= Executable(nodes)
    decreases |nodes|
  {
    if nodes == [] {
    } else {
      var n := |nodes| - 1;
      NonTriggersBound(nodes[..n]);
      var before, after := NonTriggers(NodeMap(nodes[..n])), NonTriggers(NodeMap(nodes));
      if nodes[n].kind.Trigger? {
        assert after <= before;
        Subset(after, before);
      } else {
        assert after <= before + {nodes[n].id};
        Subset(after, before + {nodes[n].id});
      }
    }
  }

  lemma {:induction false} Subset(a: set<string>, b: set<string>)
    requires a <= b
    ensures |a| <= |b|
  {
    assert b == a + (b - a);
  }

  /** When no node has two incoming edges, no run, however it ends, logs more steps than totalSteps. */
  lemma StepsWithinTotal(nodes: seq<Node>, edges: seq<Edge>, env: Env, trigger: string, s: St)
    requires InDegreeOne(edges) && s.exec.steps == []
    ensures var w := World(NodeMap(nodes), edges, env);
      |Visit(w, {}, trigger, s).1.exec.steps| <= Executable(nodes)
  {
    var w := World(NodeMap(nodes), edges, env);
    var t := VisitUnfolds(w, {}, trigger, s);
    var steps := Visit(w, {}, trigger, s).1.exec.steps;
    if t.Some? {
      LogsOnce(w, {}, t.value);
      assert Entries(w, steps) == Preorder(w, t.value);
      var logged := Recorders(w, Ids(t.value));
      assert logged <= NonTriggers(w.nodes);
      Subset(logged, NonTriggers(w.nodes));
      NonTriggersBound(nodes);
    }
  }

  // ---------- every edge has its place ----------

  /** The places, in the definition, of the outgoing edges of a node. */
  function Places(edges: seq<Edge>, source: string): (r: seq<nat>)
    ensures forall k :: 0 <= k < |r| ==> r[k] < |edges|
    ensures |r| == |OutEdges(edges, source)|
  {
    if edges == [] then []
    else
      var n := |edges| - 1;
      Places(edges[..n], source) + (if edges[n].source == source then [n] else [])
  }

  lemma {:induction false} PlacesHold(edges: seq<Edge>, source: string, k: nat)
    requires k < |Places(edges, source)|
    ensures edges[Places(edges, source)[k]] == OutEdges(edges, source)[k]
    decreases |edges|
  {
    var n := |edges| - 1;
    if k < |Places(edges[..n], source)| {
      PlacesHold(edges[..n], source, k);
    } else {
      assert edges[n].source == source;
    }
  }

  lemma {:induction false} PlacesDiffer(edges: seq<Edge>, source: string, j: nat, k: nat)
    requires j < k < |Places(edges, source)|
    ensures Places(edges, source)[j] < Places(edges, source)[k]
    decreases |edges|
  {
    var n := |edges| - 1;
    if k < |Places(edges[..n], source)| {
      PlacesDiffer(edges[..n], source, j, k);
    } else {
      assert edges[n].source == source;
    }
  }

  lemma {:induction false} PlaceOfEdge(edges: seq<Edge>, i: nat) returns (k: nat)
    requires i < |edges|
    ensures k < |Places(edges, edges[i].source)| && Places(edges, edges[i].source)[k] == i
    decreases |edges|
  {
    var n := |edges| - 1;
    if i == n {
      k := |Places(edges[..n], edges[i].source)|;
    } else {
      k := PlaceOfEdge(edges[..n], i);
    }
  }

  /** The number, among the outgoing edges of its source, of the edge at place i. */
  lemma NumberOfEdge(w: World, i: nat) returns (k: nat)
    requires i < |w.edges|
    ensures var source := w.edges[i].source;
      && k < |Successors(w, source)| && Successors(w, source)[k] == w.edges[i].target
      && k < |Places(w.edges, source)| && Places(w.edges, source)[k] == i
  {
    k := PlaceOfEdge(w.edges, i);
    PlacesHold(w.edges, w.edges[i].source, k);
  }

  lemma {:induction false} FollowTogether(w: World, id: string, a: EdgePath, b: EdgePath)
    ensures Follow(w, id, a + b) ==
            if Follow(w, id, a).Some? then Follow(w, Follow(w, id, a).value, b) else None
    decreases |a|
  {
    if a == [] {
      assert a + b == b;
    } else {
      assert (a + b)[1..] == a[1..] + b;
      if a[0] < |Successors(w, id)| { FollowTogether(w, Successors(w, id)[a[0]], a[1..], b); }
    }
  }

  /** An edge path taken apart at its last edge. */
  lemma FollowLast(w: World, id: string, ep: EdgePath)
    requires ep != [] && Follow(w, id, ep).Some?
    ensures var before := Follow(w, id, ep[..|ep| - 1]);
      && before.Some? && ep[|ep| - 1] < |Successors(w, before.value)|
      && Follow(w, id, ep).value == Successors(w, before.value)[ep[|ep| - 1]]
  {
    var n := |ep| - 1;
    assert ep[..n] + [ep[n]] == ep;
    FollowTogether(w, id, ep[..n], [ep[n]]);
  }

  lemma {:induction false} PathOfWalk(w: World, p: seq<string>) returns (ep: EdgePath)
    requires IsWalk(w, p)
    ensures Follow(w, p[0], ep) == Some(p[|p| - 1])
    decreases |p|
  {
    if |p| == 1 {
      ep := [];
    } else {
      assert HasEdge(w, p[0], p[1]);
      SuccessorsAreEdges(w, p[0]);
      var k: nat :| k < |Successors(w, p[0])| && Successors(w, p[0])[k] == p[1];
      assert IsWalk(w, p[1..]) by {
        forall i | 0 <= i < |p[1..]| - 1 ensures HasEdge(w, p[1..][i], p[1..][i + 1]) {
          assert HasEdge(w, p[i + 1], p[i + 2]);
        }
      }
      var rest := PathOfWalk(w, p[1..]);
      ep := [k] + rest;
      assert ep[1..] == rest;
    }
  }

  lemma PathTo(w: World, a: string, b: string) returns (ep: EdgePath)
    requires Reaches(w, a, b)
    ensures Follow(w, a, ep) == Some(b)
  {
    var p :| WalkFromTo(w, p, a, b);
    ep := PathOfWalk(w, p);
  }

  lemma {:induction false} WalkOfPath(w: World, id: string, ep: EdgePath) returns (p: seq<string>)
    requires Follow(w, id, ep).Some?
    ensures WalkFromTo(w, p, id, Follow(w, id, ep).value) && |p| == |ep| + 1
    decreases |ep|
  {
    if ep == [] {
      p := [id];
    } else {
      var next := Successors(w, id)[ep[0]];
      var rest := WalkOfPath(w, next, ep[1..]);
      SuccessorsAreEdges(w, id);
      assert next in Successors(w, id);
      p := [id] + rest;
      forall i | 0 <= i < |p| - 1 ensures HasEdge(w, p[i], p[i + 1]) {
        if i > 0 { assert HasEdge(w, rest[i - 1], rest[i]); }
      }
    }
  }

  lemma FollowReaches(w: World, id: string, ep: EdgePath)
    requires Follow(w, id, ep).Some?
    ensures Reaches(w, id, Follow(w, id, ep).value)
    ensures ep != [] && Follow(w, id, ep).value == id ==> OnCycle(w, id)
  {
    var p := WalkOfPath(w, id, ep);
  }

  // ---------- two ways into a node ----------

  ghost predicate LeadsToRecord(w: World, n: string) {
    exists r :: Reaches(w, n, r) && Records(w, r)
  }

  /** Two edges, by their places, that a walk from the root can both take into one node. */
  ghost predicate TwoWaysIn(w: World, root: string, i: int, j: int) {
    && 0 <= i < |w.edges| && 0 <= j < |w.edges| && i != j && w.edges[i].target == w.edges[j].target
    && Reaches(w, root, w.edges[i].source) && Reaches(w, root, w.edges[j].source)
  }

  /** No node from which a logged one can be reached has two ways in. */
  ghost predicate OneWayIn(w: World, root: string) {
    forall i, j :: TwoWaysIn(w, root, i, j) ==> !LeadsToRecord(w, w.edges[i].target)
  }

  lemma PathThroughEdge(w: World, root: string, to: EdgePath, i: nat, beyond: EdgePath) returns (k: nat)
    requires i < |w.edges| && Follow(w, root, to) == Some(w.edges[i].source)
    ensures Follow(w, root, to + [k] + beyond) == Follow(w, w.edges[i].target, beyond)
    ensures var places := Places(w.edges, w.edges[i].source); k < |places| && places[k] == i
  {
    k := NumberOfEdge(w, i);
    FollowTogether(w, w.edges[i].source, [k], beyond);
    assert ([k] + beyond)[1..] == beyond;
    FollowTogether(w, root, to, [k] + beyond);
    assert to + [k] + beyond == to + ([k] + beyond);
  }

  lemma PathsDiffer(a: EdgePath, k: nat, b: EdgePath, l: nat, beyond: EdgePath)
    requires a != b || k != l
    ensures a + [k] + beyond != b + [l] + beyond
  {
    var p, q := a + [k] + beyond, b + [l] + beyond;
    if |a| == |b| {
      assert p[..|a|] == a && q[..|b|] == b && p[|a|] == k && q[|b|] == l;
    }
  }

  /** Edge paths to the sources of two edges, the same one when the sources are the same. */
  lemma PathsToSources(w: World, root: string, i: nat, j: nat) returns (a: EdgePath, b: EdgePath)
    requires TwoWaysIn(w, root, i, j)
    ensures Follow(w, root, a) == Some(w.edges[i].source) && Follow(w, root, b) == Some(w.edges[j].source)
    ensures a == b <==> w.edges[i].source == w.edges[j].source
  {
    a := PathTo(w, root, w.edges[i].source);
    if w.edges[i].source == w.edges[j].source {
      b := a;
    } else {
      b := PathTo(w, root, w.edges[j].source);
    }
  }

  /** Two ways in are two edge paths. */
  lemma TwoPaths(w: World, root: string, i: nat, j: nat, r: string) returns (a: EdgePath, b: EdgePath)
    requires TwoWaysIn(w, root, i, j) && Reaches(w, w.edges[i].target, r)
    ensures a != b && Follow(w, root, a) == Some(r) && Follow(w, root, b) == Some(r)
  {
    var toI, toJ := PathsToSources(w, root, i, j);
    var beyond := PathTo(w, w.edges[i].target, r);
    var k := PathThroughEdge(w, root, toI, i, beyond);
    var l := PathThroughEdge(w, root, toJ, j, beyond);
    PathsDiffer(toI, k, toJ, l, beyond);
    a, b := toI + [k] + beyond, toJ + [l] + beyond;
  }

  /** The last edges of two edge paths that meet are two edges, unless the paths end alike. */
  lemma LastEdges(w: World, x: string, k: nat, y: string, l: nat) returns (i: nat, j: nat)
    requires k < |Successors(w, x)| && l < |Successors(w, y)| && (x != y || k != l)
    ensures i < |w.edges| && j < |w.edges| && i != j && w.edges[i].source == x && w.edges[j].source == y
    ensures w.edges[i].target == Successors(w, x)[k] && w.edges[j].target == Successors(w, y)[l]
  {
    i, j := Places(w.edges, x)[k], Places(w.edges, y)[l];
    PlacesHold(w.edges, x, k);
    PlacesHold(w.edges, y, l);
    assert OutEdges(w.edges, x)[k] in OutEdges(w.edges, x) && OutEdges(w.edges, y)[l] in OutEdges(w.edges, y);
    if x == y {
      if k < l { PlacesDiffer(w.edges, x, k, l); } else { PlacesDiffer(w.edges, x, l, k); }
    }
  }

  /** The last edge of an edge path, which is not empty where no cycle is reachable. */
  lemma LastStep(w: World, root: string, ep: EdgePath) returns (before: EdgePath, x: string, k: nat)
    requires ep != [] && Follow(w, root, ep).Some?
    ensures ep == before + [k] && Follow(w, root, before) == Some(x) && Reaches(w, root, x)
    ensures k < |Successors(w, x)| && Successors(w, x)[k] == Follow(w, root, ep).value
    ensures HasEdge(w, x, Follow(w, root, ep).value)
  {
    FollowLast(w, root, ep);
    before, k := ep[..|ep| - 1], ep[|ep| - 1];
    x := Follow(w, root, before).value;
    FollowReaches(w, root, before);
    SuccessorsAreEdges(w, x);
    assert Successors(w, x)[k] in Successors(w, x);
  }

  lemma NotEmpty(w: World, root: string, a: EdgePath, b: EdgePath)
    requires a != b && Follow(w, root, a).Some? && Follow(w, root, a) == Follow(w, root, b)
    requires !CycleReachable(w, root)
    ensures a != []
  {
    ReachesSelf(w, root);
    if a == [] { FollowReaches(w, root, b); }
  }

  /** Where no cycle is reachable, two edge paths to one node come in by two ways somewhere before it. */
  lemma {:induction false} PathsMeet(w: World, root: string, a: EdgePath, b: EdgePath) returns (i: nat, j: nat)
    requires a != b && Follow(w, root, a).Some? && Follow(w, root, a) == Follow(w, root, b)
    requires !CycleReachable(w, root)
    ensures TwoWaysIn(w, root, i, j) && Reaches(w, w.edges[i].target, Follow(w, root, a).value)
    decreases |a|
  {
    NotEmpty(w, root, a, b);
    NotEmpty(w, root, b, a);
    var n := Follow(w, root, a).value;
    var a0, x, k := LastStep(w, root, a);
    var b0, y, l := LastStep(w, root, b);
    if x == y && k == l {
      i, j := PathsMeet(w, root, a0, b0);
      ReachesNext(w, w.edges[i].target, x, n);
    } else {
      i, j := LastEdges(w, x, k, y, l);
      ReachesSelf(w, n);
    }
  }

  // ---------- the exact count ----------

  lemma {:induction false} DistinctCount(p: seq<string>)
    ensures |Elements(p)| <= |p|
    ensures |Elements(p)| == |p| <==> Simple(p)
    decreases |p|
  {
    if p == [] {
    } else {
      var q := p[1..];
      DistinctCount(q);
      assert Elements(p) == {p[0]} + Elements(q);
      if p[0] in q {
        var k :| 0 <= k < |q| && q[k] == p[0];
        assert p[0] == p[k + 1];
        assert Elements(p) == Elements(q);
      } else {
        assert Simple(q) ==> Simple(p);
      }
      if Simple(p) {
        assert forall i :: 0 <= i < |q| ==> q[i] == p[i + 1];
      }
    }
  }

  /** The nodes that log a step and can be reached. */
  ghost function Reached(w: World, root: string): set<string> {
    set n | n in w.nodes && Records(w, n) && Reaches(w, root, n)
  }

  lemma LoggedNodes(w: World, root: string, steps: seq<E.Step>, eps: seq<EdgePath>)
    requires StepsAreEdgePaths(w, root, steps, eps)
    ensures Elements(M.StepIds(steps)) == Reached(w, root)
  {
    var ids := M.StepIds(steps);
    forall n | n in ids ensures n in Reached(w, root) {
      var k :| 0 <= k < |ids| && ids[k] == n;
      assert eps[k] in eps;
      FollowReaches(w, root, eps[k]);
    }
    forall n | n in Reached(w, root) ensures n in ids {
      var ep := PathTo(w, root, n);
      assert ep in eps;
      var k :| 0 <= k < |eps| && eps[k] == ep;
      assert ids[k] == n;
    }
  }

  lemma TwoWaysLogTwice(w: World, root: string, steps: seq<E.Step>, eps: seq<EdgePath>, i: nat, j: nat, r: string)
    requires StepsAreEdgePaths(w, root, steps, eps)
    requires TwoWaysIn(w, root, i, j) && Reaches(w, w.edges[i].target, r) && Records(w, r)
    ensures !Simple(M.StepIds(steps))
  {
    var a, b := TwoPaths(w, root, i, j, r);
    assert a in eps && b in eps;
    var k :| 0 <= k < |eps| && eps[k] == a;
    var l :| 0 <= l < |eps| && eps[l] == b;
    var ids := M.StepIds(steps);
    assert ids[k] == r == ids[l];
  }

  lemma LoggedTwiceHasTwoWays(w: World, root: string, steps: seq<E.Step>, eps: seq<EdgePath>, k: nat, l: nat)
    requires StepsAreEdgePaths(w, root, steps, eps) && !CycleReachable(w, root)
    requires k < l < |steps| && steps[k].nodeId == steps[l].nodeId
    ensures !OneWayIn(w, root)
  {
    assert eps[k] != eps[l] && eps[k] in eps;
    var i, j := PathsMeet(w, root, eps[k], eps[l]);
    assert LeadsToRecord(w, w.edges[i].target);
  }

  /** No node is logged twice exactly when no logged node is reached by two ways. */
  lemma LoggedOnceIff(w: World, root: string, steps: seq<E.Step>, eps: seq<EdgePath>)
    requires StepsAreEdgePaths(w, root, steps, eps) && !CycleReachable(w, root)
    ensures Simple(M.StepIds(steps)) <==> OneWayIn(w, root)
  {
    var ids := M.StepIds(steps);
    if !OneWayIn(w, root) {
      var i, j :| TwoWaysIn(w, root, i, j) && LeadsToRecord(w, w.edges[i].target);
      var r :| Reaches(w, w.edges[i].target, r) && Records(w, r);
      TwoWaysLogTwice(w, root, steps, eps, i, j, r);
    }
    if !Simple(ids) {
      var k, l :| 0 <= k < l < |ids| && ids[k] == ids[l];
      LoggedTwiceHasTwoWays(w, root, steps, eps, k, l);
    }
  }

  /** A walk without error over an unconditional graph logs every reachable node that records, and logs
      each of them once exactly when none is reached by two ways. */
  lemma StepsCountReached(w: World, root: string, s: St)
    requires WellKeyed(w.nodes) && Unconditional(w, root) && s.exec.steps == []
    requires Visit(w, {}, root, s).0.None?
    ensures var n := |Visit(w, {}, root, s).1.exec.steps|;
      n >= |Reached(w, root)| && (n == |Reached(w, root)| <==> OneWayIn(w, root))
  {
    var eps := OneStepPerEdgePath(w, root, s);
    var steps := Visit(w, {}, root, s).1.exec.steps;
    NoErrorNoCycle(w, root, s);
    LoggedNodes(w, root, steps, eps);
    LoggedOnceIff(w, root, steps, eps);
    DistinctCount(M.StepIds(steps));
  }

  // ---------- the exact condition for totalSteps ----------

  ghost predicate DistinctIds(nodes: seq<Node>) {
    forall i, j :: 0 <= i < j < |nodes| ==> nodes[i].id != nodes[j].id
  }

  lemma LastIsNew(nodes: seq<Node>)
    requires DistinctIds(nodes) && nodes != []
    ensures var n := |nodes| - 1; DistinctIds(nodes[..n]) && nodes[n].id !in NodeIds(nodes[..n])
  {
    var front := nodes[..|nodes| - 1];
    assert forall i :: 0 <= i < |front| ==> front[i] == nodes[i];
  }

  lemma {:induction false} NonTriggersExact(nodes: seq<Node>)
    requires DistinctIds(nodes)
    ensures |NonTriggers(NodeMap(nodes))| == Executable(nodes)
    decreases |nodes|
  {
    if nodes == [] {
    } else {
      var n := |nodes| - 1;
      LastIsNew(nodes);
      NonTriggersExact(nodes[..n]);
      var before, after := NonTriggers(NodeMap(nodes[..n])), NonTriggers(NodeMap(nodes));
      if nodes[n].kind.Trigger? {
        assert after == before;
      } else {
        assert after == before + {nodes[n].id};
      }
    }
  }

  /** Everything in the graph takes part in a run: one trigger, and every other node logs and is reached
      from it. */
  ghost predicate AllTakePart(w: World, trigger: string) {
    && trigger in w.nodes && w.nodes[trigger].kind.Trigger?
    && forall n :: n in w.nodes && n != trigger ==>
         (w.nodes[n].kind.Executor? || w.nodes[n].kind.Action?) && Reaches(w, trigger, n)
  }

  ghost predicate EdgesKnown(w: World) {
    forall i :: 0 <= i < |w.edges| ==> w.edges[i].source in w.nodes && w.edges[i].target in w.nodes
  }

  lemma NoWayBack(w: World, trigger: string, i: nat)
    requires !CycleReachable(w, trigger) && i < |w.edges| && Reaches(w, trigger, w.edges[i].source)
    ensures w.edges[i].target != trigger
  {
    if w.edges[i].target == trigger {
      var p :| WalkFromTo(w, p, trigger, w.edges[i].source);
      assert HasEdge(w, w.edges[i].source, trigger);
      ExtendWalk(w, p, trigger);
      assert WalkFromTo(w, p + [trigger], trigger, trigger);
      ReachesSelf(w, trigger);
    }
  }

  /** Where everything takes part, having one way in is having one incoming edge. */
  lemma OneWayIsInDegreeOne(w: World, trigger: string)
    requires AllTakePart(w, trigger) && EdgesKnown(w) && !CycleReachable(w, trigger)
    ensures OneWayIn(w, trigger) <==> InDegreeOne(w.edges)
  {
    ReachesSelf(w, trigger);
    if OneWayIn(w, trigger) {
      forall i, j | 0 <= i < j < |w.edges| ensures w.edges[i].target != w.edges[j].target {
        var t := w.edges[i].target;
        NoWayBack(w, trigger, i);
        ReachesSelf(w, t);
        assert LeadsToRecord(w, t);
        assert !TwoWaysIn(w, trigger, i, j);
      }
    }
    if InDegreeOne(w.edges) {
      forall i, j ensures !TwoWaysIn(w, trigger, i, j) {
        if 0 <= i < |w.edges| && 0 <= j < |w.edges| && i < j {
          assert w.edges[i].target != w.edges[j].target;
        } else if 0 <= i < |w.edges| && 0 <= j < |w.edges| && j < i {
          assert w.edges[j].target != w.edges[i].target;
        }
      }
    }
  }

  lemma AllTakePartFacts(nodes: seq<Node>, w: World, trigger: string)
    requires w.nodes == NodeMap(nodes) && DistinctIds(nodes) && AllTakePart(w, trigger)
    ensures Unconditional(w, trigger) && |Reached(w, trigger)| == Executable(nodes)
  {
    NonTriggersExact(nodes);
    assert NonTriggers(w.nodes) == Reached(w, trigger);
  }

  lemma TotalOfWorld(nodes: seq<Node>, w: World, trigger: string, s: St)
    requires w.nodes == NodeMap(nodes) && DistinctIds(nodes) && EdgesKnown(w) && AllTakePart(w, trigger)
    requires s.exec.steps == [] && Visit(w, {}, trigger, s).0.None?
    ensures var n := |Visit(w, {}, trigger, s).1.exec.steps|;
      n >= Executable(nodes) && (n <= Executable(nodes) <==> InDegreeOne(w.edges))
  {
    AllTakePartFacts(nodes, w, trigger);
    NoErrorNoCycle(w, trigger, s);
    StepsCountReached(w, trigger, s);
    OneWayIsInDegreeOne(w, trigger);
  }

  /** When everything in a workflow takes part and the run meets no error, it logs at least totalSteps
      steps, and no more than totalSteps if and only if no node has two incoming edges. */
  lemma TotalIsExact(nodes: seq<Node>, edges: seq<Edge>, env: Env, trigger: string, s: St)
    requires DistinctIds(nodes) && EdgesResolve(nodes, edges) && s.exec.steps == []
    requires AllTakePart(World(NodeMap(nodes), edges, env), trigger)
    requires Visit(World(NodeMap(nodes), edges, env), {}, trigger, s).0.None?
    ensures var n := |Visit(World(NodeMap(nodes), edges, env), {}, trigger, s).1.exec.steps|;
      n >= Executable(nodes) && (n <= Executable(nodes) <==> InDegreeOne(edges))
  {
    TotalOfWorld(nodes, World(NodeMap(nodes), edges, env), trigger, s);
  }

  /** Surroundings in which everything succeeds. */
  const CALL := Call(true, Usable, true, true, n => R.Answered(map[]), n => None, data => Some(data))
  const CALM := Env(t => false, t => CALL, t => Weather(None, false), (condition, ctx) => Some(true))

  lemma CalmDelivers(node: Node, t: nat)
    requires node.ProviderConfigId() != ""
    ensures ExecutorResult(node, CALM.call(t)).Delivered?
  {
    assert R.RetrySpec(CALL.attempt, CALL.interrupt).answer == R.Answered(map[]);
  }

  /** In calm surroundings an acyclic graph in which everything takes part runs without error. */
  lemma CalmRun(nodes: seq<Node>, edges: seq<Edge>, trigger: string) returns (s: St)
    requires var w := World(NodeMap(nodes), edges, CALM);
      AllTakePart(w, trigger) && Configured(w) && EdgesKnown(w) && !CycleReachable(w, trigger)
    ensures s.exec.steps == [] && Visit(World(NodeMap(nodes), edges, CALM), {}, trigger, s).0.None?
  {
    var w := World(NodeMap(nodes), edges, CALM);
    var e := E.NewExecution(0, 0, map[], None, 0).(status := E.Running);
    s := St(e, map[], 0, E.Store(Some(e), [], [E.Running]), 0);
    forall n, t | Reaches(w, trigger, n) && n in w.nodes && w.nodes[n].kind.Executor?
      ensures ExecutorResult(w.nodes[n], w.env.call(t)).Delivered?
    {
      CalmDelivers(w.nodes[n], t);
    }
    CalmSucceeds(w, trigger);
    AllKnownFrom(w, trigger);
    CycleDetectionIsExact(w, trigger, s);
  }

  lemma AllKnownFrom(w: World, a: string)
    requires a in w.nodes && EdgesKnown(w)
    ensures AllKnown(w, a)
  {
    forall n | Reaches(w, a, n) ensures n in w.nodes {
      var p :| WalkFromTo(w, p, a, n);
      if |p| > 1 { assert HasEdge(w, p[|p| - 2], p[|p| - 1]); }
    }
  }

  /** Executors name their provider configuration, as activation demands. */
  ghost predicate Configured(w: World) {
    forall n :: n in w.nodes && w.nodes[n].kind.Executor? ==> w.nodes[n].ProviderConfigId() != ""
  }

  ghost predicate WithinTotal(nodes: seq<Node>, edges: seq<Edge>, env: Env, trigger: string, s: St) {
    s.exec.steps == [] ==>
      |Visit(World(NodeMap(nodes), edges, env), {}, trigger, s).1.exec.steps| <= Executable(nodes)
  }

  /** An acyclic workflow in which everything takes part keeps within totalSteps in all runs, whatever
      their surroundings and however they end, if and only if no node has two incoming edges. */
  lemma WithinTotalIff(nodes: seq<Node>, edges: seq<Edge>, trigger: string)
    requires DistinctIds(nodes) && EdgesResolve(nodes, edges)
    requires var w := World(NodeMap(nodes), edges, CALM);
      AllTakePart(w, trigger) && Configured(w) && !CycleReachable(w, trigger)
    ensures (forall env, s :: WithinTotal(nodes, edges, env, trigger, s)) <==> InDegreeOne(edges)
  {
    if InDegreeOne(edges) {
      forall env, s ensures WithinTotal(nodes, edges, env, trigger, s) {
        if s.exec.steps == [] { StepsWithinTotal(nodes, edges, env, trigger, s); }
      }
    } else {
      var s := CalmRun(nodes, edges, trigger);
      TotalIsExact(nodes, edges, CALM, trigger, s);
      assert !WithinTotal(nodes, edges, CALM, trigger, s);
    }
  }

  // ---------- a graph that exceeds it ----------

  const TRIGGER_NODE := Node("t", Trigger, None, map[])
  const ACTION_NODE := Node("a", Action, None, map[])
  const PARALLEL_EDGES := [Edge("1", "t", "a", None), Edge("2", "t", "a", None)]

  lemma ParallelGraph(env: Env)
    ensures var w := World(NodeMap([TRIGGER_NODE, ACTION_NODE]), PARALLEL_EDGES, env);
      && w.nodes == map["t" := TRIGGER_NODE, "a" := ACTION_NODE]
      && Executable([TRIGGER_NODE, ACTION_NODE]) == 1
      && Successors(w, "t") == ["a", "a"] && Successors(w, "a") == []
  {
    var nodes, edges := [TRIGGER_NODE, ACTION_NODE], PARALLEL_EDGES;
    assert nodes[..1] == [TRIGGER_NODE] && [TRIGGER_NODE][..0] == [];
    assert edges[..1] == [edges[0]] && [edges[0]][..0] == [];
    assert Executable([TRIGGER_NODE]) == 0;
    assert OutEdges(edges, "t") == edges && OutEdges(edges, "a") == [];
  }

  lemma TwoLeaves(w: World, path: set<string>, id: string, s: St)
    requires id in w.nodes && w.nodes[id].kind.Action? && id !in path && Successors(w, id) == []
    requires forall t :: !w.env.expired(t)
    ensures var (err, s1) := VisitAll(w, path, [id, id], s);
      err.None? && |s1.exec.steps| == |s.exec.steps| + 2
  {
    ActionLeaf(w, path, id, s);
    var (_, s1) := Visit(w, path, id, s);
    ActionLeaf(w, path, id, s1);
    assert [id, id][1..] == [id];
    OneTarget(w, path, id, s1);
  }

  /** The smallest graph that fails the condition: with two edges from the trigger to one action node, the
      node runs twice while totalSteps counts it once. */
  lemma ParallelEdgesExceedTotal(env: Env, s: St)
    requires s.exec.steps == [] && forall t :: !env.expired(t)
    ensures var nodes := [TRIGGER_NODE, ACTION_NODE];
      var (err, s1) := Visit(World(NodeMap(nodes), PARALLEL_EDGES, env), {}, "t", s);
      err.None? && Executable(nodes) == 1 && |s1.exec.steps| == 2
  {
    ParallelGraph(env);
    var w := World(NodeMap([TRIGGER_NODE, ACTION_NODE]), PARALLEL_EDGES, env);
    VisitEquation(w, {}, "t", s);
    P.NodeThatPasses(w, "t", s.Later());
    TwoLeaves(w, {} + {"t"}, "a", s.Later());
  }

  lemma ActionLeaf(w: World, path: set<string>, id: string, s: St)
    requires id in w.nodes && w.nodes[id].kind.Action? && id !in path && Successors(w, id) == []
    requires !w.env.expired(s.now)
    ensures var (err, s1) := Visit(w, path, id, s);
      err.None? && |s1.exec.steps| == |s.exec.steps| + 1
  {
    VisitEquation(w, path, id, s);
  }
}
