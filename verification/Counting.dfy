/** How often nodes run: once per edge path from the trigger. */
module Counting {
  import opened Values
  import opened Workflows
  import opened Engine
  import opened Unfolding
  import opened Cycles
  import E = Executions
  import P = RunProperties

  // ---------- edge paths ----------

  /** An edge path gives, node by node, the index of the outgoing edge to take. */
  type EdgePath = seq<nat>

  /** The node an edge path leads to from id, if every index names an edge. */
  function Follow(w: World, id: string, ep: EdgePath): Option<string>
    decreases |ep|
  {
    if ep == [] then Some(id)
    else if ep[0] < |Successors(w, id)| then Follow(w, Successors(w, id)[ep[0]], ep[1..])
    else None
  }

  /** The preorder of positions in a tree: an ancestor first, then left before right. */
  predicate Before(a: EdgePath, b: EdgePath) {
    b != [] && (a == [] || a[0] < b[0] || (a[0] == b[0] && Before(a[1..], b[1..])))
  }

  ghost predicate InPreorder(eps: seq<EdgePath>) {
    forall i, j :: 0 <= i < j < |eps| ==> Before(eps[i], eps[j])
  }

  lemma BeforeIsStrict(a: EdgePath)
    ensures !Before(a, a)
  {
  }

  function Under(i: nat, eps: seq<EdgePath>): (r: seq<EdgePath>)
    ensures |r| == |eps| && forall k :: 0 <= k < |r| ==> r[k] == [i] + eps[k]
  {
    if eps == [] then [] else [[i] + eps[0]] + Under(i, eps[1..])
  }

  /** The edge paths, within an unfolding, of the nodes that log a step. */
  function Positions(w: World, t: Tree): seq<EdgePath>
    decreases t
  {
    (if Records(w, t.id) then [[]] else []) + PositionsFrom(w, t.kids, 0)
  }

  function PositionsFrom(w: World, kids: seq<Tree>, i: nat): seq<EdgePath>
    decreases kids
  {
    if kids == [] then [] else Under(i, Positions(w, kids[0])) + PositionsFrom(w, kids[1..], i + 1)
  }

  /** eps are positions below `from`, in preorder, that lead to the logged nodes. */
  ghost predicate Leads(w: World, from: string, eps: seq<EdgePath>, log: seq<Entry>) {
    && |eps| == |log| && InPreorder(eps)
    && forall k :: 0 <= k < |eps| ==> Follow(w, from, eps[k]) == Some(log[k].id)
  }

  lemma JoinPreorders(a: seq<EdgePath>, b: seq<EdgePath>)
    requires InPreorder(a) && InPreorder(b)
    requires forall i, j :: 0 <= i < |a| && 0 <= j < |b| ==> Before(a[i], b[j])
    ensures InPreorder(a + b)
  {
  }

  lemma UnderKeepsOrder(i: nat, eps: seq<EdgePath>)
    requires InPreorder(eps)
    ensures InPreorder(Under(i, eps))
  {
    var r := Under(i, eps);
    forall a, b | 0 <= a < b < |r| ensures Before(r[a], r[b]) {
      assert r[a][1..] == eps[a] && r[b][1..] == eps[b];
    }
  }

  /** An unfolding in which no node branches: children stand for the first successors, in order,
      and for all of them in a whole unfolding. */
  ghost predicate Plain(w: World, t: Tree)
    decreases t
  {
    && |t.kids| <= |Successors(w, t.id)|
    && (t.whole ==> |t.kids| == |Successors(w, t.id)|)
    && forall i :: 0 <= i < |t.kids| ==>
         t.kids[i].id == Successors(w, t.id)[i] && Plain(w, t.kids[i]) && (t.whole ==> t.kids[i].whole)
  }

  lemma {:induction false} UnconditionalIsPlain(w: World, root: string, path: set<string>, t: Tree)
    requires Unconditional(w, root) && Reaches(w, root, t.id) && Unfolds(w, path, t)
    ensures Plain(w, t)
    decreases t
  {
    assert NextOf(w, t.id, t.branch) == Successors(w, t.id);
    SuccessorsAreEdges(w, t.id);
    forall i | 0 <= i < |t.kids| ensures t.kids[i].id == Successors(w, t.id)[i] && Plain(w, t.kids[i]) {
      assert t.kids[i].id in Successors(w, t.id);
      ReachesNext(w, root, t.id, t.kids[i].id);
      UnconditionalIsPlain(w, root, path + {t.id}, t.kids[i]);
    }
  }

  /** Positions below a node that start at its i-th edge or later. */
  ghost predicate StartFrom(eps: seq<EdgePath>, i: nat) {
    forall k :: 0 <= k < |eps| ==> eps[k] != [] && eps[k][0] >= i
  }

  lemma {:induction false} PositionsLead(w: World, t: Tree)
    requires Plain(w, t)
    ensures Leads(w, t.id, Positions(w, t), Preorder(w, t))
    decreases t, 1, 0
  {
    assert t.kids[0..] == t.kids;
    PositionsFromLead(w, t, 0);
    LeadsFromRoot(w, t.id, PositionsFrom(w, t.kids, 0), PreorderAll(w, t.kids), t.branch);
  }

  lemma LeadsFromRoot(w: World, id: string, below: seq<EdgePath>, log: seq<Entry>, branch: Option<bool>)
    requires Leads(w, id, below, log) && StartFrom(below, 0)
    ensures Leads(w, id, [[]] + below, [Entry(id, branch)] + log)
  {
    JoinPreorders([[]], below);
  }

  lemma LeadsUnder(w: World, from: string, i: nat, eps: seq<EdgePath>, log: seq<Entry>)
    requires i < |Successors(w, from)| && Leads(w, Successors(w, from)[i], eps, log)
    ensures Leads(w, from, Under(i, eps), log)
    ensures forall k :: 0 <= k < |eps| ==> Under(i, eps)[k] != [] && Under(i, eps)[k][0] == i
  {
    UnderKeepsOrder(i, eps);
    forall k | 0 <= k < |eps| ensures Follow(w, from, Under(i, eps)[k]) == Some(log[k].id) {
      assert Under(i, eps)[k][1..] == eps[k];
    }
  }

  lemma LeadsTogether(w: World, from: string, i: nat, a: seq<EdgePath>, aLog: seq<Entry>,
                      b: seq<EdgePath>, bLog: seq<Entry>)
    requires Leads(w, from, a, aLog) && forall k :: 0 <= k < |a| ==> a[k] != [] && a[k][0] == i
    requires Leads(w, from, b, bLog) && StartFrom(b, i + 1)
    ensures Leads(w, from, a + b, aLog + bLog) && StartFrom(a + b, i)
  {
    HeadsOrder(i, a, b);
    JoinPreorders(a, b);
    var eps, log := a + b, aLog + bLog;
    forall k | 0 <= k < |eps|
      ensures eps[k] != [] && eps[k][0] >= i && Follow(w, from, eps[k]) == Some(log[k].id)
    {
      if k < |a| {
        assert eps[k] == a[k] && log[k] == aLog[k];
      } else {
        assert eps[k] == b[k - |a|] && log[k] == bLog[k - |a|];
      }
    }
  }

  lemma HeadsOrder(i: nat, a: seq<EdgePath>, b: seq<EdgePath>)
    requires forall k :: 0 <= k < |a| ==> a[k] != [] && a[k][0] == i
    requires StartFrom(b, i + 1)
    ensures forall j, k :: 0 <= j < |a| && 0 <= k < |b| ==> Before(a[j], b[k])
  {
  }

  lemma {:induction false} PositionsFromLead(w: World, t: Tree, i: nat)
    requires Plain(w, t) && i <= |t.kids|
    ensures Leads(w, t.id, PositionsFrom(w, t.kids[i..], i), PreorderAll(w, t.kids[i..]))
    ensures StartFrom(PositionsFrom(w, t.kids[i..], i), i)
    decreases t, 0, |t.kids| - i
  {
    if i == |t.kids| {
    } else {
      var kid, rest := t.kids[i], t.kids[i + 1..];
      assert t.kids[i..][0] == kid && t.kids[i..][1..] == rest;
      PositionsLead(w, kid);
      LeadsUnder(w, t.id, i, Positions(w, kid), Preorder(w, kid));
      PositionsFromLead(w, t, i + 1);
      LeadsTogether(w, t.id, i, Under(i, Positions(w, kid)), Preorder(w, kid),
                    PositionsFrom(w, rest, i + 1), PreorderAll(w, rest));
    }
  }

  lemma {:induction false} PositionsFromHas(w: World, kids: seq<Tree>, i: nat, k: nat, ep: EdgePath)
    requires k < |kids| && ep in Positions(w, kids[k])
    ensures [i + k] + ep in PositionsFrom(w, kids, i)
    decreases k
  {
    if k == 0 {
      UnderHas(i, Positions(w, kids[0]), ep);
    } else {
      PositionsFromHas(w, kids[1..], i + 1, k - 1, ep);
    }
  }

  lemma UnderHas(i: nat, eps: seq<EdgePath>, ep: EdgePath)
    requires ep in eps
    ensures [i] + ep in Under(i, eps)
  {
    var j :| 0 <= j < |eps| && eps[j] == ep;
    assert Under(i, eps)[j] == [i] + ep;
  }

  lemma PositionsBelow(w: World, t: Tree, ep: EdgePath)
    requires ep in PositionsFrom(w, t.kids, 0)
    ensures ep in Positions(w, t)
  {
  }

  lemma FollowIntoKid(w: World, t: Tree, ep: EdgePath)
    requires Plain(w, t) && t.whole && ep != [] && Follow(w, t.id, ep).Some?
    ensures ep[0] < |t.kids| && Plain(w, t.kids[ep[0]]) && t.kids[ep[0]].whole
    ensures Follow(w, t.kids[ep[0]].id, ep[1..]) == Follow(w, t.id, ep)
  {
  }

  /** In a whole unfolding every edge path to a node that logs is a position. */
  lemma {:induction false} PositionsComplete(w: World, t: Tree, ep: EdgePath)
    requires Plain(w, t) && t.whole
    requires Follow(w, t.id, ep).Some? && Records(w, Follow(w, t.id, ep).value)
    ensures ep in Positions(w, t)
    decreases |ep|
  {
    if ep == [] {
      assert Positions(w, t)[0] == [];
    } else {
      FollowIntoKid(w, t, ep);
      PositionsComplete(w, t.kids[ep[0]], ep[1..]);
      KidPosition(w, t, ep);
    }
  }

  lemma KidPosition(w: World, t: Tree, ep: EdgePath)
    requires ep != [] && ep[0] < |t.kids| && ep[1..] in Positions(w, t.kids[ep[0]])
    ensures ep in Positions(w, t)
  {
    PositionsFromHas(w, t.kids, 0, ep[0], ep[1..]);
    assert [0 + ep[0]] + ep[1..] == ep;
    PositionsBelow(w, t, ep);
  }

  /** In a walk without error over an unconditional graph, the steps stand for the edge paths from
      the root to logging nodes: one step for each, in preorder. */
  lemma OneStepPerEdgePath(w: World, root: string, s: St) returns (eps: seq<EdgePath>)
    requires WellKeyed(w.nodes) && Unconditional(w, root) && s.exec.steps == []
    requires Visit(w, {}, root, s).0.None?
    ensures StepsAreEdgePaths(w, root, Visit(w, {}, root, s).1.exec.steps, eps)
  {
    var walked := VisitUnfolds(w, {}, root, s);
    var t := walked.value;
    ReachesSelf(w, root);
    UnconditionalIsPlain(w, root, {}, t);
    eps := EdgePathsOfTree(w, t, Visit(w, {}, root, s).1.exec.steps);
  }

  /** eps lists, without repetition and in preorder, the edge paths from the root to the nodes that
      log, and step k was logged at the end of the k-th of them. */
  ghost predicate StepsAreEdgePaths(w: World, root: string, steps: seq<E.Step>, eps: seq<EdgePath>) {
    && |eps| == |steps| && InPreorder(eps)
    && (forall i, j :: 0 <= i < j < |eps| ==> eps[i] != eps[j])
    && (forall k :: 0 <= k < |eps| ==> Follow(w, root, eps[k]) == Some(steps[k].nodeId))
    && (forall ep :: ep in eps <==> Follow(w, root, ep).Some? && Records(w, Follow(w, root, ep).value))
  }

  lemma EdgePathsOfTree(w: World, t: Tree, steps: seq<E.Step>) returns (eps: seq<EdgePath>)
    requires Plain(w, t) && t.whole && Entries(w, steps) == Preorder(w, t)
    ensures StepsAreEdgePaths(w, t.id, steps, eps)
  {
    eps := Positions(w, t);
    PositionsLead(w, t);
    forall i, j | 0 <= i < j < |eps| ensures eps[i] != eps[j] {
      if eps[i] == eps[j] { BeforeIsStrict(eps[i]); }
    }
    forall k | 0 <= k < |eps| ensures Follow(w, t.id, eps[k]) == Some(steps[k].nodeId) {
      assert Entries(w, steps)[k].id == steps[k].nodeId;
    }
    PositionsAreExact(w, t);
  }

  lemma PositionsAreExact(w: World, t: Tree)
    requires Plain(w, t) && t.whole && Leads(w, t.id, Positions(w, t), Preorder(w, t))
    ensures forall ep :: ep in Positions(w, t) <==>
              Follow(w, t.id, ep).Some? && Records(w, Follow(w, t.id, ep).value)
  {
    var eps := Positions(w, t);
    forall ep | Follow(w, t.id, ep).Some? && Records(w, Follow(w, t.id, ep).value) ensures ep in eps {
      PositionsComplete(w, t, ep);
    }
    EntriesRecord(w, t);
    forall ep | ep in eps ensures Follow(w, t.id, ep).Some? && Records(w, Follow(w, t.id, ep).value) {
      var k :| 0 <= k < |eps| && eps[k] == ep;
      assert Preorder(w, t)[k] in Preorder(w, t);
    }
  }

  lemma {:induction false} EntriesRecord(w: World, t: Tree)
    ensures forall e :: e in Preorder(w, t) ==> Records(w, e.id)
    decreases t, 0
  {
    EntriesRecordAll(w, t.kids);
  }

  lemma {:induction false} EntriesRecordAll(w: World, kids: seq<Tree>)
    ensures forall e :: e in PreorderAll(w, kids) ==> Records(w, e.id)
    decreases kids, 1
  {
    if kids == [] {
    } else {
      EntriesRecord(w, kids[0]);
      EntriesRecordAll(w, kids[1..]);
    }
  }
}
