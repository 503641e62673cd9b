/** The walk refines a pure unfolding of the graph: preorder logs, cycles, counts. */
module Unfolding {
  import opened Values
  import opened Workflows
  import opened Engine
  import E = Executions
  import P = RunProperties

  // ---------- unfoldings ----------

  /** A visited node with its visited children. A conditional that was decided carries its branch;
      `whole` says that the walk below came to its regular end. */
  datatype Tree = Tree(id: string, branch: Option<bool>, whole: bool, kids: seq<Tree>)

  /** The nodes that follow a node in the graph: all successors, or the chosen branch of a conditional. */
  function NextOf(w: World, id: string, branch: Option<bool>): seq<string>
    requires id in w.nodes
  {
    if !w.nodes[id].kind.Conditional? then Successors(w, id)
    else if branch.None? then []
    else BranchTargets(OutEdges(w.edges, id), if branch.value then "true" else "false")
  }

  /** t unfolds the graph from t.id, off the nodes of path: no node repeats on the way down, the
      children are the next nodes in order, and only the last child may be cut short. */
  ghost predicate Unfolds(w: World, path: set<string>, t: Tree)
    decreases t
  {
    && t.id !in path && t.id in w.nodes
    && (w.nodes[t.id].kind.Conditional? || t.branch.None?)
    && UnfoldKids(w, path + {t.id}, NextOf(w, t.id, t.branch), t.kids)
    && (t.whole ==> |t.kids| == |NextOf(w, t.id, t.branch)| && AllWhole(t.kids))
    && (t.whole && w.nodes[t.id].kind.Conditional? ==> t.branch.Some?)
  }

  ghost predicate UnfoldKids(w: World, path: set<string>, targets: seq<string>, kids: seq<Tree>)
    decreases kids
  {
    && |kids| <= |targets|
    && (forall i :: 0 <= i < |kids| ==> kids[i].id == targets[i] && Unfolds(w, path, kids[i]))
    && (forall i :: 0 <= i < |kids| - 1 ==> kids[i].whole)
  }

  ghost predicate AllWhole(kids: seq<Tree>) {
    forall i :: 0 <= i < |kids| ==> kids[i].whole
  }

  // ---------- the log as a preorder ----------

  datatype Entry = Entry(id: string, branch: Option<bool>)

  /** Node types that log a step. */
  predicate Records(w: World, id: string) {
    id in w.nodes && (w.nodes[id].kind.Executor? || w.nodes[id].kind.Conditional? || w.nodes[id].kind.Action?)
  }

  function Preorder(w: World, t: Tree): seq<Entry>
    decreases t
  {
    (if Records(w, t.id) then [Entry(t.id, t.branch)] else []) + PreorderAll(w, t.kids)
  }

  function PreorderAll(w: World, kids: seq<Tree>): seq<Entry>
    decreases kids
  {
    if kids == [] then [] else Preorder(w, kids[0]) + PreorderAll(w, kids[1..])
  }

  /** What a step says about the walk: its node and, for a completed conditional, the branch. */
  function EntryOf(w: World, step: E.Step): Entry {
    Entry(step.nodeId,
      if step.nodeId in w.nodes && w.nodes[step.nodeId].kind.Conditional? && step.status.StepCompleted?
         && "result" in step.output && step.output["result"].Bool?
      then Some(step.output["result"].b) else None)
  }

  function Entries(w: World, steps: seq<E.Step>): (r: seq<Entry>)
    ensures |r| == |steps| && forall i :: 0 <= i < |r| ==> r[i] == EntryOf(w, steps[i])
  {
    if steps == [] then [] else [EntryOf(w, steps[0])] + Entries(w, steps[1..])
  }

  lemma {:induction false} EntriesAppend(w: World, steps: seq<E.Step>, step: E.Step)
    ensures Entries(w, steps + [step]) == Entries(w, steps) + [EntryOf(w, step)]
  {
  }

  /** A processed node as a leaf of the unfolding. */
  lemma ProcessedNode(w: World, id: string, s: St) returns (branch: Option<bool>)
    requires WellKeyed(w.nodes) && id in w.nodes
    ensures w.nodes[id].kind.Conditional? || branch.None?
    ensures var p, leaf := ProcessNode(w, id, s), Tree(id, branch, false, []);
      && Entries(w, p.after.exec.steps) == Entries(w, s.exec.steps) + Preorder(w, leaf)
      && (p.error.None? ==> p.targets == NextOf(w, id, branch))
      && (p.error.None? && w.nodes[id].kind.Conditional? ==> branch.Some?)
  {
    if Records(w, id) {
      var step := P.OneStepLogged(w, id, s);
      EntriesAppend(w, s.exec.steps, step);
      branch := EntryOf(w, step).branch;
    } else {
      P.NodeThatPasses(w, id, s);
      branch := None;
    }
    if !w.nodes[id].kind.Conditional? && ProcessNode(w, id, s).error.None? {
      P.TargetsOfPlainNode(w, id, s);
    }
  }

  /** The log of a walk is the preorder of an unfolding. */
  ghost predicate WalkedAs(w: World, path: set<string>, id: string, s: St,
                           r: (Option<E.RunError>, St), t: Option<Tree>) {
    if t.None? then r.0.Some? && r.1.exec.steps == s.exec.steps
    else
      && t.value.id == id && Unfolds(w, path, t.value) && (t.value.whole <==> r.0.None?)
      && Entries(w, r.1.exec.steps) == Entries(w, s.exec.steps) + Preorder(w, t.value)
  }

  ghost predicate AllWalkedAs(w: World, path: set<string>, targets: seq<string>, s: St,
                              r: (Option<E.RunError>, St), kids: seq<Tree>) {
    && UnfoldKids(w, path, targets, kids)
    && (r.0.None? ==> |kids| == |targets| && AllWhole(kids))
    && Entries(w, r.1.exec.steps) == Entries(w, s.exec.steps) + PreorderAll(w, kids)
  }

  lemma PreorderOfKids(w: World, id: string, branch: Option<bool>, whole: bool, kids: seq<Tree>)
    ensures Preorder(w, Tree(id, branch, whole, kids)) ==
            Preorder(w, Tree(id, branch, false, [])) + PreorderAll(w, kids)
  {
  }

  lemma ConsKids(w: World, path: set<string>, targets: seq<string>, first: Tree, rest: seq<Tree>)
    requires targets != [] && first.id == targets[0] && Unfolds(w, path, first)
    requires first.whole || rest == []
    requires UnfoldKids(w, path, targets[1..], rest)
    ensures UnfoldKids(w, path, targets, [first] + rest)
    ensures PreorderAll(w, [first] + rest) == Preorder(w, first) + PreorderAll(w, rest)
  {
    var kids := [first] + rest;
    assert kids[1..] == rest;
    forall i | 0 <= i < |kids|
      ensures kids[i].id == targets[i] && Unfolds(w, path, kids[i])
      ensures i < |kids| - 1 ==> kids[i].whole
    {
      if i > 0 { assert kids[i] == rest[i - 1] && targets[i] == targets[1..][i - 1]; }
    }
  }

  lemma Graft(w: World, path: set<string>, id: string, branch: Option<bool>, whole: bool, kids: seq<Tree>)
    requires id !in path && id in w.nodes && (w.nodes[id].kind.Conditional? <==> branch.Some?)
    requires UnfoldKids(w, path + {id}, NextOf(w, id, branch), kids)
    requires whole ==> |kids| == |NextOf(w, id, branch)| && AllWhole(kids)
    ensures Unfolds(w, path, Tree(id, branch, whole, kids))
  {
  }

  lemma Refused(w: World, path: set<string>, id: string, branch: Option<bool>)
    requires id !in path && id in w.nodes && (w.nodes[id].kind.Conditional? || branch.None?)
    ensures Unfolds(w, path, Tree(id, branch, false, []))
  {
  }

  lemma EntriesOfKids(w: World, id: string, branch: Option<bool>, whole: bool, kids: seq<Tree>,
                      before: seq<Entry>, node: seq<Entry>, after: seq<Entry>)
    requires node == before + Preorder(w, Tree(id, branch, false, []))
    requires after == node + PreorderAll(w, kids)
    ensures after == before + Preorder(w, Tree(id, branch, whole, kids))
  {
    PreorderOfKids(w, id, branch, whole, kids);
  }

  lemma VisitEquation(w: World, path: set<string>, id: string, s: St)
    requires !w.env.expired(s.now) && id !in path && id in w.nodes
    ensures var p := ProcessNode(w, id, s.Later());
      Visit(w, path, id, s) ==
      if p.error.Some? then (p.error, p.after) else VisitAll(w, path + {id}, p.targets, p.after)
  {
  }

  /** Every walk logs the preorder of an unfolding from its node, whole exactly when the walk
      returned without error; no tree means that the node itself was refused. */
  lemma {:induction false} VisitUnfolds(w: World, path: set<string>, id: string, s: St) returns (t: Option<Tree>)
    requires WellKeyed(w.nodes)
    ensures WalkedAs(w, path, id, s, Visit(w, path, id, s), t)
    decreases |w.nodes.Keys - path|, 0, 1
  {
    if w.env.expired(s.now) || id in path || id !in w.nodes { return None; }
    VisitEquation(w, path, id, s);
    var branch := ProcessedNode(w, id, s.Later());
    t := ProcessedUnfolds(w, path, id, s, ProcessNode(w, id, s.Later()), branch);
  }

  lemma {:induction false} ProcessedUnfolds(w: World, path: set<string>, id: string, s: St, p: Processed,
                                            branch: Option<bool>) returns (t: Option<Tree>)
    requires WellKeyed(w.nodes)
    requires id !in path && id in w.nodes && (w.nodes[id].kind.Conditional? || branch.None?)
    requires Entries(w, p.after.exec.steps) == Entries(w, s.exec.steps) + Preorder(w, Tree(id, branch, false, []))
    requires p.error.None? ==> p.targets == NextOf(w, id, branch) && (w.nodes[id].kind.Conditional? ==> branch.Some?)
    ensures WalkedAs(w, path, id, s,
      if p.error.Some? then (p.error, p.after) else VisitAll(w, path + {id}, p.targets, p.after), t)
    decreases |w.nodes.Keys - path|, 0, 0
  {
    if p.error.Some? {
      Refused(w, path, id, branch);
      return Some(Tree(id, branch, false, []));
    }
    PathGrows(w, path, id);
    var kids := VisitAllUnfolds(w, path + {id}, p.targets, p.after);
    var r := VisitAll(w, path + {id}, p.targets, p.after);
    Graft(w, path, id, branch, r.0.None?, kids);
    EntriesOfKids(w, id, branch, r.0.None?, kids,
                  Entries(w, s.exec.steps), Entries(w, p.after.exec.steps), Entries(w, r.1.exec.steps));
    return Some(Tree(id, branch, r.0.None?, kids));
  }

  lemma ConsWhole(first: Tree, rest: seq<Tree>)
    requires first.whole && AllWhole(rest)
    ensures AllWhole([first] + rest)
  {
  }

  lemma EntriesInTurn(before: seq<Entry>, first: seq<Entry>, between: seq<Entry>, rest: seq<Entry>, after: seq<Entry>)
    requires between == before + first && after == between + rest
    ensures after == before + (first + rest)
  {
  }

  /** The first target was walked to its end, and the walk went on with the rest. */
  lemma FirstWalkedOn(w: World, path: set<string>, targets: seq<string>, s: St, first: Option<Tree>, s1: St,
                      rest: seq<Tree>, r: (Option<E.RunError>, St)) returns (kids: seq<Tree>)
    requires targets != [] && WalkedAs(w, path, targets[0], s, (None, s1), first)
    requires AllWalkedAs(w, path, targets[1..], s1, r, rest)
    ensures AllWalkedAs(w, path, targets, s, r, kids)
  {
    kids := [first.value] + rest;
    ConsKids(w, path, targets, first.value, rest);
    EntriesInTurn(Entries(w, s.exec.steps), Preorder(w, first.value), Entries(w, s1.exec.steps),
                  PreorderAll(w, rest), Entries(w, r.1.exec.steps));
    if r.0.None? { ConsWhole(first.value, rest); }
  }

  /** The walk of the first target ended in an error: it leaves one kid, or none if it was refused. */
  lemma FirstEnds(w: World, path: set<string>, targets: seq<string>, s: St, first: Option<Tree>,
                  err: Option<E.RunError>, s1: St) returns (kids: seq<Tree>)
    requires targets != [] && err.Some? && WalkedAs(w, path, targets[0], s, (err, s1), first)
    ensures AllWalkedAs(w, path, targets, s, (err, s1), kids)
  {
    if first.None? { return []; }
    ConsKids(w, path, targets, first.value, []);
    assert [first.value] + [] == [first.value];
    kids := [first.value];
  }

  lemma {:induction false} VisitAllUnfolds(w: World, path: set<string>, targets: seq<string>, s: St)
    returns (kids: seq<Tree>)
    requires WellKeyed(w.nodes)
    ensures AllWalkedAs(w, path, targets, s, VisitAll(w, path, targets, s), kids)
    decreases |w.nodes.Keys - path|, |targets|
  {
    if targets == [] { return []; }
    var first := VisitUnfolds(w, path, targets[0], s);
    var (err, s1) := Visit(w, path, targets[0], s);
    if err.None? {
      var rest := VisitAllUnfolds(w, path, targets[1..], s1);
      kids := FirstWalkedOn(w, path, targets, s, first, s1, rest, VisitAll(w, path, targets[1..], s1));
    } else {
      kids := FirstEnds(w, path, targets, s, first, err, s1);
    }
  }
}
