/** The moments of a walk: every processing of a node, with the recursion stack and the state at that time. */
module Moments {
  import opened Values
  import opened Workflows
  import opened Engine
  import opened Unfolding
  import E = Executions
  import P = RunProperties

  /** `path` holds the nodes above `id` on the recursion stack. */
  datatype Moment = Moment(path: set<string>, id: string, at: St)

  /** The moments of Visit, in order. */
  function VisitMoments(w: World, path: set<string>, id: string, s: St): seq<Moment>
    decreases |w.nodes.Keys - path|, 0
  {
    if w.env.expired(s.now) || id in path || id !in w.nodes then []
    else
      var p := ProcessNode(w, id, s.Later());
      PathGrows(w, path, id);
      [Moment(path, id, s.Later())] +
      if p.error.Some? then [] else AllMoments(w, path + {id}, p.targets, p.after)
  }

  function AllMoments(w: World, path: set<string>, targets: seq<string>, s: St): seq<Moment>
    decreases |w.nodes.Keys - path|, |targets|
  {
    if targets == [] then []
    else
      var (err, s1) := Visit(w, path, targets[0], s);
      VisitMoments(w, path, targets[0], s) + if err.Some? then [] else AllMoments(w, path, targets[1..], s1)
  }

  // ---------- the moments and the log ----------

  function StepIds(steps: seq<E.Step>): (r: seq<string>)
    ensures |r| == |steps| && forall i :: 0 <= i < |r| ==> r[i] == steps[i].nodeId
  {
    if steps == [] then [] else [steps[0].nodeId] + StepIds(steps[1..])
  }

  /** The moments at which a step is logged, by their nodes. */
  function Recorded(w: World, moments: seq<Moment>): seq<string> {
    if moments == [] then []
    else (if Records(w, moments[0].id) then [moments[0].id] else []) + Recorded(w, moments[1..])
  }

  lemma {:induction false} RecordedTogether(w: World, a: seq<Moment>, b: seq<Moment>)
    ensures Recorded(w, a + b) == Recorded(w, a) + Recorded(w, b)
    decreases |a|
  {
    if a == [] {
      assert a + b == b;
    } else {
      assert (a + b)[1..] == a[1..] + b;
      RecordedTogether(w, a[1..], b);
    }
  }

  /** Ids logged by a first part and then by the rest. */
  lemma LoggedInTurn(w: World, first: seq<Moment>, rest: seq<Moment>,
                     before: seq<string>, between: seq<string>, after: seq<string>)
    requires between == before + Recorded(w, first) && after == between + Recorded(w, rest)
    ensures after == before + Recorded(w, first + rest)
  {
    RecordedTogether(w, first, rest);
  }

  lemma OneIdLogged(w: World, id: string, s: St)
    requires WellKeyed(w.nodes) && id in w.nodes
    ensures StepIds(ProcessNode(w, id, s).after.exec.steps) ==
            StepIds(s.exec.steps) + if Records(w, id) then [id] else []
  {
    if Records(w, id) {
      var step := P.OneStepLogged(w, id, s);
    } else {
      P.NodeThatPasses(w, id, s);
    }
  }

  /** The moments tell the log: its new steps belong, in order, to the moments at which nodes record. */
  lemma {:induction false} MomentsTellTheLog(w: World, path: set<string>, id: string, s: St)
    requires WellKeyed(w.nodes)
    ensures StepIds(Visit(w, path, id, s).1.exec.steps) ==
            StepIds(s.exec.steps) + Recorded(w, VisitMoments(w, path, id, s))
    decreases |w.nodes.Keys - path|, 0
  {
    if w.env.expired(s.now) || id in path || id !in w.nodes {
    } else {
      VisitEquation(w, path, id, s);
      OneIdLogged(w, id, s.Later());
      var p := ProcessNode(w, id, s.Later());
      var here := [Moment(path, id, s.Later())];
      PathGrows(w, path, id);
      assert Recorded(w, here) == (if Records(w, id) then [id] else []) by { assert here[1..] == []; }
      if p.error.None? {
        AllMomentsTellTheLog(w, path + {id}, p.targets, p.after);
        LoggedInTurn(w, here, AllMoments(w, path + {id}, p.targets, p.after), StepIds(s.exec.steps),
                     StepIds(p.after.exec.steps), StepIds(Visit(w, path, id, s).1.exec.steps));
      } else {
        assert here + [] == here;
      }
    }
  }

  lemma {:induction false} AllMomentsTellTheLog(w: World, path: set<string>, targets: seq<string>, s: St)
    requires WellKeyed(w.nodes)
    ensures StepIds(VisitAll(w, path, targets, s).1.exec.steps) ==
            StepIds(s.exec.steps) + Recorded(w, AllMoments(w, path, targets, s))
    decreases |w.nodes.Keys - path|, |targets|
  {
    if targets == [] {
    } else {
      MomentsTellTheLog(w, path, targets[0], s);
      var (err, s1) := Visit(w, path, targets[0], s);
      var first := VisitMoments(w, path, targets[0], s);
      if err.None? {
        AllMomentsTellTheLog(w, path, targets[1..], s1);
        LoggedInTurn(w, first, AllMoments(w, path, targets[1..], s1), StepIds(s.exec.steps),
                     StepIds(s1.exec.steps), StepIds(VisitAll(w, path, targets, s).1.exec.steps));
      } else {
        assert first + [] == first;
      }
    }
  }

  // ---------- the stack at the moments ----------

  /** The first moment of a visit is that of the node itself; at all later ones the node stands on the
      stack, above what stood there before. */
  lemma {:induction false} StackAtMoments(w: World, path: set<string>, id: string, s: St)
    ensures var ms := VisitMoments(w, path, id, s);
      && (ms != [] ==> ms[0] == Moment(path, id, s.(now := s.now + 1)))
      && forall i :: 0 < i < |ms| ==> path + {id} <= ms[i].path
    decreases |w.nodes.Keys - path|, 0
  {
    if w.env.expired(s.now) || id in path || id !in w.nodes {
    } else {
      var p := ProcessNode(w, id, s.Later());
      PathGrows(w, path, id);
      if p.error.None? {
        StackAtAllMoments(w, path + {id}, p.targets, p.after);
        assert forall m :: m in AllMoments(w, path + {id}, p.targets, p.after) ==> path + {id} <= m.path;
      }
    }
  }

  lemma {:induction false} StackAtAllMoments(w: World, path: set<string>, targets: seq<string>, s: St)
    ensures forall m :: m in AllMoments(w, path, targets, s) ==> path <= m.path
    decreases |w.nodes.Keys - path|, |targets|
  {
    if targets == [] {
    } else {
      StackAtMoments(w, path, targets[0], s);
      var first := VisitMoments(w, path, targets[0], s);
      forall m | m in first ensures path <= m.path {
        var i :| 0 <= i < |first| && first[i] == m;
      }
      var (err, s1) := Visit(w, path, targets[0], s);
      if err.None? { StackAtAllMoments(w, path, targets[1..], s1); }
    }
  }

  // ---------- the log at the moments ----------

  /** At moment i the log holds the steps of the moments before it. */
  ghost predicate LogAt(w: World, before: seq<string>, ms: seq<Moment>, i: nat)
    requires i < |ms|
  {
    StepIds(ms[i].at.exec.steps) == before + Recorded(w, ms[..i])
  }

  ghost predicate LogSoFar(w: World, before: seq<string>, ms: seq<Moment>) {
    forall i :: 0 <= i < |ms| ==> LogAt(w, before, ms, i)
  }

  lemma EarlyLog(w: World, before: seq<string>, first: seq<Moment>, all: seq<Moment>, i: nat)
    requires i < |first| <= |all| && all[..|first|] == first && LogAt(w, before, first, i)
    ensures LogAt(w, before, all, i)
  {
    assert all[i] == first[i] && all[..i] == first[..i];
  }

  lemma LateLog(w: World, before: seq<string>, first: seq<Moment>, between: seq<string>, rest: seq<Moment>,
                all: seq<Moment>, i: nat)
    requires all == first + rest && |first| <= i < |all| && LogAt(w, between, rest, i - |first|)
    requires between == before + Recorded(w, first)
    ensures LogAt(w, before, all, i)
  {
    var part := rest[..i - |first|];
    assert all[i] == rest[i - |first|];
    assert all[..i] == first + part;
    RecordedTogether(w, first, part);
    Regrouped(before, Recorded(w, first), Recorded(w, part));
  }

  lemma Regrouped(a: seq<string>, b: seq<string>, c: seq<string>)
    ensures (a + b) + c == a + (b + c)
  {
  }

  lemma LogInTurn(w: World, before: seq<string>, first: seq<Moment>, between: seq<string>, rest: seq<Moment>)
    requires LogSoFar(w, before, first) && LogSoFar(w, between, rest)
    requires between == before + Recorded(w, first)
    ensures LogSoFar(w, before, first + rest)
  {
    var all := first + rest;
    forall i | 0 <= i < |all| ensures LogAt(w, before, all, i) {
      if i < |first| {
        assert LogAt(w, before, first, i);
        EarlyLog(w, before, first, all, i);
      } else {
        assert LogAt(w, between, rest, i - |first|);
        LateLog(w, before, first, between, rest, all, i);
      }
    }
  }

  lemma OneMoment(w: World, path: set<string>, id: string, s: St)
    ensures LogSoFar(w, StepIds(s.exec.steps), [Moment(path, id, s.Later())])
    ensures Recorded(w, [Moment(path, id, s.Later())]) == if Records(w, id) then [id] else []
  {
    var here := [Moment(path, id, s.Later())];
    assert here[1..] == [] && here[..0] == [];
  }

  /** So the state of a moment is the one in which its node was processed: its log is that of all moments
      before. */
  lemma {:induction false} LogAtMoments(w: World, path: set<string>, id: string, s: St)
    requires WellKeyed(w.nodes)
    ensures LogSoFar(w, StepIds(s.exec.steps), VisitMoments(w, path, id, s))
    decreases |w.nodes.Keys - path|, 0
  {
    if w.env.expired(s.now) || id in path || id !in w.nodes {
    } else {
      var p := ProcessNode(w, id, s.Later());
      var here := [Moment(path, id, s.Later())];
      OneMoment(w, path, id, s);
      PathGrows(w, path, id);
      if p.error.None? {
        OneIdLogged(w, id, s.Later());
        LogAtAllMoments(w, path + {id}, p.targets, p.after);
        LogInTurn(w, StepIds(s.exec.steps), here, StepIds(p.after.exec.steps),
                  AllMoments(w, path + {id}, p.targets, p.after));
      } else {
        assert here + [] == here;
      }
    }
  }

  lemma {:induction false} LogAtAllMoments(w: World, path: set<string>, targets: seq<string>, s: St)
    requires WellKeyed(w.nodes)
    ensures LogSoFar(w, StepIds(s.exec.steps), AllMoments(w, path, targets, s))
    decreases |w.nodes.Keys - path|, |targets|
  {
    if targets == [] {
    } else {
      LogAtMoments(w, path, targets[0], s);
      MomentsTellTheLog(w, path, targets[0], s);
      var (err, s1) := Visit(w, path, targets[0], s);
      var first := VisitMoments(w, path, targets[0], s);
      if err.None? {
        LogAtAllMoments(w, path, targets[1..], s1);
        LogInTurn(w, StepIds(s.exec.steps), first, StepIds(s1.exec.steps), AllMoments(w, path, targets[1..], s1));
      } else {
        assert first + [] == first;
      }
    }
  }

  // ---------- the executors on the stack ----------

  predicate IsExecutor(w: World, m: string) {
    m in w.nodes && w.nodes[m].kind.Executor?
  }

  /** Executor m has a completed step in the log. */
  ghost predicate Delivered(w: World, steps: seq<E.Step>, m: string) {
    exists j :: P.LastOutputOf(w, steps, m, j)
  }

  ghost predicate StackDelivered(w: World, path: set<string>, s: St) {
    forall m :: m in path && IsExecutor(w, m) ==> Delivered(w, s.exec.steps, m)
  }

  lemma DeliveredStays(w: World, steps: seq<E.Step>, step: E.Step, m: string)
    requires Delivered(w, steps, m)
    ensures Delivered(w, steps + [step], m)
  {
    var all := steps + [step];
    if step.nodeId == m && step.status.StepCompleted? {
      assert P.LastOutputOf(w, all, m, |steps|);
    } else {
      var j :| P.LastOutputOf(w, steps, m, j);
      assert forall k :: j < k < |steps| ==> all[k] == steps[k];
      assert P.LastOutputOf(w, all, m, j);
    }
  }

  lemma CompletedIsDelivered(w: World, steps: seq<E.Step>, step: E.Step)
    requires IsExecutor(w, step.nodeId) && step.status.StepCompleted?
    ensures Delivered(w, steps + [step], step.nodeId)
  {
    assert P.LastOutputOf(w, steps + [step], step.nodeId, |steps|);
  }

  lemma StackOfOneNode(w: World, path: set<string>, id: string, s: St)
    requires WellKeyed(w.nodes) && id in w.nodes && StackDelivered(w, path, s)
    ensures var p := ProcessNode(w, id, s);
      StackDelivered(w, path, p.after) && (p.error.None? ==> StackDelivered(w, path + {id}, p.after))
  {
    if Records(w, id) {
      var step := P.OneStepLogged(w, id, s);
      forall m | m in path && IsExecutor(w, m) ensures Delivered(w, s.exec.steps + [step], m) {
        DeliveredStays(w, s.exec.steps, step, m);
      }
      if IsExecutor(w, id) && step.status.StepCompleted? { CompletedIsDelivered(w, s.exec.steps, step); }
    } else {
      P.NodeThatPasses(w, id, s);
    }
  }

  /** A walk keeps what the stack above it has delivered. */
  lemma StackOfVisit(w: World, above: set<string>, path: set<string>, id: string, s: St)
    requires WellKeyed(w.nodes) && StackDelivered(w, above, s)
    ensures StackDelivered(w, above, Visit(w, path, id, s).1)
  {
    var I := (s: St) => StackDelivered(w, above, s);
    var J := (e: E.RunError, s: St) => StackDelivered(w, above, s);
    forall i, s | i in w.nodes && I(s) ensures P.StepKeeps(ProcessNode(w, i, s), I, J) {
      StackOfOneNode(w, above, i, s);
    }
    P.VisitKeeps(w, I, J, path, id, s);
  }

  /** At a moment: the context is the replay of the log, and the stack above has delivered. */
  ghost predicate Sound(w: World, input: Object, m: Moment) {
    P.DataFlows(w, input, m.at) && StackDelivered(w, m.path, m.at)
  }

  lemma {:induction false} MomentsAreSound(w: World, path: set<string>, id: string, s: St)
    requires WellKeyed(w.nodes) && P.DataFlows(w, s.exec.input, s) && StackDelivered(w, path, s)
    ensures forall m :: m in VisitMoments(w, path, id, s) ==> Sound(w, s.exec.input, m)
    decreases |w.nodes.Keys - path|, 0
  {
    if w.env.expired(s.now) || id in path || id !in w.nodes {
    } else {
      var p := ProcessNode(w, id, s.Later());
      P.DataOfOneNode(w, s.exec.input, id, s.Later());
      StackOfOneNode(w, path, id, s.Later());
      PathGrows(w, path, id);
      assert Sound(w, s.exec.input, Moment(path, id, s.Later()));
      if p.error.None? { AllMomentsAreSound(w, path + {id}, p.targets, p.after); }
    }
  }

  lemma {:induction false} AllMomentsAreSound(w: World, path: set<string>, targets: seq<string>, s: St)
    requires WellKeyed(w.nodes) && P.DataFlows(w, s.exec.input, s) && StackDelivered(w, path, s)
    ensures forall m :: m in AllMoments(w, path, targets, s) ==> Sound(w, s.exec.input, m)
    decreases |w.nodes.Keys - path|, |targets|
  {
    if targets == [] {
    } else {
      MomentsAreSound(w, path, targets[0], s);
      P.DataFlow(w, path, targets[0], s);
      StackOfVisit(w, path, path, targets[0], s);
      var (err, s1) := Visit(w, path, targets[0], s);
      if err.None? { AllMomentsAreSound(w, path, targets[1..], s1); }
    }
  }

  lemma MomentIsSound(w: World, root: string, s: St, i: nat)
    requires WellKeyed(w.nodes) && P.Started(s) && i < |VisitMoments(w, {}, root, P.Begin(s))|
    ensures Sound(w, s.exec.input, VisitMoments(w, {}, root, P.Begin(s))[i])
  {
    MomentsAreSound(w, {}, root, P.Begin(s));
    assert VisitMoments(w, {}, root, P.Begin(s))[i] in VisitMoments(w, {}, root, P.Begin(s));
  }

  /** In a run that starts afresh, whenever a node is processed, of whatever type: every executor above it
      on the recursion stack has a completed step, and the context holds the output of the last one. */
  lemma StackOutputsInContext(w: World, root: string, s: St, i: nat, m: string) returns (j: int)
    requires WellKeyed(w.nodes) && P.Started(s) && i < |VisitMoments(w, {}, root, P.Begin(s))|
    requires m in VisitMoments(w, {}, root, P.Begin(s))[i].path && IsExecutor(w, m) && m != "output"
    ensures var at := VisitMoments(w, {}, root, P.Begin(s))[i].at;
      P.LastOutputOf(w, at.exec.steps, m, j) && m in at.ctx && at.ctx[m] == Obj(at.exec.steps[j].output)
  {
    var at := VisitMoments(w, {}, root, P.Begin(s))[i].at;
    MomentIsSound(w, root, s, i);
    j :| P.LastOutputOf(w, at.exec.steps, m, j);
    P.ReplayHolds(w, s.exec.input, at.exec.steps);
  }

  /** ... and "workflow" still holds the input of the run. */
  lemma InputStaysInContext(w: World, root: string, s: St, i: nat)
    requires WellKeyed(w.nodes) && P.Started(s) && i < |VisitMoments(w, {}, root, P.Begin(s))|
    requires P.NoExecutor(w, "workflow")
    ensures var at := VisitMoments(w, {}, root, P.Begin(s))[i].at;
      "workflow" in at.ctx && at.ctx["workflow"] == Obj(s.exec.input)
  {
    MomentIsSound(w, root, s, i);
    P.ReplayHolds(w, s.exec.input, VisitMoments(w, {}, root, P.Begin(s))[i].at.exec.steps);
  }
}
