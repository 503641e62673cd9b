/** What every run keeps: the step log, the data flow, and the stored record. */
module RunProperties {
  import opened Values
  import opened Workflows
  import opened Engine
  import E = Executions

  // ---------- the rule of the walk ----------

  /** P is kept by every step that goes on, and Q is met by every step that ends the walk. */
  ghost predicate Keeps(w: World, P: St -> bool, Q: (E.RunError, St) -> bool) {
    && (forall s :: P(s) ==> P(s.Later()))
    && (forall s, e: E.RunError :: P(s) && (e.TimedOut? || e.CycleDetected? || e.NodeNotFound?) ==> Q(e, s))
    && (forall id, s :: id in w.nodes && P(s) ==> StepKeeps(ProcessNode(w, id, s), P, Q))
  }

  ghost predicate StepKeeps(p: Processed, P: St -> bool, Q: (E.RunError, St) -> bool) {
    if p.error.None? then P(p.after) else Q(p.error.value, p.after)
  }

  ghost predicate Ends(r: (Option<E.RunError>, St), P: St -> bool, Q: (E.RunError, St) -> bool) {
    if r.0.None? then P(r.1) else Q(r.0.value, r.1)
  }

  /** What single nodes keep, whole walks keep: on return P holds, on every error exit Q does. */
  lemma {:induction false} VisitKeeps(w: World, P: St -> bool, Q: (E.RunError, St) -> bool,
                                      path: set<string>, id: string, s: St)
    requires Keeps(w, P, Q) && P(s)
    ensures Ends(Visit(w, path, id, s), P, Q)
    decreases |w.nodes.Keys - path|, 0
  {
    assert P(s.Later());
    if w.env.expired(s.now) || id in path || id !in w.nodes {
    } else {
      var p := ProcessNode(w, id, s.Later());
      assert StepKeeps(p, P, Q);
      PathGrows(w, path, id);
      if p.error.None? { VisitAllKeeps(w, P, Q, path + {id}, p.targets, p.after); }
    }
  }

  lemma {:induction false} VisitAllKeeps(w: World, P: St -> bool, Q: (E.RunError, St) -> bool,
                                         path: set<string>, targets: seq<string>, s: St)
    requires Keeps(w, P, Q) && P(s)
    ensures Ends(VisitAll(w, path, targets, s), P, Q)
    decreases |w.nodes.Keys - path|, |targets|
  {
    if targets == [] {
    } else {
      VisitKeeps(w, P, Q, path, targets[0], s);
      var (err, s1) := Visit(w, path, targets[0], s);
      if err.None? { VisitAllKeeps(w, P, Q, path, targets[1..], s1); }
    }
  }

  // ---------- one node ----------

  /** How processing a node ends: its step fails or completes, starting from a state and a fresh step; an
      action logs without storing; any other node only passes the walk on. */
  datatype Way =
    | Fails(from: St, step: E.Step, cause: E.Cause)
    | Completes(from: St, step: E.Step, output: Object)
    | Acts
    | PassesOn

  function WayOf(w: World, id: string, s: St): Way
    requires id in w.nodes
  {
    var node := w.nodes[id];
    var counted := s.(stepNumber := s.stepNumber + 1);
    var step := E.NewStep(counted.stepNumber, DisplayName(node), node.id, s.ctx);
    match node.kind
    case Executor => (
      match ExecutorResult(node, w.env.call(s.now))
      case Undelivered(cause, attempts) => Fails(counted.Later(), step.(attempts := attempts), cause)
      case Delivered(output, attempts) =>
        Completes(counted.(ctx := s.ctx[node.id := Obj(output)]).Later(), step.(attempts := attempts), output))
    case Conditional =>
      var verdict := w.env.decide(node.Condition(), s.ctx);
      if node.Condition() == "" then Fails(counted, step, E.MissingCondition)
      else if verdict.None? then Fails(counted, step, E.ConditionEvaluationFailed)
      else Completes(counted, step, BranchOutput(node.Condition(), verdict.value))
    case Action => Acts
    case _ => PassesOn
  }

  lemma ProcessedAs(w: World, id: string, s: St)
    requires id in w.nodes
    ensures var p := ProcessNode(w, id, s);
      match WayOf(w, id, s)
      case Fails(from, step, cause) => (p.error, p.after) == FailStep(w, from, step, cause)
      case Completes(from, step, output) => (p.error, p.after) == CompleteStep(w, from, step, output)
      case Acts =>
        var counted := s.(stepNumber := s.stepNumber + 1);
        p == Processed(None, Successors(w, id), ProcessAction(w.nodes[id], counted))
      case PassesOn => p == Processed(None, Successors(w, id), s)
  {
  }

  /** A new step at s, numbered one past the counter, with the context as its input. */
  ghost predicate NextStep(w: World, id: string, s: St, from: St, step: E.Step)
    requires id in w.nodes
  {
    && from.exec == s.exec && from.store == s.store && from.stepNumber == s.stepNumber + 1
    && step.number == from.stepNumber && step.status.StepRunning? && step.error.None?
    && step.nodeId == w.nodes[id].id && step.input == s.ctx
  }

  lemma WayStarts(w: World, id: string, s: St)
    requires id in w.nodes
    ensures match WayOf(w, id, s)
      case Fails(from, step, _) => NextStep(w, id, s, from, step) && from.ctx == s.ctx
      case Completes(from, step, output) =>
        && NextStep(w, id, s, from, step)
        && from.ctx == (if w.nodes[id].kind.Executor? then s.ctx[w.nodes[id].id := Obj(output)] else s.ctx)
      case _ => true
  {
  }

  // ---------- the step log ----------

  ghost predicate Numbered(s: St) {
    && (forall i :: 0 <= i < |s.exec.steps| ==> s.exec.steps[i].number == i + 1)
    && s.exec.currentStep == |s.exec.steps| == s.stepNumber
  }

  ghost predicate AllCompleted(steps: seq<E.Step>) {
    forall i :: 0 <= i < |steps| ==> steps[i].status.StepCompleted? && steps[i].finished && steps[i].error.None?
  }

  /** Between two nodes of a run: a complete log, and an execution still running. */
  ghost predicate LogGoing(s: St) {
    Numbered(s) && AllCompleted(s.exec.steps) && s.exec.status.Running? && s.exec.error.None? && !s.exec.finished
  }

  /** A walk ended by `err`: only the last step may have failed, none is left running, and a failed
      step has failed the execution with its own cause. */
  ghost predicate LogEnded(err: E.RunError, s: St) {
    var steps := s.exec.steps;
    && Numbered(s)
    && (err != E.NodeFailed ==> LogGoing(s))
    && (err == E.NodeFailed ==>
          && steps != []
          && AllCompleted(steps[..|steps| - 1])
          && var last := steps[|steps| - 1];
          && last.status.StepFailed? && last.finished && last.error.Some?
          && s.exec.status.Failed? && s.exec.finished
          && s.exec.error == Some(E.AtNode(last.nodeId, last.error.value)))
  }

  lemma LogOfFailedStep(w: World, id: string, s: St, from: St, step: E.Step, cause: E.Cause)
    requires id in w.nodes && LogGoing(s) && NextStep(w, id, s, from, step)
    ensures LogEnded(E.NodeFailed, FailStep(w, from, step, cause).1)
  {
    var steps := FailStep(w, from, step, cause).1.exec.steps;
    assert steps[..|steps| - 1] == s.exec.steps;
  }

  lemma LogOfCompletedStep(w: World, id: string, s: St, from: St, step: E.Step, output: Object)
    requires id in w.nodes && LogGoing(s) && NextStep(w, id, s, from, step)
    ensures var (err, s1) := CompleteStep(w, from, step, output);
            LogGoing(s1) && err != Some(E.NodeFailed)
  {
  }

  lemma LogOfOneNode(w: World, id: string, s: St)
    requires id in w.nodes && LogGoing(s)
    ensures var p := ProcessNode(w, id, s);
            if p.error.None? then LogGoing(p.after) else LogEnded(p.error.value, p.after)
  {
    ProcessedAs(w, id, s);
    WayStarts(w, id, s);
    match WayOf(w, id, s)
    case Fails(from, step, cause) => LogOfFailedStep(w, id, s, from, step, cause);
    case Completes(from, step, output) => LogOfCompletedStep(w, id, s, from, step, output);
    case _ =>
  }

  lemma LogDiscipline(w: World, path: set<string>, id: string, s: St)
    requires LogGoing(s)
    ensures var (err, s1) := Visit(w, path, id, s);
            if err.None? then LogGoing(s1) else LogEnded(err.value, s1)
  {
    var P := (s: St) => LogGoing(s);
    var Q := (e: E.RunError, s: St) => LogEnded(e, s);
    forall i, s | i in w.nodes && P(s) ensures StepKeeps(ProcessNode(w, i, s), P, Q) {
      LogOfOneNode(w, i, s);
    }
    VisitKeeps(w, P, Q, path, id, s);
  }

  // ---------- data flow ----------

  /** What the step that a node logs gives to the context. */
  function Given(w: World, ctx: Object, step: E.Step): Object {
    if step.nodeId !in w.nodes then ctx
    else
      match w.nodes[step.nodeId].kind
      case Executor => if step.status.StepCompleted? then ctx[step.nodeId := Obj(step.output)] else ctx
      case Action => if SetsOutput(step.output) then ctx["output" := step.output["output"]] else ctx
      case _ => ctx
  }

  /** The context as the log tells it: the input, the outputs of completed executor steps under
      their node ids, and the last set_output. */
  function Replay(w: World, input: Object, steps: seq<E.Step>): Object {
    if steps == [] then map["workflow" := Obj(input)]
    else Given(w, Replay(w, input, steps[..|steps| - 1]), steps[|steps| - 1])
  }

  predicate ReadsContext(w: World, step: E.Step) {
    step.nodeId in w.nodes && (w.nodes[step.nodeId].kind.Executor? || w.nodes[step.nodeId].kind.Conditional?)
  }

  /** What a completed conditional step recorded is what its condition gave on the recorded input. */
  ghost predicate BranchDecided(w: World, step: E.Step) {
    step.nodeId in w.nodes && w.nodes[step.nodeId].kind.Conditional? && step.status.StepCompleted? ==>
      var condition := w.nodes[step.nodeId].Condition();
      var verdict := w.env.decide(condition, step.input);
      verdict.Some? && step.output == BranchOutput(condition, verdict.value)
  }

  /** The context is the replay of the log, and so was the input of each executor or conditional step;
      conditionals branched as their conditions say. */
  ghost predicate DataFlows(w: World, input: Object, s: St) {
    && s.exec.input == input
    && s.ctx == Replay(w, input, s.exec.steps)
    && forall i :: 0 <= i < |s.exec.steps| ==>
         && (ReadsContext(w, s.exec.steps[i]) ==> s.exec.steps[i].input == Replay(w, input, s.exec.steps[..i]))
         && BranchDecided(w, s.exec.steps[i])
  }

  /** A node that records has logged `step`, and the context gained what the step gives. */
  ghost predicate Logged(w: World, id: string, s: St, p: Processed, step: E.Step) {
    && p.after.exec.steps == s.exec.steps + [step] && p.after.exec.input == s.exec.input
    && step.nodeId == id && (ReadsContext(w, step) ==> step.input == s.ctx)
    && p.after.ctx == Given(w, s.ctx, step)
    && (p.error.None? ==> step.status.StepCompleted?)
    && BranchDecided(w, step)
  }

  lemma FailedStepIsLogged(w: World, id: string, s: St, from: St, step: E.Step, cause: E.Cause)
    requires id in w.nodes && NextStep(w, id, s, from, step) && from.ctx == s.ctx && w.nodes[id].id == id
    requires !w.nodes[id].kind.Action?
    ensures var (err, s1) := FailStep(w, from, step, cause);
      Logged(w, id, s, Processed(err, [], s1), step.Fail(cause))
  {
  }

  lemma CompletedStepIsLogged(w: World, id: string, s: St, from: St, step: E.Step, output: Object)
    requires id in w.nodes && NextStep(w, id, s, from, step) && w.nodes[id].id == id
    requires w.nodes[id].kind.Executor? || w.nodes[id].kind.Conditional?
    requires from.ctx == if w.nodes[id].kind.Executor? then s.ctx[id := Obj(output)] else s.ctx
    requires BranchDecided(w, step.Complete(output))
    ensures var (err, s1) := CompleteStep(w, from, step, output);
      Logged(w, id, s, Processed(err, [], s1), step.Complete(output))
  {
  }

  lemma BranchOfWay(w: World, id: string, s: St)
    requires WellKeyed(w.nodes) && id in w.nodes && w.nodes[id].kind.Conditional? && WayOf(w, id, s).Completes?
    ensures var way := WayOf(w, id, s);
      && BranchDecided(w, way.step.Complete(way.output))
      && var p := ProcessNode(w, id, s);
      && (p.error.None? ==>
            p.targets == BranchTargets(OutEdges(w.edges, id), if way.output["result"].b then "true" else "false"))
  {
  }

  /** Processing an executor, conditional or action node logs one step, and the context gains what
      that step gives. A conditional's step tells the branch that the walk takes. */
  lemma OneStepLogged(w: World, id: string, s: St) returns (step: E.Step)
    requires WellKeyed(w.nodes) && id in w.nodes
    requires w.nodes[id].kind.Executor? || w.nodes[id].kind.Conditional? || w.nodes[id].kind.Action?
    ensures var p := ProcessNode(w, id, s);
      && Logged(w, id, s, p, step)
      && (w.nodes[id].kind.Conditional? && p.error.None? ==>
            && "result" in step.output && step.output["result"].Bool?
            && p.targets ==
               BranchTargets(OutEdges(w.edges, id), if step.output["result"].b then "true" else "false"))
  {
    ProcessedAs(w, id, s);
    WayStarts(w, id, s);
    match WayOf(w, id, s)
    case Fails(from, raw, cause) =>
      step := raw.Fail(cause);
      FailedStepIsLogged(w, id, s, from, raw, cause);
    case Completes(from, raw, output) =>
      step := raw.Complete(output);
      if w.nodes[id].kind.Conditional? { BranchOfWay(w, id, s); }
      CompletedStepIsLogged(w, id, s, from, raw, output);
    case Acts =>
      step := E.NewStep(s.stepNumber + 1, DisplayName(w.nodes[id]), id, map[]).Complete(w.nodes[id].data);
    case PassesOn =>
  }

  lemma AppendedStepFlows(w: World, input: Object, s: St, s1: St, step: E.Step)
    requires DataFlows(w, input, s)
    requires s1.exec.input == input && s1.exec.steps == s.exec.steps + [step]
    requires (ReadsContext(w, step) ==> step.input == s.ctx) && BranchDecided(w, step)
    requires s1.ctx == Replay(w, input, s1.exec.steps)
    ensures DataFlows(w, input, s1)
  {
    var n := |s.exec.steps|;
    assert s1.exec.steps[..n] == s.exec.steps;
    forall i | 0 <= i < |s1.exec.steps|
      ensures ReadsContext(w, s1.exec.steps[i]) ==> s1.exec.steps[i].input == Replay(w, input, s1.exec.steps[..i])
      ensures BranchDecided(w, s1.exec.steps[i])
    {
      if i < n {
        assert s1.exec.steps[i] == s.exec.steps[i] && s1.exec.steps[..i] == s.exec.steps[..i];
      }
    }
  }

  lemma DataOfOneNode(w: World, input: Object, id: string, s: St)
    requires WellKeyed(w.nodes) && id in w.nodes && DataFlows(w, input, s)
    ensures DataFlows(w, input, ProcessNode(w, id, s).after)
  {
    var node := w.nodes[id];
    var s1 := ProcessNode(w, id, s).after;
    if node.kind.Executor? || node.kind.Conditional? || node.kind.Action? {
      var step := OneStepLogged(w, id, s);
      assert s1.exec.steps[..|s.exec.steps|] == s.exec.steps;
      AppendedStepFlows(w, input, s, s1, step);
    } else {
      NodeThatPasses(w, id, s);
    }
  }

  /** A node of any other type only passes the walk on. */
  lemma NodeThatPasses(w: World, id: string, s: St)
    requires id in w.nodes
    requires !(w.nodes[id].kind.Executor? || w.nodes[id].kind.Conditional? || w.nodes[id].kind.Action?)
    ensures ProcessNode(w, id, s) == Processed(None, Successors(w, id), s)
  {
  }

  /** Nodes that do not branch hand the walk to all their successors. */
  lemma TargetsOfPlainNode(w: World, id: string, s: St)
    requires id in w.nodes && !w.nodes[id].kind.Conditional? && ProcessNode(w, id, s).error.None?
    ensures ProcessNode(w, id, s).targets == Successors(w, id)
  {
  }

  lemma DataFlow(w: World, path: set<string>, id: string, s: St)
    requires WellKeyed(w.nodes) && DataFlows(w, s.exec.input, s)
    ensures DataFlows(w, s.exec.input, Visit(w, path, id, s).1)
  {
    var input := s.exec.input;
    var P := (s: St) => DataFlows(w, input, s);
    var Q := (e: E.RunError, s: St) => DataFlows(w, input, s);
    forall i, s | i in w.nodes && P(s) ensures StepKeeps(ProcessNode(w, i, s), P, Q) {
      DataOfOneNode(w, input, i, s);
    }
    VisitKeeps(w, P, Q, path, id, s);
  }

  /** Step j is the last completed step of executor node m. */
  ghost predicate LastOutputOf(w: World, steps: seq<E.Step>, m: string, j: int) {
    && 0 <= j < |steps| && steps[j].nodeId == m && steps[j].status.StepCompleted?
    && m in w.nodes && w.nodes[m].kind.Executor?
    && forall k :: j < k < |steps| && steps[k].nodeId == m ==> !steps[k].status.StepCompleted?
  }

  /** No executor writes under this id. */
  predicate NoExecutor(w: World, id: string) {
    id !in w.nodes || !w.nodes[id].kind.Executor?
  }

  /** In a replayed context an executor's id holds the output of its last completed step, and
      "workflow" holds the input, unless an executor of that very id writes there. */
  lemma {:induction false} ReplayHolds(w: World, input: Object, steps: seq<E.Step>)
    ensures var ctx := Replay(w, input, steps);
      && (forall m, j :: m != "output" && LastOutputOf(w, steps, m, j) ==>
            m in ctx && ctx[m] == Obj(steps[j].output))
      && (NoExecutor(w, "workflow") ==> "workflow" in ctx && ctx["workflow"] == Obj(input))
    decreases |steps|
  {
    if steps == [] {
    } else {
      var before := steps[..|steps| - 1];
      ReplayHolds(w, input, before);
      forall m, j | m != "output" && LastOutputOf(w, steps, m, j)
        ensures m in Replay(w, input, steps) && Replay(w, input, steps)[m] == Obj(steps[j].output)
      {
        if j < |before| { assert LastOutputOf(w, before, m, j); }
      }
    }
  }

  /** In a run that starts afresh, the input that an executor or conditional step recorded holds, for every
      executor with a completed step before it, the output of the last such step, and under "workflow" the
      input of the run. (Moments tells which executors have one: all those on the recursion stack.) */
  lemma InputsCarryOutputs(w: World, root: string, s: St, i: nat, m: string, j: int)
    requires WellKeyed(w.nodes) && Started(s)
    requires var steps := Visit(w, {}, root, Begin(s)).1.exec.steps;
      i < |steps| && ReadsContext(w, steps[i]) && m != "output" && LastOutputOf(w, steps[..i], m, j)
    ensures var steps := Visit(w, {}, root, Begin(s)).1.exec.steps;
      && m in steps[i].input && steps[i].input[m] == Obj(steps[j].output)
      && (NoExecutor(w, "workflow") ==>
            "workflow" in steps[i].input && steps[i].input["workflow"] == Obj(s.exec.input))
  {
    var steps := Visit(w, {}, root, Begin(s)).1.exec.steps;
    DataFlow(w, {}, root, Begin(s));
    ReplayHolds(w, s.exec.input, steps[..i]);
  }

  /** In a run that starts afresh, a completed conditional step i recorded what its condition gives on the
      context replayed from the log before it: the branch follows from the log. */
  lemma BranchesFollowReplay(w: World, root: string, s: St, i: nat)
    requires WellKeyed(w.nodes) && Started(s)
    requires var steps := Visit(w, {}, root, Begin(s)).1.exec.steps;
      && i < |steps| && steps[i].nodeId in w.nodes && w.nodes[steps[i].nodeId].kind.Conditional?
      && steps[i].status.StepCompleted?
    ensures var steps := Visit(w, {}, root, Begin(s)).1.exec.steps;
      var condition := w.nodes[steps[i].nodeId].Condition();
      var verdict := w.env.decide(condition, Replay(w, s.exec.input, steps[..i]));
      verdict.Some? && steps[i].output == BranchOutput(condition, verdict.value)
  {
    DataFlow(w, {}, root, Begin(s));
    var steps := Visit(w, {}, root, Begin(s)).1.exec.steps;
    assert ReadsContext(w, steps[i]) && BranchDecided(w, steps[i]);
  }

  /** The output that a step gives to the run: that of a set_output action, or of an executor whose very id
      is "output". */
  function OutputWritten(w: World, step: E.Step): Option<Object> {
    if step.nodeId !in w.nodes then None
    else
      match w.nodes[step.nodeId].kind
      case Action => if SetsOutput(step.output) then Some(step.output["output"].fields) else None
      case Executor => if step.nodeId == "output" && step.status.StepCompleted? then Some(step.output) else None
      case _ => None
  }

  function LastOutput(w: World, steps: seq<E.Step>): Option<Object> {
    if steps == [] then None
    else
      var written := OutputWritten(w, steps[|steps| - 1]);
      if written.Some? then written else LastOutput(w, steps[..|steps| - 1])
  }

  /** The final output is what the last step that gave one gave, or the whole context if none did. */
  lemma {:induction false} FinalOutputOfRun(w: World, input: Object, steps: seq<E.Step>)
    ensures var ctx, last := Replay(w, input, steps), LastOutput(w, steps);
            && (last.None? ==> "output" !in ctx)
            && (last.Some? ==> "output" in ctx && ctx["output"] == Obj(last.value))
            && FinalOutput(ctx) == if last.Some? then last.value else ctx
    decreases |steps|
  {
    if steps == [] {
    } else {
      FinalOutputOfRun(w, input, steps[..|steps| - 1]);
    }
  }

  // ---------- the stored record, with one worker ----------

  /** No other worker touches the record. */
  ghost predicate Alone(w: World) {
    forall t :: w.env.weather(t).intruder.None?
  }

  predicate Advance(a: E.Status, b: E.Status) {
    || a == b
    || (a.Pending? && (b.Running? || b.Failed?))
    || (a.Running? && (b.Completed? || b.Failed?))
  }

  ghost predicate Chain(history: seq<E.Status>) {
    forall i :: 0 < i < |history| ==> Advance(history[i - 1], history[i])
  }

  ghost predicate StoredAs(s: St, status: E.Status) {
    && s.store.record.Some? && s.store.record.value.status == status
    && s.store.history != [] && s.store.history[|s.store.history| - 1] == status
    && Chain(s.store.history)
  }

  ghost predicate StoreGoing(s: St) {
    StoredAs(s, E.Running) && s.exec.status.Running?
  }

  ghost predicate StoreEnded(err: E.RunError, s: St) {
    StoredAs(s, E.Running) && err != E.StateConflict && (s.exec.status.Running? || s.exec.status.Failed?)
  }

  lemma StoreOfFailedStep(w: World, s: St, step: E.Step, cause: E.Cause)
    requires Alone(w) && StoreGoing(s)
    ensures StoreEnded(E.NodeFailed, FailStep(w, s, step, cause).1)
  {
  }

  lemma StoreOfCompletedStep(w: World, s: St, step: E.Step, output: Object)
    requires Alone(w) && StoreGoing(s)
    ensures var (err, s1) := CompleteStep(w, s, step, output);
            StoreGoing(s1) && err != Some(E.StateConflict)
  {
  }

  lemma StoreOfOneNode(w: World, id: string, s: St)
    requires Alone(w) && id in w.nodes && StoreGoing(s)
    ensures var p := ProcessNode(w, id, s);
            if p.error.None? then StoreGoing(p.after) else StoreEnded(p.error.value, p.after)
  {
    ProcessedAs(w, id, s);
    WayStarts(w, id, s);
    match WayOf(w, id, s)
    case Fails(from, step, cause) => StoreOfFailedStep(w, from, step, cause);
    case Completes(from, step, output) => StoreOfCompletedStep(w, from, step, output);
    case _ =>
  }

  lemma StoreDiscipline(w: World, path: set<string>, id: string, s: St)
    requires Alone(w) && StoreGoing(s)
    ensures var (err, s1) := Visit(w, path, id, s);
            if err.None? then StoreGoing(s1) else StoreEnded(err.value, s1)
  {
    var P := (s: St) => StoreGoing(s);
    var Q := (e: E.RunError, s: St) => StoreEnded(e, s);
    forall i, s | i in w.nodes && P(s) ensures StepKeeps(ProcessNode(w, i, s), P, Q) {
      StoreOfOneNode(w, i, s);
    }
    VisitKeeps(w, P, Q, path, id, s);
  }

  // ---------- the stored record, with any number of workers ----------

  ghost predicate NoConflict(attempts: seq<E.Attempt>) {
    forall i :: 0 <= i < |attempts| ==> !attempts[i].outcome.Conflict?
  }

  /** The conflict, if there was one, is the last thing this worker tried to write. */
  ghost predicate ConflictIsLast(err: Option<E.RunError>, attempts: seq<E.Attempt>) {
    if err == Some(E.StateConflict) then
      attempts != [] && attempts[|attempts| - 1].outcome.Conflict? && NoConflict(attempts[..|attempts| - 1])
    else NoConflict(attempts)
  }

  lemma ConflictOfFailedStep(w: World, s: St, step: E.Step, cause: E.Cause)
    requires NoConflict(s.store.attempts)
    ensures NoConflict(FailStep(w, s, step, cause).1.store.attempts)
  {
  }

  lemma ConflictOfCompletedStep(w: World, s: St, step: E.Step, output: Object)
    requires NoConflict(s.store.attempts)
    ensures var (err, s1) := CompleteStep(w, s, step, output); ConflictIsLast(err, s1.store.attempts)
  {
    var a := CompleteStep(w, s, step, output).1.store.attempts;
    assert a[..|a| - 1] == s.store.attempts;
  }

  lemma ConflictOfOneNode(w: World, id: string, s: St)
    requires id in w.nodes && NoConflict(s.store.attempts)
    ensures var p := ProcessNode(w, id, s); ConflictIsLast(p.error, p.after.store.attempts)
  {
    ProcessedAs(w, id, s);
    WayStarts(w, id, s);
    match WayOf(w, id, s)
    case Fails(from, step, cause) => ConflictOfFailedStep(w, from, step, cause);
    case Completes(from, step, output) => ConflictOfCompletedStep(w, from, step, output);
    case _ =>
  }

  lemma ConflictEndsWalk(w: World, path: set<string>, id: string, s: St)
    requires NoConflict(s.store.attempts)
    ensures var (err, s1) := Visit(w, path, id, s); ConflictIsLast(err, s1.store.attempts)
  {
    var P := (s: St) => NoConflict(s.store.attempts);
    var Q := (e: E.RunError, s: St) => ConflictIsLast(Some(e), s.store.attempts);
    forall i, s | i in w.nodes && P(s) ensures StepKeeps(ProcessNode(w, i, s), P, Q) {
      ConflictOfOneNode(w, i, s);
    }
    VisitKeeps(w, P, Q, path, id, s);
  }

  // ---------- whole runs ----------

  /** The state in which the walk of a run begins. */
  function Begin(s: St): St {
    s.(ctx := map["workflow" := Obj(s.exec.input)], stepNumber := 0)
  }

  /** The message a run fails with: that of the node that failed, else that of the error. */
  function FailureMessage(err: E.RunError, steps: seq<E.Step>): E.Message {
    if err == E.NodeFailed && steps != [] && steps[|steps| - 1].error.Some?
    then E.AtNode(steps[|steps| - 1].nodeId, steps[|steps| - 1].error.value)
    else E.FromError(err)
  }

  /** A started run: no steps yet, and running. */
  ghost predicate Started(s: St) {
    s.exec.steps == [] && s.exec.currentStep == 0 && s.exec.status.Running?
    && s.exec.error.None? && !s.exec.finished
  }

  /** What the log says the output is: the last one given, or the whole context. */
  function OutputOfLog(w: World, input: Object, steps: seq<E.Step>): Object {
    var last := LastOutput(w, steps);
    if last.Some? then last.value else Replay(w, input, steps)
  }

  /** How a run whose walk came back with `err` and `steps` ends: completed exactly when there was no error;
      otherwise, barring a state conflict, failed with the message of the first failure. */
  ghost predicate EndsAs(w: World, input: Object, err: Option<E.RunError>, steps: seq<E.Step>, t: St) {
    && t.exec.steps == steps && Numbered(t)
    && (t.exec.status.Completed? <==> err.None?)
    && (t.exec.status.Failed? <==> err.Some? && err != Some(E.StateConflict))
    && (t.exec.status.Failed? ==> t.exec.error == Some(FailureMessage(err.value, steps)))
    && (t.exec.status.Completed? ==>
          && AllCompleted(steps) && t.exec.error.None?
          && t.exec.output == FinalOutput(Replay(w, input, steps)) == OutputOfLog(w, input, steps))
    && (t.exec.finished <==> E.Terminal(t.exec.status))
  }

  /** A run fails before any step with this message. */
  ghost predicate FailsEmpty(t: St, message: E.Message) {
    t.exec.status.Failed? && t.exec.error == Some(message) && t.exec.steps == [] && t.exec.finished
  }

  lemma Concludes(w: World, input: Object, err: Option<E.RunError>, walked: St)
    requires DataFlows(w, input, walked)
    requires if err.None? then LogGoing(walked) else LogEnded(err.value, walked)
    ensures EndsAs(w, input, err, walked.exec.steps, Conclude(w, err, walked))
  {
    FinalOutputOfRun(w, input, walked.exec.steps);
  }

  /** A fresh run without a trigger fails at once; any other ends as its walk did. */
  lemma RunOutcome(w: World, trigger: string, s: St)
    requires Started(s) && WellKeyed(w.nodes)
    ensures var (err, walked) := Visit(w, {}, trigger, Begin(s));
      var t := Run(w, trigger, s);
      if trigger == "" then FailsEmpty(t, E.NoTriggerNode)
      else EndsAs(w, s.exec.input, err, walked.exec.steps, t)
  {
    var s0 := Begin(s);
    LogDiscipline(w, {}, trigger, s0);
    DataFlow(w, {}, trigger, s0);
    var (err, walked) := Visit(w, {}, trigger, s0);
    if trigger != "" { Concludes(w, s.exec.input, err, walked); }
  }

  lemma PersistingNeverConflicts(w: World, s: St)
    requires NoConflict(s.store.attempts)
    ensures NoConflict(PersistBestEffort(w, s).store.attempts)
  {
  }

  /** A worker that meets a state conflict writes nothing after it, up to the end of its run. */
  lemma ConflictSilences(w: World, trigger: string, s: St)
    requires Started(s) && NoConflict(s.store.attempts)
    ensures var (err, walked) := Visit(w, {}, trigger, Begin(s));
      var conflict := trigger != "" && err == Some(E.StateConflict);
      var t := Run(w, trigger, s);
      && (conflict ==> t.store == walked.store && t.exec.status.Running?)
      && ConflictIsLast(if conflict then err else None, t.store.attempts)
  {
    if trigger == "" {
      PersistingNeverConflicts(w, s.(exec := s.exec.Fail(E.NoTriggerNode)));
      return;
    }
    ConflictEndsWalk(w, {}, trigger, Begin(s));
    LogDiscipline(w, {}, trigger, Begin(s));
    var (err, s1) := Visit(w, {}, trigger, Begin(s));
    if err != Some(E.StateConflict) {
      PersistingNeverConflicts(w, s1.(exec := if err.Some? then s1.exec.Fail(E.FromError(err.value))
                                              else s1.exec.Complete(FinalOutput(s1.ctx))));
    }
  }

  /** Start, then the state machine when the start succeeded. */
  function FullRun(w: World, trigger: string, s: St): St {
    var (err, s1) := Start(w, s);
    if err.Some? then s1 else Run(w, trigger, s1)
  }

  /** The state just after the record was created. */
  ghost predicate Created(s: St) {
    && s.exec.status.Pending? && s.exec.steps == [] && s.exec.currentStep == 0
    && s.exec.error.None? && !s.exec.finished
    && s.store == E.Store(Some(s.exec), [], [E.Pending])
  }

  /** From the created record to the end: a conflict on the move to running leaves the execution alone, any
      other failure of it fails the execution, and after it the run ends as RunOutcome says. */
  lemma FullRunOutcome(w: World, trigger: string, s: St)
    requires Created(s) && WellKeyed(w.nodes)
    ensures var (startErr, s1) := Start(w, s);
      var t := FullRun(w, trigger, s);
      match startErr
      case Some(StartConflict) => t == s1 && t.exec == s.exec.(status := E.Running)
      case Some(StartBroken) => FailsEmpty(t, E.StartFailed)
      case None =>
        var (err, walked) := Visit(w, {}, trigger, Begin(s1));
        if trigger == "" then FailsEmpty(t, E.NoTriggerNode)
        else EndsAs(w, s.exec.input, err, walked.exec.steps, t)
  {
    var (startErr, s1) := Start(w, s);
    if startErr.None? { RunOutcome(w, trigger, s1); }
  }

  lemma StartConflicts(w: World, s: St)
    requires Created(s)
    ensures var (err, s1) := Start(w, s);
      if err == Some(StartConflict) then ConflictIsLast(Some(E.StateConflict), s1.store.attempts)
      else NoConflict(s1.store.attempts)
  {
  }

  lemma OnlyLastConflicts(err: Option<E.RunError>, attempts: seq<E.Attempt>, i: nat)
    requires ConflictIsLast(err, attempts) || NoConflict(attempts)
    requires i < |attempts| && attempts[i].outcome.Conflict?
    ensures i == |attempts| - 1
  {
    var front := attempts[..|attempts| - 1];
    assert forall k :: 0 <= k < |front| ==> attempts[k] == front[k];
  }

  /** From the move to running on, and with any number of workers, a state conflict is the last write
      that this worker attempts. */
  lemma FullRunConflict(w: World, trigger: string, s: St, i: nat)
    requires Created(s)
    requires var a := FullRun(w, trigger, s).store.attempts; i < |a| && a[i].outcome.Conflict?
    ensures i == |FullRun(w, trigger, s).store.attempts| - 1
  {
    var (startErr, s1) := Start(w, s);
    StartConflicts(w, s);
    var a := FullRun(w, trigger, s).store.attempts;
    if startErr.None? {
      ConflictSilences(w, trigger, s1);
      OnlyLastConflicts(Some(E.StateConflict), a, i);
    } else {
      OnlyLastConflicts(if startErr == Some(StartConflict) then Some(E.StateConflict) else None, a, i);
    }
  }

  ghost predicate NeverFails(w: World) {
    forall t :: !w.env.weather(t).fails
  }

  lemma BestEffortStore(w: World, s: St, from: E.Status)
    requires Alone(w) && StoredAs(s, from) && Advance(from, s.exec.status)
    ensures var t := PersistBestEffort(w, s);
      && Chain(t.store.history)
      && t.exec == s.exec
      && (!w.env.weather(s.now).fails ==> t.store.record == Some(t.exec))
  {
  }

  /** With one worker the stored status only moves pending, running, completed or failed (or
      straight to failed); and when no write fails, the record ends terminal and equal to memory. */
  lemma StatusSafety(w: World, trigger: string, s: St)
    requires Alone(w) && Created(s)
    ensures var t := FullRun(w, trigger, s);
      && Chain(t.store.history)
      && E.Terminal(t.exec.status)
      && (NeverFails(w) ==> t.store.record == Some(t.exec))
  {
    var (startErr, s1) := Start(w, s);
    var weather := w.env.weather(s.now);
    if startErr.Some? {
      var s2 := s.(exec := s.exec.(status := E.Running).Fail(E.StartFailed),
                   store := s.store.Update(s.exec.(status := E.Running), Some(E.Pending), weather)).Later();
      BestEffortStore(w, s2, E.Pending);
    } else {
      assert StoredAs(s1, E.Running);
      if trigger == "" {
        BestEffortStore(w, s1.(exec := s1.exec.Fail(E.NoTriggerNode)), E.Running);
      } else {
        var s2 := Begin(s1);
        StoreDiscipline(w, {}, trigger, s2);
        LogDiscipline(w, {}, trigger, s2);
        var (err, s3) := Visit(w, {}, trigger, s2);
        var last := if err.Some? then s3.exec.Fail(E.FromError(err.value)) else s3.exec.Complete(FinalOutput(s3.ctx));
        BestEffortStore(w, s3.(exec := last), E.Running);
      }
    }
  }
}
