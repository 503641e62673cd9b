/** The execution engine: the walk over a workflow graph, node by node, and the run around it. */
module Engine {
  import opened Values
  import opened Workflows
  import E = Executions
  import R = Retry

  // ---------- the world a run meets ----------

  datatype Provider = Missing | NotActive | Usable

  /** All that decides one executor call: configuration, transformations, and the attempts. */
  datatype Call = Call(
    idParses: bool,
    provider: Provider,
    inputTransforms: bool,
    runnerInputBuilds: bool,
    attempt: nat -> R.Answer,
    interrupt: nat -> Option<R.CallError>,
    transformOutput: Object -> Option<Object>)

  /** Arbitrary answers of everything outside, indexed by the moment they are asked for. */
  datatype Env = Env(
    expired: nat -> bool,
    call: nat -> Call,
    weather: nat -> Weather<E.Execution>,
    decide: (string, Object) -> Option<bool>)

  datatype World = World(nodes: map<string, Node>, edges: seq<Edge>, env: Env)

  /** The state that a run threads through the graph. `now` counts the questions asked of Env. */
  datatype St = St(exec: E.Execution, ctx: Object, stepNumber: nat, store: E.Store, now: nat)
  {
    function Later(): St { this.(now := now + 1) }
  }

  // ---------- processing one node ----------

  datatype Called = Delivered(output: Object, attempts: nat) | Undelivered(cause: E.Cause, attempts: nat)

  function ExecutorResult(node: Node, c: Call): Called {
    if node.ProviderConfigId() == "" then Undelivered(E.MissingProviderConfigId, 1)
    else if !c.idParses then Undelivered(E.InvalidProviderConfigId, 1)
    else if c.provider.Missing? then Undelivered(E.ProviderConfigNotFound, 1)
    else if c.provider.NotActive? then Undelivered(E.ProviderConfigNotActive, 1)
    else if !c.inputTransforms then Undelivered(E.InputTransformationFailed, 1)
    else if !c.runnerInputBuilds then Undelivered(E.RunnerInputFailed, 1)
    else
      var r := R.RetrySpec(c.attempt, c.interrupt);
      match r.answer
      case Refused(_) => Undelivered(E.ExecutorCallFailed(r.attempts), r.attempts)
      case Answered(data) =>
        match c.transformOutput(data)
        case None => Undelivered(E.OutputTransformationFailed, r.attempts)
        case Some(output) => Delivered(output, r.attempts)
  }

  function TypeName(kind: NodeType): string {
    match kind
    case Trigger => "trigger"
    case Executor => "executor"
    case Conditional => "conditional"
    case Action => "action"
    case Unlisted(name) => name
  }

  function DisplayName(node: Node): string {
    if node.name.Some? && node.name.value != "" then node.name.value
    else TypeName(node.kind) + "_" + node.id
  }

  /** A failed step is logged and stored unconditionally; only then is the execution failed. */
  function FailStep(w: World, s: St, step: E.Step, cause: E.Cause): (Option<E.RunError>, St) {
    var logged := s.exec.AddStep(step.Fail(cause));
    var store := s.store.Update(logged, None, w.env.weather(s.now));
    (Some(E.NodeFailed), s.(exec := logged.Fail(E.AtNode(step.nodeId, cause)), store := store).Later())
  }

  /** A completed step is logged and stored under the condition that the record is still running. */
  function CompleteStep(w: World, s: St, step: E.Step, output: Object): (Option<E.RunError>, St) {
    var logged := s.exec.AddStep(step.Complete(output));
    var weather := w.env.weather(s.now);
    var s1 := s.(exec := logged, store := s.store.Update(logged, Some(E.Running), weather)).Later();
    match s.store.UpdateOutcome(Some(E.Running), weather)
    case Applied => (None, s1)
    case Conflict => (Some(E.StateConflict), s1)
    case _ => (Some(E.PersistFailed), s1)
  }

  function ProcessExecutor(w: World, node: Node, s: St): (Option<E.RunError>, St) {
    var step := E.NewStep(s.stepNumber, DisplayName(node), node.id, s.ctx);
    match ExecutorResult(node, w.env.call(s.now))
    case Undelivered(cause, attempts) => FailStep(w, s.Later(), step.(attempts := attempts), cause)
    case Delivered(output, attempts) =>
      CompleteStep(w, s.(ctx := s.ctx[node.id := Obj(output)]).Later(), step.(attempts := attempts), output)
  }

  function Handle(b: bool): string {
    if b then "true" else "false"
  }

  function BranchOutput(condition: string, b: bool): Object {
    map["condition" := Str(condition), "result" := Bool(b), "branchTaken" := Str(Handle(b))]
  }

  /** The target of the first edge with the given handle; an empty target ends the branch. */
  function BranchTargets(edges: seq<Edge>, handle: string): seq<string> {
    if edges == [] then []
    else if edges[0].sourceHandle == Some(handle) then
      if edges[0].target == "" then [] else [edges[0].target]
    else BranchTargets(edges[1..], handle)
  }

  function ProcessConditional(w: World, node: Node, s: St): (Option<E.RunError>, seq<string>, St) {
    var step := E.NewStep(s.stepNumber, DisplayName(node), node.id, s.ctx);
    var condition := node.Condition();
    var verdict := w.env.decide(condition, s.ctx);
    if condition == "" || verdict.None? then
      var cause := if condition == "" then E.MissingCondition else E.ConditionEvaluationFailed;
      var (err, s1) := FailStep(w, s, step, cause);
      (err, [], s1)
    else
      var b := verdict.value;
      var (err, s1) := CompleteStep(w, s, step, BranchOutput(condition, b));
      (err, if err.None? then BranchTargets(OutEdges(w.edges, node.id), Handle(b)) else [], s1)
  }

  predicate SetsOutput(data: Object) {
    StringField(data, "actionType") == "set_output" && "output" in data && data["output"].Obj?
  }

  function ProcessAction(node: Node, s: St): St {
    var step := E.NewStep(s.stepNumber, DisplayName(node), node.id, map[]);
    s.(ctx := if SetsOutput(node.data) then s.ctx["output" := node.data["output"]] else s.ctx,
       exec := s.exec.AddStep(step.Complete(node.data)))
  }

  function Targets(edges: seq<Edge>): (r: seq<string>)
    ensures |r| == |edges| && forall i :: 0 <= i < |r| ==> r[i] == edges[i].target
  {
    if edges == [] then [] else [edges[0].target] + Targets(edges[1..])
  }

  /** The nodes to visit after a node that does not branch. */
  function Successors(w: World, id: string): seq<string> {
    Targets(OutEdges(w.edges, id))
  }

  datatype Processed = Processed(error: Option<E.RunError>, targets: seq<string>, after: St)

  /** What a node does, and where the walk goes next. */
  function ProcessNode(w: World, id: string, s: St): Processed
    requires id in w.nodes
  {
    var node := w.nodes[id];
    var counted := s.(stepNumber := s.stepNumber + 1);
    match node.kind
    case Executor =>
      var (err, s1) := ProcessExecutor(w, node, counted);
      Processed(err, if err.None? then Successors(w, id) else [], s1)
    case Conditional =>
      var (err, targets, s1) := ProcessConditional(w, node, counted);
      Processed(err, targets, s1)
    case Action => Processed(None, Successors(w, id), ProcessAction(node, counted))
    case _ => Processed(None, Successors(w, id), s)
  }

  // ---------- the walk ----------

  /** The walk as a function: `path` is the set of nodes on the recursion stack. */
  function Visit(w: World, path: set<string>, id: string, s: St): (Option<E.RunError>, St)
    decreases |w.nodes.Keys - path|, 0
  {
    if w.env.expired(s.now) then (Some(E.TimedOut), s.Later())
    else if id in path then (Some(E.CycleDetected(id)), s.Later())
    else if id !in w.nodes then (Some(E.NodeNotFound(id)), s.Later())
    else
      var p := ProcessNode(w, id, s.Later());
      PathGrows(w, path, id);
      if p.error.Some? then (p.error, p.after) else VisitAll(w, path + {id}, p.targets, p.after)
  }

  function VisitAll(w: World, path: set<string>, targets: seq<string>, s: St): (Option<E.RunError>, St)
    decreases |w.nodes.Keys - path|, |targets|
  {
    if targets == [] then (None, s)
    else
      var (err, s1) := Visit(w, path, targets[0], s);
      if err.Some? then (err, s1) else VisitAll(w, path, targets[1..], s1)
  }

  lemma PathGrows(w: World, path: set<string>, id: string)
    requires id in w.nodes && id !in path
    ensures |w.nodes.Keys - (path + {id})| < |w.nodes.Keys - path|
  {
    assert w.nodes.Keys - path == (w.nodes.Keys - (path + {id})) + {id};
  }

  lemma OneTarget(w: World, path: set<string>, id: string, s: St)
    ensures VisitAll(w, path, [id], s) == Visit(w, path, id, s)
  {
    assert [id][1..] == [];
  }

  ghost predicate WellKeyed(nodes: map<string, Node>) {
    forall k :: k in nodes ==> nodes[k].id == k
  }

  // ---------- the run ----------

  /** The "output" entry of the context when it is an object, else the whole context. */
  function FinalOutput(ctx: Object): Object {
    if "output" in ctx && ctx["output"].Obj? then ctx["output"].fields else ctx
  }

  function PersistBestEffort(w: World, s: St): St {
    s.(store := s.store.Update(s.exec, None, w.env.weather(s.now))).Later()
  }

  /** How a traversal that came back with `err` is brought to its end. */
  function Conclude(w: World, err: Option<E.RunError>, s: St): St {
    match err
    case Some(StateConflict) => s
    case Some(e) => PersistBestEffort(w, s.(exec := s.exec.Fail(E.FromError(e))))
    case None =>
      if E.Terminal(s.exec.status) then s
      else PersistBestEffort(w, s.(exec := s.exec.Complete(FinalOutput(s.ctx))))
  }

  /** The state machine from the trigger on: context, step counter and path start afresh. */
  function Run(w: World, trigger: string, s: St): St {
    if trigger == "" then PersistBestEffort(w, s.(exec := s.exec.Fail(E.NoTriggerNode)))
    else
      var (err, s1) := Visit(w, {}, trigger, s.(ctx := map["workflow" := Obj(s.exec.input)], stepNumber := 0));
      Conclude(w, err, s1)
  }

  datatype StartError = StartConflict | StartBroken

  /** From the created record to running, before the state machine is launched. */
  function Start(w: World, s: St): (Option<StartError>, St) {
    var weather := w.env.weather(s.now);
    var s1 := s.(exec := s.exec.(status := E.Running));
    var s2 := s1.(store := s.store.Update(s1.exec, Some(E.Pending), weather)).Later();
    match s.store.UpdateOutcome(Some(E.Pending), weather)
    case Applied => (None, s2)
    case Conflict => (Some(StartConflict), s2)
    case _ => (Some(StartBroken), PersistBestEffort(w, s2.(exec := s2.exec.Fail(E.StartFailed))))
  }

  // ---------- the engine itself ----------

  class Engine {
    const w: World
    const graph: Graph
    const execution: E.WorkflowExecution
    const repo: E.ExecutionRepository
    var wfCtx: Object
    var stepNumber: nat
    var inPath: set<string>
    var now: nat

    ghost predicate Valid() {
      WellKeyed(w.nodes) && forall id :: EdgesOf(graph, id) == OutEdges(w.edges, id)
    }

    ghost function State(): St
      reads this, execution, repo
    {
      St(execution.Value(), wfCtx, stepNumber, repo.Contents(), now)
    }

    constructor (nodes: seq<Node>, edges: seq<Edge>, env: Env,
                 execution: E.WorkflowExecution, repo: E.ExecutionRepository)
      ensures Valid() && inPath == {}
      ensures w == World(NodeMap(nodes), edges, env)
      ensures this.execution == execution && this.repo == repo
      ensures State() == St(execution.Value(), map[], 0, repo.Contents(), 0)
    {
      this.execution, this.repo := execution, repo;
      var g := BuildGraph(edges);
      var m := BuildNodeMap(nodes);
      graph := g;
      w := World(m, edges, env);
      wfCtx, stepNumber, inPath, now := map[], 0, {}, 0;
    }

    method Write(expected: Option<E.Status>) returns (outcome: WriteOutcome)
      modifies this`now, repo
      ensures State() == old(State()).(
                store := old(repo.Contents()).Update(old(execution.Value()), expected, w.env.weather(old(now))),
                now := old(now) + 1)
      ensures outcome == old(repo.Contents()).UpdateOutcome(expected, w.env.weather(old(now)))
    {
      outcome := repo.Update(execution.Value(), expected, w.env.weather(now));
      now := now + 1;
    }

    method RecordFailure(step: E.ExecutionStep, cause: E.Cause) returns (err: Option<E.RunError>)
      requires step.status.StepRunning?
      modifies this`now, execution, repo, step
      ensures (err, State()) == FailStep(w, old(State()), old(step.Value()), cause)
    {
      var _ := step.MarkFailed(cause);
      execution.AddStep(step.Value());
      var _ := Write(None);
      var _ := execution.MarkFailed(E.AtNode(step.nodeId, cause));
      return Some(E.NodeFailed);
    }

    method RecordCompletion(step: E.ExecutionStep, output: Object) returns (err: Option<E.RunError>)
      requires step.status.StepRunning?
      modifies this`now, execution, repo, step
      ensures (err, State()) == CompleteStep(w, old(State()), old(step.Value()), output)
    {
      var _ := step.MarkCompleted(output);
      execution.AddStep(step.Value());
      var outcome := Write(Some(E.Running));
      match outcome {
        case Applied => return None;
        case Conflict => return Some(E.StateConflict);
        case _ => return Some(E.PersistFailed);
      }
    }

    /** Everything between a new step and its verdict; only the step's attempt number changes. */
    method CallExecutor(node: Node, call: Call, step: E.ExecutionStep) returns (called: Called)
      requires step.attempts == 1
      modifies step`attempts
      ensures called == ExecutorResult(node, call)
      ensures step.attempts == called.attempts
    {
      if node.ProviderConfigId() == "" { return Undelivered(E.MissingProviderConfigId, 1); }
      if !call.idParses { return Undelivered(E.InvalidProviderConfigId, 1); }
      match call.provider {
        case Missing => return Undelivered(E.ProviderConfigNotFound, 1);
        case NotActive => return Undelivered(E.ProviderConfigNotActive, 1);
        case Usable =>
      }
      if !call.inputTransforms { return Undelivered(E.InputTransformationFailed, 1); }
      if !call.runnerInputBuilds { return Undelivered(E.RunnerInputFailed, 1); }
      var retried := R.ExecuteRunnerWithRetry(call.attempt, call.interrupt);
      step.SetAttemptNumber(retried.attempts);
      if retried.answer.Refused? {
        return Undelivered(E.ExecutorCallFailed(step.attempts), step.attempts);
      }
      var output := call.transformOutput(retried.answer.data);
      if output.None? { return Undelivered(E.OutputTransformationFailed, step.attempts); }
      return Delivered(output.value, step.attempts);
    }

    method ExecuteExecutorNode(node: Node) returns (err: Option<E.RunError>)
      modifies this`now, this`wfCtx, execution, repo
      ensures (err, State()) == ProcessExecutor(w, node, old(State()))
    {
      var step := new E.ExecutionStep(stepNumber, DisplayName(node), node.id, wfCtx);
      var called := CallExecutor(node, w.env.call(now), step);
      now := now + 1;
      assert State() == old(State()).Later();
      assert step.Value() ==
        E.NewStep(stepNumber, DisplayName(node), node.id, wfCtx).(attempts := called.attempts);
      match called {
        case Undelivered(cause, _) =>
          err := RecordFailure(step, cause);
        case Delivered(output, _) =>
          wfCtx := wfCtx[node.id := Obj(output)];
          err := RecordCompletion(step, output);
      }
    }

    method EvaluateConditionalNode(node: Node) returns (err: Option<E.RunError>, next: string)
      requires Valid()
      modifies this`now, execution, repo
      ensures (err, if next == "" then [] else [next], State()) == ProcessConditional(w, node, old(State()))
      ensures err.Some? ==> next == ""
    {
      next := "";
      var step := new E.ExecutionStep(stepNumber, DisplayName(node), node.id, wfCtx);
      var condition := node.Condition();
      if condition == "" {
        err := RecordFailure(step, E.MissingCondition);
        return;
      }
      var verdict := w.env.decide(condition, wfCtx);
      if verdict.None? {
        err := RecordFailure(step, E.ConditionEvaluationFailed);
        return;
      }
      var handle := if verdict.value then "true" else "false";
      err := RecordCompletion(step, BranchOutput(condition, verdict.value));
      if err.Some? { return; }
      var outEdges := EdgesOf(graph, node.id);
      for i := 0 to |outEdges|
        invariant BranchTargets(outEdges, handle) == BranchTargets(outEdges[i..], handle)
      {
        if outEdges[i].sourceHandle == Some(handle) {
          next := outEdges[i].target;
          return;
        }
        assert outEdges[i..][1..] == outEdges[i + 1..];
      }
    }

    method ExecuteActionNode(node: Node)
      modifies this`wfCtx, execution
      ensures State() == ProcessAction(node, old(State()))
    {
      var step := new E.ExecutionStep(stepNumber, DisplayName(node), node.id, map[]);
      if SetsOutput(node.data) {
        wfCtx := wfCtx["output" := node.data["output"]];
      }
      var _ := step.MarkCompleted(node.data);
      execution.AddStep(step.Value());
    }

    /** The recursive walk. It refines Visit, terminates on every graph, and leaves inPath as it was. */
    method TraverseNode(id: string) returns (err: Option<E.RunError>)
      requires Valid()
      modifies this, execution, repo
      ensures (err, State()) == Visit(w, old(inPath), id, old(State()))
      ensures inPath == old(inPath)
      decreases |w.nodes.Keys - inPath|, 0
    {
      now := now + 1;
      if w.env.expired(now - 1) { return Some(E.TimedOut); }
      if id in inPath { return Some(E.CycleDetected(id)); }
      ghost var path := inPath;
      inPath := inPath + {id};
      if id in w.nodes {
        PathGrows(w, path, id);
        err := ProcessAndFollow(w.nodes[id]);
      } else {
        err := Some(E.NodeNotFound(id));
      }
      inPath := inPath - {id};
    }

    /** Where a processed node leaves the walk. */
    ghost predicate Continues(before: St, id: string, path: set<string>, err: Option<E.RunError>)
      requires id in w.nodes
      reads this, execution, repo
    {
      var p := ProcessNode(w, id, before);
      (err, State()) == if p.error.Some? then (p.error, p.after) else VisitAll(w, path, p.targets, p.after)
    }

    /** The switch over the node type, and the edges that follow. */
    method ProcessAndFollow(node: Node) returns (err: Option<E.RunError>)
      requires Valid() && node.id in w.nodes && w.nodes[node.id] == node
      modifies this, execution, repo
      ensures Continues(old(State()), node.id, old(inPath), err)
      ensures inPath == old(inPath)
      decreases |w.nodes.Keys - inPath|, 2
    {
      if node.kind.Conditional? {
        err := ProcessAndBranch(node);
      } else {
        err := ProcessPlain(node);
        if err.None? {
          err := FollowEdges(EdgesOf(graph, node.id));
        }
      }
    }

    /** A node that does not branch: an executor, an action, or a node that only passes the walk on. */
    method ProcessPlain(node: Node) returns (err: Option<E.RunError>)
      requires Valid() && node.id in w.nodes && w.nodes[node.id] == node && !node.kind.Conditional?
      modifies this`now, this`wfCtx, this`stepNumber, execution, repo
      ensures ProcessNode(w, node.id, old(State())) ==
              Processed(err, if err.None? then Successors(w, node.id) else [], State())
    {
      if node.kind.Executor? {
        err := CountAndCall(node);
        return;
      }
      if node.kind.Action? {
        stepNumber := stepNumber + 1;
        ExecuteActionNode(node);
      }
      return None;
    }

    method CountAndCall(node: Node) returns (err: Option<E.RunError>)
      requires node.id in w.nodes && w.nodes[node.id] == node && node.kind.Executor?
      modifies this`now, this`wfCtx, this`stepNumber, execution, repo
      ensures ProcessNode(w, node.id, old(State())) ==
              Processed(err, if err.None? then Successors(w, node.id) else [], State())
    {
      ghost var counted := State().(stepNumber := stepNumber + 1);
      stepNumber := stepNumber + 1;
      assert State() == counted;
      err := ExecuteExecutorNode(node);
    }

    method CountAndDecide(node: Node) returns (err: Option<E.RunError>, next: string)
      requires Valid() && node.id in w.nodes && w.nodes[node.id] == node && node.kind.Conditional?
      modifies this`now, this`stepNumber, execution, repo
      ensures ProcessNode(w, node.id, old(State())) == Processed(err, if next == "" then [] else [next], State())
      ensures err.Some? ==> next == ""
    {
      ghost var counted := State().(stepNumber := stepNumber + 1);
      stepNumber := stepNumber + 1;
      assert State() == counted;
      err, next := EvaluateConditionalNode(node);
      assert (err, if next == "" then [] else [next], State()) == ProcessConditional(w, node, counted);
    }

    method ProcessAndBranch(node: Node) returns (err: Option<E.RunError>)
      requires Valid() && node.id in w.nodes && w.nodes[node.id] == node && node.kind.Conditional?
      modifies this, execution, repo
      ensures Continues(old(State()), node.id, old(inPath), err)
      ensures inPath == old(inPath)
      decreases |w.nodes.Keys - inPath|, 1
    {
      var next;
      err, next := CountAndDecide(node);
      if next != "" {
        OneTarget(w, inPath, next, State());
        err := TraverseNode(next);
      }
    }

    method FollowEdges(outEdges: seq<Edge>) returns (err: Option<E.RunError>)
      requires Valid()
      modifies this, execution, repo
      ensures (err, State()) == VisitAll(w, old(inPath), Targets(outEdges), old(State()))
      ensures inPath == old(inPath)
      decreases |w.nodes.Keys - inPath|, 1
    {
      ghost var targets := Targets(outEdges);
      for i := 0 to |outEdges|
        invariant inPath == old(inPath)
        invariant VisitAll(w, inPath, targets, old(State())) == VisitAll(w, inPath, targets[i..], State())
      {
        err := TraverseNode(outEdges[i].target);
        if err.Some? { return; }
        assert targets[i..][1..] == targets[i + 1..];
      }
      return None;
    }

    method RunStateMachine(nodes: seq<Node>)
      requires Valid() && w.nodes == NodeMap(nodes) && inPath == {}
      modifies this, execution, repo
      ensures State() == Run(w, FirstTrigger(nodes), old(State())) && inPath == {}
    {
      var trigger := FindTriggerNode(nodes);
      if trigger == "" {
        FailRun(E.NoTriggerNode);
        return;
      }
      wfCtx := map["workflow" := Obj(execution.input)];
      stepNumber := 0;
      var err := TraverseNode(trigger);
      if err.Some? {
        if err.value.StateConflict? { return; }
        FailRun(E.FromError(err.value));
      } else if !E.Terminal(execution.status) {
        CompleteRun();
      }
    }

    method FailRun(message: E.Message)
      modifies this`now, execution, repo
      ensures State() == PersistBestEffort(w, old(State()).(exec := old(execution.Value()).Fail(message)))
    {
      var _ := execution.MarkFailed(message);
      var _ := Write(None);
    }

    method CompleteRun()
      modifies this`now, execution, repo
      ensures State() ==
              PersistBestEffort(w, old(State()).(exec := old(execution.Value()).Complete(FinalOutput(old(wfCtx)))))
    {
      var finalOutput := wfCtx;
      if "output" in wfCtx && wfCtx["output"].Obj? {
        finalOutput := wfCtx["output"].fields;
      }
      var _ := execution.MarkCompleted(finalOutput);
      var _ := Write(None);
    }

    /** Marks a pending execution running in memory and in the store. */
    method StartExecution() returns (err: Option<StartError>)
      requires execution.status.Pending?
      modifies this`now, execution, repo
      ensures (err, State()) == Start(w, old(State()))
    {
      var _ := execution.MarkRunning();
      var outcome := Write(Some(E.Pending));
      if outcome.Applied? { return None; }
      if outcome.Conflict? { return Some(StartConflict); }
      FailRun(E.StartFailed);
      return Some(StartBroken);
    }
  }
}
