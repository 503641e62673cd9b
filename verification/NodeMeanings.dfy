/** What the handlers of the nodes mean: calls, branches, outputs and writes, in terms of the node's data and
    of what lies outside. */
module NodeMeanings {
  import opened Values
  import opened Workflows
  import opened Engine
  import E = Executions
  import P = RunProperties
  import R = Retry
  import U = Unfolding

  // ---------- executor calls ----------

  ghost predicate HasProviderId(node: Node) {
    "providerConfigId" in node.data && exists x :: node.data["providerConfigId"] == Str(x) && x != ""
  }

  /** Everything before the call is in order. */
  ghost predicate Ready(node: Node, c: Call) {
    HasProviderId(node) && c.idParses && c.provider == Usable && c.inputTransforms && c.runnerInputBuilds
  }

  /** What a call delivers, and each way in which it does not, from its own guards: the attempt that ends the
      retry loop gives the data, and the output mapping of just these data is what is delivered. */
  ghost predicate CallMeans(node: Node, c: Call, called: Called) {
    match called
    case Delivered(output, n) =>
      && Ready(node, c) && R.EndsAt(c.attempt, c.interrupt, n)
      && exists data :: c.attempt(n) == R.Answered(data) && c.transformOutput(data) == Some(output)
    case Undelivered(cause, n) =>
      match cause
      case MissingProviderConfigId => n == 1 && !HasProviderId(node)
      case InvalidProviderConfigId => n == 1 && HasProviderId(node) && !c.idParses
      case ProviderConfigNotFound => n == 1 && HasProviderId(node) && c.idParses && c.provider == Missing
      case ProviderConfigNotActive => n == 1 && HasProviderId(node) && c.idParses && c.provider == NotActive
      case InputTransformationFailed =>
        n == 1 && HasProviderId(node) && c.idParses && c.provider == Usable && !c.inputTransforms
      case RunnerInputFailed =>
        && n == 1 && HasProviderId(node) && c.idParses && c.provider == Usable
        && c.inputTransforms && !c.runnerInputBuilds
      case ExecutorCallFailed(attempts) =>
        attempts == n && Ready(node, c) && R.EndsAt(c.attempt, c.interrupt, n) && c.attempt(n).Refused?
      case OutputTransformationFailed =>
        && Ready(node, c) && R.EndsAt(c.attempt, c.interrupt, n)
        && exists data :: c.attempt(n) == R.Answered(data) && c.transformOutput(data) == None
      case _ => false
  }

  lemma ProviderIdOf(node: Node)
    requires node.kind.Executor?
    ensures node.ProviderConfigId() != "" <==> HasProviderId(node)
  {
  }

  lemma ReadyCall(node: Node, c: Call, called: Called)
    requires node.kind.Executor? && Ready(node, c)
    ensures called == ExecutorResult(node, c) ==> CallMeans(node, c, called)
  {
    ProviderIdOf(node);
    R.RetryEndsAt(c.attempt, c.interrupt);
  }

  lemma UnreadyCall(node: Node, c: Call)
    requires node.kind.Executor? && !Ready(node, c)
    ensures CallMeans(node, c, ExecutorResult(node, c))
  {
    ProviderIdOf(node);
  }

  /** CallMeans leaves no choice of the result. */
  lemma CallMeansOne(node: Node, c: Call, a: Called, b: Called)
    requires CallMeans(node, c, a) && CallMeans(node, c, b)
    ensures a == b
  {
    R.RetryEndsAt(c.attempt, c.interrupt);
  }

  /** A call of an executor gives exactly what CallMeans says. */
  lemma CallMeaning(node: Node, c: Call, called: Called)
    requires node.kind.Executor?
    ensures called == ExecutorResult(node, c) <==> CallMeans(node, c, called)
  {
    var result := ExecutorResult(node, c);
    if Ready(node, c) { ReadyCall(node, c, result); } else { UnreadyCall(node, c); }
    if CallMeans(node, c, called) { CallMeansOne(node, c, called, result); }
  }

  // ---------- branches ----------

  /** The edge at place i leaves `id` with this handle. */
  predicate Takes(edges: seq<Edge>, id: string, handle: string, i: int) {
    0 <= i < |edges| && edges[i].source == id && edges[i].sourceHandle == Some(handle)
  }

  ghost predicate TakesSome(edges: seq<Edge>, id: string, handle: string) {
    exists i :: Takes(edges, id, handle, i)
  }

  ghost predicate FirstTaken(edges: seq<Edge>, id: string, handle: string, i: int) {
    Takes(edges, id, handle, i) && forall j :: 0 <= j < i ==> !Takes(edges, id, handle, j)
  }

  /** The walk goes to the target of the first edge with the handle; it ends where there is none, or where
      the target is empty. */
  ghost predicate GoesTo(edges: seq<Edge>, id: string, handle: string, targets: seq<string>) {
    && (forall i :: FirstTaken(edges, id, handle, i) ==>
          targets == if edges[i].target == "" then [] else [edges[i].target])
    && ((forall i :: !Takes(edges, id, handle, i)) ==> targets == [])
  }

  predicate Offers(out: seq<Edge>, handle: string) {
    exists i :: 0 <= i < |out| && out[i].sourceHandle == Some(handle)
  }

  lemma {:induction false} BranchOfMore(out: seq<Edge>, e: Edge, handle: string)
    ensures BranchTargets(out + [e], handle) ==
            if Offers(out, handle) || e.sourceHandle != Some(handle) then BranchTargets(out, handle)
            else if e.target == "" then [] else [e.target]
    decreases |out|
  {
    if out == [] {
      assert [e][1..] == [] && out + [e] == [e];
    } else {
      assert (out + [e])[1..] == out[1..] + [e];
      BranchOfMore(out[1..], e, handle);
      assert forall i :: 0 < i < |out| ==> out[i] == out[1..][i - 1];
      assert Offers(out[1..], handle) ==> Offers(out, handle);
    }
  }

  lemma OffersSome(edges: seq<Edge>, id: string, handle: string)
    ensures Offers(OutEdges(edges, id), handle) <==> TakesSome(edges, id, handle)
  {
    var out := OutEdges(edges, id);
    if i :| 0 <= i < |out| && out[i].sourceHandle == Some(handle) {
      assert out[i] in out;
      var j :| 0 <= j < |edges| && edges[j] == out[i];
      assert Takes(edges, id, handle, j);
    }
    if i :| Takes(edges, id, handle, i) {
      assert edges[i] in out;
      var j :| 0 <= j < |out| && out[j] == edges[i];
    }
  }

  lemma {:induction false} FirstExists(edges: seq<Edge>, id: string, handle: string, i: nat)
    requires Takes(edges, id, handle, i)
    ensures exists k :: FirstTaken(edges, id, handle, k)
    decreases i
  {
    if FirstTaken(edges, id, handle, i) {
    } else {
      var j :| 0 <= j < i && Takes(edges, id, handle, j);
      FirstExists(edges, id, handle, j);
    }
  }

  lemma PlacesInFront(edges: seq<Edge>, id: string, handle: string)
    requires edges != []
    ensures var n := |edges| - 1;
      && (forall i :: 0 <= i < n ==> (Takes(edges[..n], id, handle, i) <==> Takes(edges, id, handle, i)))
      && (forall i :: 0 <= i < n ==> (FirstTaken(edges[..n], id, handle, i) <==> FirstTaken(edges, id, handle, i)))
  {
    var n := |edges| - 1;
    assert forall i :: 0 <= i < n ==> (Takes(edges[..n], id, handle, i) <==> Takes(edges, id, handle, i));
  }

  /** The last edge of a definition matters only when no edge before it is taken. */
  lemma LastEdge(edges: seq<Edge>, id: string, handle: string, before: seq<string>, targets: seq<string>)
    requires edges != [] && GoesTo(edges[..|edges| - 1], id, handle, before)
    requires var n := |edges| - 1;
      targets == if TakesSome(edges[..n], id, handle) || !Takes(edges, id, handle, n) then before
                 else if edges[n].target == "" then [] else [edges[n].target]
    ensures GoesTo(edges, id, handle, targets)
  {
    var n := |edges| - 1;
    PlacesInFront(edges, id, handle);
    if i :| Takes(edges[..n], id, handle, i) {
      FirstExists(edges[..n], id, handle, i);
      assert !FirstTaken(edges, id, handle, n) by { assert Takes(edges, id, handle, i); }
    }
  }

  lemma BranchOfLonger(edges: seq<Edge>, id: string, handle: string)
    requires edges != []
    ensures var n := |edges| - 1;
      BranchTargets(OutEdges(edges, id), handle) ==
      if TakesSome(edges[..n], id, handle) || !Takes(edges, id, handle, n)
      then BranchTargets(OutEdges(edges[..n], id), handle)
      else if edges[n].target == "" then [] else [edges[n].target]
  {
    var n := |edges| - 1;
    OffersSome(edges[..n], id, handle);
    if edges[n].source == id {
      BranchOfMore(OutEdges(edges[..n], id), edges[n], handle);
    } else {
      assert OutEdges(edges, id) == OutEdges(edges[..n], id);
    }
  }

  /** Of the outgoing edges of a node, the branch takes the first in the definition with the handle. */
  lemma {:induction false} BranchIsFirst(edges: seq<Edge>, id: string, handle: string)
    ensures GoesTo(edges, id, handle, BranchTargets(OutEdges(edges, id), handle))
    decreases |edges|
  {
    if edges == [] {
    } else {
      var front := edges[..|edges| - 1];
      BranchIsFirst(front, id, handle);
      BranchOfLonger(edges, id, handle);
      LastEdge(edges, id, handle, BranchTargets(OutEdges(front, id), handle),
               BranchTargets(OutEdges(edges, id), handle));
    }
  }

  /** So do the unfoldings that walks follow: below a decided conditional stands the target of that edge. */
  lemma UnfoldingGoesTo(w: World, id: string, b: bool)
    requires id in w.nodes && w.nodes[id].kind.Conditional?
    ensures GoesTo(w.edges, id, if b then "true" else "false", U.NextOf(w, id, Some(b)))
  {
    BranchIsFirst(w.edges, id, if b then "true" else "false");
  }

  // ---------- writes of single nodes ----------

  /** A completed step is logged and stored by check-and-set: the node goes on exactly when the database is
      up and the record, as another worker may have left it, is still running; it meets a state conflict
      exactly when the record is not; and only then it is stored. */
  lemma CompletedStepStored(w: World, s: St, step: E.Step, output: Object)
    ensures var (err, t) := CompleteStep(w, s, step, output);
      var wt := w.env.weather(s.now);
      var found := E.Found(s.store.record, wt);
      && (err == None <==> !wt.fails && exists e :: found == Some(e) && e.status == E.Running)
      && (err == Some(E.StateConflict) <==> !wt.fails && forall e :: found == Some(e) ==> e.status != E.Running)
      && (err == Some(E.PersistFailed) <==> wt.fails)
      && t.exec.steps == s.exec.steps + [step.Complete(output)]
      && t.store.record == if err == None then Some(t.exec) else found
  {
    E.CheckAndSet(s.store, s.exec.AddStep(step.Complete(output)), Some(E.Running), w.env.weather(s.now));
  }

  /** A failed step is stored whatever the record, unless the database fails or the record is gone: what is
      stored is the log with the failed step, in the status that the execution had before. */
  lemma FailedStepStored(w: World, s: St, step: E.Step, cause: E.Cause)
    ensures var (err, t) := FailStep(w, s, step, cause);
      var wt := w.env.weather(s.now);
      var found := E.Found(s.store.record, wt);
      && err == Some(E.NodeFailed)
      && t.exec.steps == s.exec.steps + [step.Fail(cause)]
      && t.store.record == if wt.fails || found == None then found
                           else Some(s.exec.(steps := t.exec.steps, currentStep := step.number))
  {
    E.CheckAndSet(s.store, s.exec.AddStep(step.Fail(cause)), None, w.env.weather(s.now));
  }

  /** The move to running is a check-and-set against pending: a conflict leaves record and execution as they
      are and nothing is tried again, any other failure fails the execution and stores that. */
  lemma StartMeaning(w: World, s: St)
    ensures var (err, t) := Start(w, s);
      var wt := w.env.weather(s.now);
      var found := E.Found(s.store.record, wt);
      && (err == None <==> !wt.fails && exists e :: found == Some(e) && e.status == E.Pending)
      && (err == Some(StartConflict) <==> !wt.fails && forall e :: found == Some(e) ==> e.status != E.Pending)
      && (err == Some(StartBroken) <==> wt.fails)
      && (err == None ==> t.store.record == Some(t.exec) && t.exec == s.exec.(status := E.Running))
      && (err == Some(StartConflict) ==> t.store.record == found && |t.store.attempts| == |s.store.attempts| + 1)
      && (err == Some(StartBroken) ==>
            && t.exec.status == E.Failed && t.exec.error == Some(E.StartFailed)
            && |t.store.attempts| == |s.store.attempts| + 2
            && t.store.attempts[|s.store.attempts| + 1].expected == None
            && t.store.attempts[|s.store.attempts| + 1].written == t.exec)
  {
    E.CheckAndSet(s.store, s.exec.(status := E.Running), Some(E.Pending), w.env.weather(s.now));
  }

  // ---------- single nodes ----------

  /** How the step that a node logged came about: from a call, from a verdict, or as an action. */
  ghost predicate StepMeans(w: World, step: E.Step) {
    step.nodeId in w.nodes &&
    var node := w.nodes[step.nodeId];
    match node.kind
    case Executor =>
      if step.status == E.StepCompleted
      then exists t :: CallMeans(node, w.env.call(t), Delivered(step.output, step.attempts))
      else step.status == E.StepFailed && step.error.Some?
           && exists t :: CallMeans(node, w.env.call(t), Undelivered(step.error.value, step.attempts))
    case Conditional =>
      if step.status == E.StepCompleted
      then exists condition, b :: DecidedAs(w, node, step.input, condition, b) && step.output == Recorded(condition, b)
      else step.status == E.StepFailed && step.error == Some(Undecided(w, node, step.input))
    case Action => step.status == E.StepCompleted && step.output == node.data
    case _ => false
  }

  /** The node's condition, a text that is not empty, is decided on the context. */
  ghost predicate DecidedAs(w: World, node: Node, ctx: Object, condition: string, b: bool) {
    && "condition" in node.data && node.data["condition"] == Str(condition) && condition != ""
    && w.env.decide(condition, ctx) == Some(b)
  }

  /** What a decided conditional records. */
  function Recorded(condition: string, b: bool): Object {
    map["condition" := Str(condition), "result" := Bool(b),
        "branchTaken" := Str(if b then "true" else "false")]
  }

  ghost function Undecided(w: World, node: Node, ctx: Object): E.Cause {
    if "condition" in node.data && node.data["condition"].Str? && node.data["condition"].s != ""
    then E.ConditionEvaluationFailed else E.MissingCondition
  }

  lemma ConditionOf(node: Node)
    requires node.kind.Conditional?
    ensures node.Condition() != "" ==> "condition" in node.data && node.data["condition"] == Str(node.Condition())
    ensures node.Condition() == "" ==>
              !("condition" in node.data && node.data["condition"].Str? && node.data["condition"].s != "")
  {
  }

  lemma DecidedWay(w: World, id: string, s: St, condition: string, b: bool)
    requires WellKeyed(w.nodes) && id in w.nodes && w.nodes[id].kind.Conditional?
    requires DecidedAs(w, w.nodes[id], s.ctx, condition, b)
    ensures var way := P.WayOf(w, id, s);
      && way.Completes? && way.output == Recorded(condition, b)
      && (ProcessNode(w, id, s).error.Some? ==> ProcessNode(w, id, s).targets == [])
  {
    ConditionOf(w.nodes[id]);
  }

  /** A conditional whose condition is decided logs the verdict with the branch by name and, when its write
      is applied, sends the walk along the first edge with that name. */
  lemma ConditionalMeaning(w: World, id: string, s: St, condition: string, b: bool)
    requires WellKeyed(w.nodes) && id in w.nodes && w.nodes[id].kind.Conditional?
    requires DecidedAs(w, w.nodes[id], s.ctx, condition, b)
    ensures var p := ProcessNode(w, id, s);
      && |p.after.exec.steps| == |s.exec.steps| + 1
      && var step := p.after.exec.steps[|s.exec.steps|];
      && step.nodeId == id && step.status == E.StepCompleted && step.input == s.ctx
      && step.output == Recorded(condition, b)
      && (p.error.None? ==> GoesTo(w.edges, id, if b then "true" else "false", p.targets))
      && (p.error.Some? ==> p.targets == [])
  {
    P.ProcessedAs(w, id, s);
    P.WayStarts(w, id, s);
    DecidedWay(w, id, s, condition, b);
    P.BranchOfWay(w, id, s);
    var way := P.WayOf(w, id, s);
    CompletedStepStored(w, way.from, way.step, way.output);
    BranchIsFirst(w.edges, id, if b then "true" else "false");
  }

  /** A conditional without a condition, or whose condition cannot be decided, fails with that cause, and
      sends the walk nowhere. */
  lemma UndecidedMeaning(w: World, id: string, s: St)
    requires WellKeyed(w.nodes) && id in w.nodes && w.nodes[id].kind.Conditional?
    requires forall condition, b :: !DecidedAs(w, w.nodes[id], s.ctx, condition, b)
    ensures var p := ProcessNode(w, id, s);
      && p.error == Some(E.NodeFailed) && p.targets == [] && p.after.ctx == s.ctx
      && |p.after.exec.steps| == |s.exec.steps| + 1
      && var step := p.after.exec.steps[|s.exec.steps|];
      && step.status == E.StepFailed && step.error == Some(Undecided(w, w.nodes[id], s.ctx))
  {
    ConditionOf(w.nodes[id]);
    P.ProcessedAs(w, id, s);
    Decidable(w, w.nodes[id], s.ctx);
  }

  lemma Decidable(w: World, node: Node, ctx: Object)
    requires node.kind.Conditional?
    ensures node.Condition() != "" && w.env.decide(node.Condition(), ctx).Some? ==>
              exists condition, b :: DecidedAs(w, node, ctx, condition, b)
  {
    ConditionOf(node);
    if node.Condition() != "" && w.env.decide(node.Condition(), ctx).Some? {
      assert DecidedAs(w, node, ctx, node.Condition(), w.env.decide(node.Condition(), ctx).value);
    }
  }

  predicate SetsTo(data: Object, o: Object) {
    && "actionType" in data && data["actionType"] == Str("set_output")
    && "output" in data && data["output"] == Obj(o)
  }

  /** An action of type set_output with an object as output replaces the "output" entry of the context; any
      other action leaves the context alone. It logs its data, stores nothing, and never fails. */
  lemma ActionMeaning(w: World, id: string, s: St)
    requires WellKeyed(w.nodes) && id in w.nodes && w.nodes[id].kind.Action?
    ensures var p, data := ProcessNode(w, id, s), w.nodes[id].data;
      && p.error.None? && p.after.store == s.store
      && |p.after.exec.steps| == |s.exec.steps| + 1
      && p.after.exec.steps[|s.exec.steps|].output == data
      && p.after.exec.steps[|s.exec.steps|].input == map[]
      && (forall o :: SetsTo(data, o) ==> p.after.ctx == s.ctx["output" := Obj(o)])
      && ((forall o :: !SetsTo(data, o)) ==> p.after.ctx == s.ctx)
  {
    var data := w.nodes[id].data;
    P.ProcessedAs(w, id, s);
    if SetsOutput(data) { assert SetsTo(data, data["output"].fields); }
  }

  /** The name shown for a node: its own, or else its type and id. */
  lemma NameShown(node: Node)
    ensures forall x :: node.name == Some(x) && x != "" ==> DisplayName(node) == x
    ensures node.name == None || node.name == Some("") ==>
      && (node.kind == Executor ==> DisplayName(node) == "executor_" + node.id)
      && (node.kind == Conditional ==> DisplayName(node) == "conditional_" + node.id)
      && (node.kind == Action ==> DisplayName(node) == "action_" + node.id)
  {
  }

  lemma WayNamed(w: World, id: string, s: St)
    requires id in w.nodes
    ensures match P.WayOf(w, id, s)
      case Fails(_, step, _) => step.name == DisplayName(w.nodes[id])
      case Completes(_, step, _) => step.name == DisplayName(w.nodes[id])
      case _ => true
  {
  }

  /** A logged step carries its number, its node, and the name shown for the node. */
  lemma StepNamed(w: World, id: string, s: St)
    requires WellKeyed(w.nodes) && id in w.nodes
    requires w.nodes[id].kind.Executor? || w.nodes[id].kind.Conditional? || w.nodes[id].kind.Action?
    ensures var steps := ProcessNode(w, id, s).after.exec.steps;
      && |steps| == |s.exec.steps| + 1
      && var step := steps[|s.exec.steps|];
      step.number == s.stepNumber + 1 && step.nodeId == id && step.name == DisplayName(w.nodes[id])
  {
    P.ProcessedAs(w, id, s);
    P.WayStarts(w, id, s);
    WayNamed(w, id, s);
    match P.WayOf(w, id, s)
    case Fails(from, step, cause) => FailedStepStored(w, from, step, cause);
    case Completes(from, step, output) => CompletedStepStored(w, from, step, output);
    case _ =>
  }

  // ---------- before a node is processed ----------

  /** A visit first looks at the time, then at the recursion stack, then for the node; a visit refused by any
      of them changes nothing but the moment. */
  lemma EntryChecks(w: World, path: set<string>, id: string, s: St)
    ensures var (err, t) := Visit(w, path, id, s);
      && (w.env.expired(s.now) ==> err == Some(E.TimedOut))
      && (!w.env.expired(s.now) && id in path ==> err == Some(E.CycleDetected(id)))
      && (!w.env.expired(s.now) && id !in path && id !in w.nodes ==> err == Some(E.NodeNotFound(id)))
      && (w.env.expired(s.now) || id in path || id !in w.nodes ==> t == s.(now := s.now + 1))
  {
  }

  /** A walk that timed out did so at the moment it last looked at the time. */
  lemma {:induction false} TimeoutsAreReal(w: World, path: set<string>, id: string, s: St)
    ensures var (err, t) := Visit(w, path, id, s);
      err == Some(E.TimedOut) ==> t.now > 0 && w.env.expired(t.now - 1)
    decreases |w.nodes.Keys - path|, 0
  {
    if w.env.expired(s.now) || id in path || id !in w.nodes {
    } else {
      var p := ProcessNode(w, id, s.Later());
      U.VisitEquation(w, path, id, s);
      NodesDoNotTimeOut(w, id, s.Later());
      PathGrows(w, path, id);
      if p.error.None? { TimeoutsBelowAreReal(w, path + {id}, p.targets, p.after); }
    }
  }

  lemma NodesDoNotTimeOut(w: World, id: string, s: St)
    requires id in w.nodes
    ensures ProcessNode(w, id, s).error != Some(E.TimedOut)
  {
  }

  lemma {:induction false} TimeoutsBelowAreReal(w: World, path: set<string>, targets: seq<string>, s: St)
    ensures var (err, t) := VisitAll(w, path, targets, s);
      err == Some(E.TimedOut) ==> t.now > 0 && w.env.expired(t.now - 1)
    decreases |w.nodes.Keys - path|, |targets|
  {
    if targets == [] {
    } else {
      TimeoutsAreReal(w, path, targets[0], s);
      var (err, s1) := Visit(w, path, targets[0], s);
      if err.None? { TimeoutsBelowAreReal(w, path, targets[1..], s1); }
    }
  }

  // ---------- whole runs ----------

  ghost predicate AllMeant(w: World, steps: seq<E.Step>) {
    forall i :: 0 <= i < |steps| ==> StepMeans(w, steps[i])
  }

  lemma ExecutorStepMeans(w: World, id: string, s: St)
    requires WellKeyed(w.nodes) && id in w.nodes && w.nodes[id].kind.Executor?
    ensures var steps := ProcessNode(w, id, s).after.exec.steps;
      |steps| == |s.exec.steps| + 1 && StepMeans(w, steps[|s.exec.steps|])
  {
    P.ProcessedAs(w, id, s);
    P.WayStarts(w, id, s);
    WayIsCalled(w, id, s);
    match P.WayOf(w, id, s)
    case Fails(from, step, cause) => FailedStepStored(w, from, step, cause);
    case Completes(from, step, output) => CompletedStepStored(w, from, step, output);
  }

  lemma WayIsCalled(w: World, id: string, s: St)
    requires id in w.nodes && w.nodes[id].kind.Executor?
    ensures var c := w.env.call(s.now);
      match P.WayOf(w, id, s)
      case Fails(_, step, cause) => CallMeans(w.nodes[id], c, Undelivered(cause, step.attempts))
      case Completes(_, step, output) => CallMeans(w.nodes[id], c, Delivered(output, step.attempts))
      case _ => false
  {
    var c := w.env.call(s.now);
    CallMeaning(w.nodes[id], c, ExecutorResult(w.nodes[id], c));
  }

  lemma ConditionalStepMeans(w: World, id: string, s: St)
    requires WellKeyed(w.nodes) && id in w.nodes && w.nodes[id].kind.Conditional?
    ensures var steps := ProcessNode(w, id, s).after.exec.steps;
      |steps| == |s.exec.steps| + 1 && StepMeans(w, steps[|s.exec.steps|])
  {
    var node := w.nodes[id];
    if condition, b :| DecidedAs(w, node, s.ctx, condition, b) {
      ConditionalMeaning(w, id, s, condition, b);
    } else {
      UndecidedMeaning(w, id, s);
      P.ProcessedAs(w, id, s);
    }
  }

  lemma NodeLogsMeantStep(w: World, id: string, s: St)
    requires WellKeyed(w.nodes) && id in w.nodes && AllMeant(w, s.exec.steps)
    ensures AllMeant(w, ProcessNode(w, id, s).after.exec.steps)
  {
    match w.nodes[id].kind
    case Executor =>
      var step := P.OneStepLogged(w, id, s);
      ExecutorStepMeans(w, id, s);
    case Conditional =>
      var step := P.OneStepLogged(w, id, s);
      ConditionalStepMeans(w, id, s);
    case Action =>
      var step := P.OneStepLogged(w, id, s);
      P.ProcessedAs(w, id, s);
    case _ => P.NodeThatPasses(w, id, s);
  }

  /** Every step that a walk logs is what its node means: a completed executor step holds the output mapping
      of an answer that an attempt gave, a failed one the cause of a call that failed; a conditional's step
      holds the verdict on its input, by name. */
  lemma StepsAreMeant(w: World, path: set<string>, id: string, s: St)
    requires WellKeyed(w.nodes) && AllMeant(w, s.exec.steps)
    ensures AllMeant(w, Visit(w, path, id, s).1.exec.steps)
  {
    var I := (s: St) => AllMeant(w, s.exec.steps);
    var J := (e: E.RunError, s: St) => AllMeant(w, s.exec.steps);
    forall i, s | i in w.nodes && I(s) ensures P.StepKeeps(ProcessNode(w, i, s), I, J) {
      NodeLogsMeantStep(w, i, s);
    }
    P.VisitKeeps(w, I, J, path, id, s);
  }

  /** In particular: what a completed executor step holds was mapped from an answered attempt. */
  lemma OutputsAreMapped(w: World, root: string, s: St, i: nat) returns (t: nat, data: Object)
    requires WellKeyed(w.nodes) && P.Started(s)
    requires var steps := Visit(w, {}, root, P.Begin(s)).1.exec.steps;
      && i < |steps| && steps[i].status == E.StepCompleted
      && steps[i].nodeId in w.nodes && w.nodes[steps[i].nodeId].kind.Executor?
    ensures var step, c := Visit(w, {}, root, P.Begin(s)).1.exec.steps[i], w.env.call(t);
      && c.attempt(step.attempts) == R.Answered(data) && c.transformOutput(data) == Some(step.output)
      && R.EndsAt(c.attempt, c.interrupt, step.attempts)
  {
    StepsAreMeant(w, {}, root, P.Begin(s));
    var step := Visit(w, {}, root, P.Begin(s)).1.exec.steps[i];
    assert StepMeans(w, step);
    var node := w.nodes[step.nodeId];
    t :| CallMeans(node, w.env.call(t), Delivered(step.output, step.attempts));
    data :| w.env.call(t).attempt(step.attempts) == R.Answered(data)
         && w.env.call(t).transformOutput(data) == Some(step.output);
  }
}
