/** Executions and their steps: the state machines, and the stored record behind check-and-set. */
module Executions {
  import opened Values

  datatype StepStatus = StepRunning | StepCompleted | StepFailed | StepSkipped

  datatype Status = Pending | Running | Completed | Failed

  /** Why a step failed. */
  datatype Cause =
    | MissingProviderConfigId | InvalidProviderConfigId | ProviderConfigNotFound | ProviderConfigNotActive
    | InputTransformationFailed | RunnerInputFailed | ExecutorCallFailed(attempts: nat)
    | OutputTransformationFailed | MissingCondition | ConditionEvaluationFailed

  /** The error that ends a traversal. */
  datatype RunError =
    | TimedOut
    | CycleDetected(node: string)
    | NodeNotFound(node: string)
    | NodeFailed
    | StateConflict
    | PersistFailed

  /** The error message of an execution. */
  datatype Message =
    | AtNode(node: string, cause: Cause)
    | FromError(error: RunError)
    | NoTriggerNode
    | StartFailed

  predicate StepTerminal(s: StepStatus) {
    s.StepCompleted? || s.StepFailed? || s.StepSkipped?
  }

  /** The value of a step; `finished` says that completedAt is set. */
  datatype Step = Step(
    number: int,
    name: string,
    nodeId: string,
    status: StepStatus,
    input: Object,
    output: Object,
    error: Option<Cause>,
    finished: bool,
    attempts: nat)
  {
    function Complete(data: Object): Step {
      if StepTerminal(status) then this else this.(status := StepCompleted, output := data, finished := true)
    }

    function Fail(cause: Cause): Step {
      if StepTerminal(status) then this else this.(status := StepFailed, error := Some(cause), finished := true)
    }

    function Skip(): Step {
      if StepTerminal(status) then this else this.(status := StepSkipped, finished := true)
    }
  }

  function NewStep(number: int, name: string, nodeId: string, input: Object): Step {
    Step(number, name, nodeId, StepRunning, input, map[], None, false, 1)
  }

  class ExecutionStep {
    const number: int
    const name: string
    const nodeId: string
    const input: Object
    var status: StepStatus
    var output: Object
    var error: Option<Cause>
    var finished: bool
    var attempts: nat

    function Value(): Step
      reads this
    {
      Step(number, name, nodeId, status, input, output, error, finished, attempts)
    }

    constructor (number: int, name: string, nodeId: string, input: Object)
      ensures Value() == NewStep(number, name, nodeId, input)
      ensures Value() == Step(number, name, nodeId, StepRunning, input, map[], None, false, 1)
    {
      this.number, this.name, this.nodeId, this.input := number, name, nodeId, input;
      status, output, error, finished, attempts := StepRunning, map[], None, false, 1;
    }

    method MarkCompleted(data: Object) returns (ok: bool)
      modifies this
      ensures ok <==> old(status) == StepRunning
      ensures Value() == old(Value()).Complete(data)
      ensures Value() == if ok then old(Value()).(status := StepCompleted, output := data, finished := true)
                         else old(Value())
    {
      if StepTerminal(status) { return false; }
      status, output, finished := StepCompleted, data, true;
      return true;
    }

    method MarkFailed(cause: Cause) returns (ok: bool)
      modifies this
      ensures ok <==> old(status) == StepRunning
      ensures Value() == old(Value()).Fail(cause)
      ensures Value() == if ok then old(Value()).(status := StepFailed, error := Some(cause), finished := true)
                         else old(Value())
    {
      if StepTerminal(status) { return false; }
      status, error, finished := StepFailed, Some(cause), true;
      return true;
    }

    method MarkSkipped() returns (ok: bool)
      modifies this
      ensures ok <==> old(status) == StepRunning
      ensures Value() == old(Value()).Skip()
      ensures Value() == if ok then old(Value()).(status := StepSkipped, finished := true) else old(Value())
    {
      if StepTerminal(status) { return false; }
      status, finished := StepSkipped, true;
      return true;
    }

    method SetAttemptNumber(n: nat)
      modifies this`attempts
      ensures Value() == old(Value()).(attempts := n)
    {
      attempts := n;
    }
  }

  predicate Terminal(s: Status) {
    s.Completed? || s.Failed?
  }

  /** The value of an execution, as it is stored; `finished` says that completedAt is set. */
  datatype Execution = Execution(
    id: int,
    workflowId: int,
    status: Status,
    input: Object,
    output: Object,
    error: Option<Message>,
    currentStep: int,
    totalSteps: nat,
    steps: seq<Step>,
    key: Option<string>,
    finished: bool)
  {
    function Complete(data: Object): Execution {
      if status.Running? then this.(status := Completed, output := data, finished := true) else this
    }

    function Fail(message: Message): Execution {
      if Terminal(status) then this else this.(status := Failed, error := Some(message), finished := true)
    }

    function AddStep(step: Step): Execution {
      this.(steps := steps + [step], currentStep := step.number)
    }
  }

  function NewExecution(id: int, workflowId: int, input: Object, key: Option<string>, totalSteps: nat): Execution {
    Execution(id, workflowId, Pending, input, map[], None, 0, totalSteps, [], key, false)
  }

  class WorkflowExecution {
    const id: int
    const workflowId: int
    const input: Object
    const totalSteps: nat
    const key: Option<string>
    var status: Status
    var output: Object
    var error: Option<Message>
    var currentStep: int
    var steps: seq<Step>
    var finished: bool

    function Value(): Execution
      reads this
    {
      Execution(id, workflowId, status, input, output, error, currentStep, totalSteps, steps, key, finished)
    }

    constructor (id: int, workflowId: int, input: Object, key: Option<string>, totalSteps: nat)
      ensures Value() == NewExecution(id, workflowId, input, key, totalSteps)
      ensures Value() == Execution(id, workflowId, Pending, input, map[], None, 0, totalSteps, [], key, false)
    {
      this.id, this.workflowId, this.input, this.key, this.totalSteps := id, workflowId, input, key, totalSteps;
      status, output, error, currentStep, steps, finished := Pending, map[], None, 0, [], false;
    }

    method MarkRunning() returns (ok: bool)
      modifies this
      ensures ok == old(status).Pending?
      ensures Value() == if ok then old(Value()).(status := Running) else old(Value())
    {
      if !status.Pending? { return false; }
      status := Running;
      return true;
    }

    method MarkCompleted(data: Object) returns (ok: bool)
      modifies this
      ensures ok == old(status).Running?
      ensures Value() == old(Value()).Complete(data)
      ensures Value() == if ok then old(Value()).(status := Completed, output := data, finished := true)
                         else old(Value())
    {
      if !status.Running? { return false; }
      status, output, finished := Completed, data, true;
      return true;
    }

    method MarkFailed(message: Message) returns (ok: bool)
      modifies this
      ensures ok <==> old(status) == Pending || old(status) == Running
      ensures Value() == old(Value()).Fail(message)
      ensures Value() == if ok then old(Value()).(status := Failed, error := Some(message), finished := true)
                         else old(Value())
    {
      if Terminal(status) { return false; }
      status, error, finished := Failed, Some(message), true;
      return true;
    }

    method AddStep(step: Step)
      modifies this
      ensures Value() == old(Value()).AddStep(step)
    {
      steps := steps + [step];
      currentStep := step.number;
    }

    /** A copy that later changes to this object do not reach. */
    method Snapshot() returns (copy: WorkflowExecution)
      ensures fresh(copy) && copy.Value() == Value()
    {
      copy := new WorkflowExecution(id, workflowId, input, key, totalSteps);
      copy.status, copy.output, copy.error := status, output, error;
      copy.currentStep, copy.steps, copy.finished := currentStep, steps, finished;
    }

    method LastCompletedStepNumber() returns (last: int)
      ensures last >= 0
      ensures forall s :: s in steps && s.status.StepCompleted? ==> s.number <= last
      ensures last == 0 || exists s :: s in steps && s.status.StepCompleted? && s.number == last
    {
      last := 0;
      for i := 0 to |steps|
        invariant last >= 0
        invariant forall k :: 0 <= k < i && steps[k].status.StepCompleted? ==> steps[k].number <= last
        invariant last == 0 || exists k :: 0 <= k < i && steps[k].status.StepCompleted? && steps[k].number == last
      {
        if steps[i].status.StepCompleted? && steps[i].number > last {
          last := steps[i].number;
        }
      }
    }
  }

  // ---------- the stored record ----------

  /** One attempted write: the status it expected, what it would store, the record that it found, and how
      it came out. */
  datatype Attempt = Attempt(
    expected: Option<Status>,
    written: Execution,
    found: Option<Execution>,
    outcome: WriteOutcome)

  /** The stored record of one execution, the writes this worker attempted, and the statuses the
      record has gone through. */
  datatype Store = Store(record: Option<Execution>, attempts: seq<Attempt>, history: seq<Status>)
  {
    function Disturbed(w: Weather<Execution>): Store {
      if w.intruder.Some? then this.(record := w.intruder, history := history + [w.intruder.value.status])
      else this
    }

    function Outcome(expected: Option<Status>, w: Weather<Execution>): WriteOutcome {
      if w.fails then Broken
      else if record.None? then (if expected.Some? then Conflict else NotFound)
      else if expected.Some? && record.value.status != expected.value then Conflict
      else Applied
    }

    /** Update: with an expected status the write happens only if the record still has it. */
    function Update(e: Execution, expected: Option<Status>, w: Weather<Execution>): Store {
      var now := Disturbed(w);
      var outcome := now.Outcome(expected, w);
      var logged := now.(attempts := attempts + [Attempt(expected, e, now.record, outcome)]);
      if outcome.Applied? then logged.(record := Some(e), history := now.history + [e.status]) else logged
    }

    function UpdateOutcome(expected: Option<Status>, w: Weather<Execution>): WriteOutcome {
      Disturbed(w).Outcome(expected, w)
    }
  }

  /** The record that a write finds: the intruder's, or the one that was there. */
  function Found(record: Option<Execution>, w: Weather<Execution>): Option<Execution> {
    match w.intruder
    case Some(e) => Some(e)
    case None => record
  }

  /** When a write goes through, and how it is refused: the check-and-set contract. */
  ghost predicate WriteMeans(found: Option<Execution>, expected: Option<Status>, fails: bool, outcome: WriteOutcome) {
    match outcome
    case Applied =>
      !fails && exists e :: found == Some(e) && (expected == None || expected == Some(e.status))
    case Conflict =>
      !fails && exists x :: expected == Some(x) && forall e :: found == Some(e) ==> e.status != x
    case NotFound => !fails && found == None && expected == None
    case Broken => fails
  }

  /** Check-and-set: with an expected status a write that does not fail is applied exactly when the record
      it finds has that status, and then stores what is written; otherwise the record stays as it was
      found, and nothing but the finding goes into its history. */
  lemma CheckAndSet(s: Store, e: Execution, expected: Option<Status>, w: Weather<Execution>)
    ensures var t, found, outcome := s.Update(e, expected, w), Found(s.record, w), s.UpdateOutcome(expected, w);
      && WriteMeans(found, expected, w.fails, outcome)
      && t.record == (if outcome.Applied? then Some(e) else found)
      && t.attempts == s.attempts + [Attempt(expected, e, found, outcome)]
      && t.history == s.history + (if w.intruder.Some? then [w.intruder.value.status] else [])
                                + (if outcome.Applied? then [e.status] else [])
  {
  }

  /** WriteMeans leaves no choice of the outcome. */
  lemma WriteMeansOne(found: Option<Execution>, expected: Option<Status>, fails: bool, a: WriteOutcome, b: WriteOutcome)
    requires WriteMeans(found, expected, fails, a) && WriteMeans(found, expected, fails, b)
    ensures a == b
  {
  }

  class ExecutionRepository {
    var record: Option<Execution>
    ghost var attempts: seq<Attempt>
    ghost var history: seq<Status>

    ghost function Contents(): Store
      reads this
    {
      Store(record, attempts, history)
    }

    constructor (first: Execution)
      ensures Contents() == Store(Some(first), [], [first.status])
    {
      record, attempts, history := Some(first), [], [first.status];
    }

    method Update(e: Execution, expected: Option<Status>, w: Weather<Execution>) returns (outcome: WriteOutcome)
      modifies this
      ensures Contents() == old(Contents()).Update(e, expected, w)
      ensures outcome == old(Contents()).UpdateOutcome(expected, w)
      ensures var found := Found(old(record), w);
        && WriteMeans(found, expected, w.fails, outcome)
        && record == if outcome.Applied? then Some(e) else found
    {
      if w.intruder.Some? {
        record := w.intruder;
        history := history + [w.intruder.value.status];
      }
      ghost var found := record;
      if w.fails {
        outcome := Broken;
      } else if record.None? {
        outcome := if expected.Some? then Conflict else NotFound;
      } else if expected.Some? && record.value.status != expected.value {
        outcome := Conflict;
      } else {
        outcome := Applied;
        record := Some(e);
        history := history + [e.status];
      }
      attempts := attempts + [Attempt(expected, e, found, outcome)];
    }
  }
}
