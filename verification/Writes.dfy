/** What the writes of a run do to the stored record, with any number of workers. */
module Writes {
  import opened Values
  import opened Workflows
  import opened Engine
  import E = Executions
  import N = NodeMeanings
  import P = RunProperties

  /** A write with an expected status was applied exactly when it did not fail and found that status, and
      the statuses that a run expects are pending and running. */
  ghost predicate Honest(a: E.Attempt) {
    && E.WriteMeans(a.found, a.expected, a.outcome == Broken, a.outcome)
    && (a.expected == None || a.expected == Some(E.Pending) || a.expected == Some(E.Running))
  }

  ghost predicate AllHonest(attempts: seq<E.Attempt>) {
    forall i :: 0 <= i < |attempts| ==> Honest(attempts[i])
  }

  lemma OneMoreWrite(s: E.Store, e: E.Execution, expected: Option<E.Status>, w: Weather<E.Execution>)
    requires AllHonest(s.attempts)
    requires expected == None || expected == Some(E.Pending) || expected == Some(E.Running)
    ensures AllHonest(s.Update(e, expected, w).attempts)
  {
    E.CheckAndSet(s, e, expected, w);
  }

  lemma NodeWritesHonestly(w: World, id: string, s: St)
    requires id in w.nodes && AllHonest(s.store.attempts)
    ensures AllHonest(ProcessNode(w, id, s).after.store.attempts)
  {
    P.ProcessedAs(w, id, s);
    P.WayStarts(w, id, s);
    match P.WayOf(w, id, s)
    case Fails(from, step, cause) =>
      OneMoreWrite(from.store, from.exec.AddStep(step.Fail(cause)), None, w.env.weather(from.now));
    case Completes(from, step, output) =>
      OneMoreWrite(from.store, from.exec.AddStep(step.Complete(output)), Some(E.Running), w.env.weather(from.now));
    case _ =>
  }

  lemma WalkWritesHonestly(w: World, path: set<string>, id: string, s: St)
    requires AllHonest(s.store.attempts)
    ensures AllHonest(Visit(w, path, id, s).1.store.attempts)
  {
    var I := (s: St) => AllHonest(s.store.attempts);
    var J := (e: E.RunError, s: St) => AllHonest(s.store.attempts);
    forall i, s | i in w.nodes && I(s) ensures P.StepKeeps(ProcessNode(w, i, s), I, J) {
      NodeWritesHonestly(w, i, s);
    }
    P.VisitKeeps(w, I, J, path, id, s);
  }

  lemma PersistingIsHonest(w: World, s: St)
    requires AllHonest(s.store.attempts)
    ensures AllHonest(PersistBestEffort(w, s).store.attempts)
  {
    OneMoreWrite(s.store, s.exec, None, w.env.weather(s.now));
  }

  lemma RunWritesHonestly(w: World, trigger: string, s: St)
    requires AllHonest(s.store.attempts)
    ensures AllHonest(Run(w, trigger, s).store.attempts)
  {
    if trigger == "" {
      PersistingIsHonest(w, s.(exec := s.exec.Fail(E.NoTriggerNode)));
      return;
    }
    WalkWritesHonestly(w, {}, trigger, P.Begin(s));
    var (err, t) := Visit(w, {}, trigger, P.Begin(s));
    if err.Some? {
      PersistingIsHonest(w, t.(exec := t.exec.Fail(E.FromError(err.value))));
    } else {
      PersistingIsHonest(w, t.(exec := t.exec.Complete(FinalOutput(t.ctx))));
    }
  }

  lemma StartWritesHonestly(w: World, s: St)
    requires AllHonest(s.store.attempts)
    ensures AllHonest(Start(w, s).1.store.attempts)
  {
    var running := s.exec.(status := E.Running);
    var store := s.store.Update(running, Some(E.Pending), w.env.weather(s.now));
    OneMoreWrite(s.store, running, Some(E.Pending), w.env.weather(s.now));
    PersistingIsHonest(w, s.(exec := running.Fail(E.StartFailed), store := store).Later());
  }

  /** From the created record to the end, with any number of workers: every write that expected a status and
      was applied found just that status, pending or running, so none replaced a completed or failed record;
      every one that met a conflict had found another status, or no record. */
  lemma NoLostVerdict(w: World, trigger: string, s: St, i: nat)
    requires P.Created(s)
    requires i < |P.FullRun(w, trigger, s).store.attempts|
    requires P.FullRun(w, trigger, s).store.attempts[i].expected.Some?
    ensures var a := P.FullRun(w, trigger, s).store.attempts[i];
      && (a.outcome == Applied ==>
            exists e :: a.found == Some(e) && a.expected == Some(e.status)
                        && e.status != E.Completed && e.status != E.Failed)
      && (a.outcome == Conflict ==> forall e :: a.found == Some(e) ==> a.expected != Some(e.status))
      && a.outcome != NotFound
  {
    StartWritesHonestly(w, s);
    var (err, s1) := Start(w, s);
    if err.None? { RunWritesHonestly(w, trigger, s1); }
    assert Honest(P.FullRun(w, trigger, s).store.attempts[i]);
  }

  /** Another worker that takes a record out of running stops the walk at its next completed step: the step
      meets a state conflict, and the record stays as the other worker left it. */
  lemma TakenOverStops(w: World, id: string, s: St, other: E.Execution)
    requires id in w.nodes && P.WayOf(w, id, s).Completes?
    requires var wt := w.env.weather(P.WayOf(w, id, s).from.now);
      wt == Weather(Some(other), false) && other.status != E.Running
    ensures var p := ProcessNode(w, id, s);
      p.error == Some(E.StateConflict) && p.after.store.record == Some(other)
  {
    P.ProcessedAs(w, id, s);
    var way := P.WayOf(w, id, s);
    N.CompletedStepStored(w, way.from, way.step, way.output);
  }
}
