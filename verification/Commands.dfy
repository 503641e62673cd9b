/** The workflow commands as they run against the repository and the webhook registry. */
module Commands {
  import opened Values
  import opened Workflows
  import opened Webhooks

  datatype CommandError =
    | WorkflowNotFound
    | StructureInvalid(problem: Problem)
    | ChecksFailed
    | InvalidStatus
    | CannotModify
    | PathTaken
    | StateConflict
    | PersistFailed

  type Documents = map<int, Definition>

  function Disturbed(docs: Documents, id: int, w: Weather<Definition>): Documents {
    if w.intruder.Some? then docs[id := w.intruder.value] else docs
  }

  /** The condition of a write: the document is there and, with an expected status, still has it. */
  predicate Passes(docs: Documents, id: int, expected: Option<Status>, w: Weather<Definition>) {
    var now := Disturbed(docs, id, w);
    !w.fails && id in now && (expected.Some? ==> now[id].status == expected.value)
  }

  /** Where a write did not pass: a failing database, a state conflict, or, where no status was expected,
      a missing document. */
  predicate Refuses(docs: Documents, id: int, expected: Option<Status>, w: Weather<Definition>,
                    outcome: WriteOutcome) {
    match outcome
    case Applied => false
    case Broken => w.fails
    case Conflict => !w.fails && expected.Some? && !Passes(docs, id, expected, w)
    case NotFound => !w.fails && expected.None? && id !in Disturbed(docs, id, w)
  }

  class WorkflowRepository {
    var documents: Documents

    method FindByID(id: int) returns (workflow: Workflow?)
      ensures workflow != null <==> id in documents
      ensures workflow != null ==> fresh(workflow) && workflow.Value() == documents[id]
    {
      if id !in documents { return null; }
      workflow := new Workflow.FromValue(documents[id]);
    }

    /** Whether a write may go ahead now; the database is up. */
    method Check(id: int, expected: Option<Status>) returns (outcome: WriteOutcome)
      ensures outcome.Applied? <==> id in documents && (expected.Some? ==> documents[id].status == expected.value)
      ensures outcome.Applied? || outcome == if expected.Some? then Conflict else NotFound
    {
      if id !in documents { return if expected.Some? then Conflict else NotFound; }
      if expected.Some? && documents[id].status != expected.value { return Conflict; }
      return Applied;
    }

    method Update(doc: Definition, expected: Option<Status>, w: Weather<Definition>)
      returns (outcome: WriteOutcome)
      modifies this
      ensures outcome.Applied? <==> Passes(old(documents), doc.id, expected, w)
      ensures !outcome.Applied? ==> Refuses(old(documents), doc.id, expected, w, outcome)
      ensures documents == (if outcome.Applied? then Disturbed(old(documents), doc.id, w)[doc.id := doc]
                            else Disturbed(old(documents), doc.id, w))
    {
      documents := Disturbed(documents, doc.id, w);
      if w.fails { return Broken; }
      outcome := Check(doc.id, expected);
      if outcome.Applied? { documents := documents[doc.id := doc]; }
    }

    method Delete(id: int, expected: Option<Status>, w: Weather<Definition>) returns (outcome: WriteOutcome)
      modifies this
      ensures outcome.Applied? <==> Passes(old(documents), id, expected, w)
      ensures !outcome.Applied? ==> Refuses(old(documents), id, expected, w, outcome)
      ensures documents == (if outcome.Applied? then Disturbed(old(documents), id, w) - {id}
                            else Disturbed(old(documents), id, w))
    {
      documents := Disturbed(documents, id, w);
      if w.fails { return Broken; }
      outcome := Check(id, expected);
      if outcome.Applied? { documents := documents - {id}; }
    }
  }

  function ErrorOf(outcome: WriteOutcome): Option<CommandError> {
    match outcome
    case Applied => None
    case Conflict => Some(StateConflict)
    case NotFound => Some(WorkflowNotFound)
    case Broken => Some(PersistFailed)
  }

  /** The error of a check-and-set write that did not pass. */
  function Refusal(w: Weather<Definition>): Option<CommandError> {
    Some(if w.fails then PersistFailed else StateConflict)
  }

  /** An activation that gets as far as registering routes. */
  ghost predicate Activatable(docs: Documents, id: int, checks: bool) {
    id in docs && docs[id].Structured() && checks && docs[id].status.Draft?
  }

  /** Validate, register, persist, roll back. `checks` stands for the catalog, transformation and
      provider checks. It succeeds exactly when the workflow is a structured draft, its routes fit
      and the check-and-set write passes; then the stored document is the loaded one made active and
      the registry gains its routes. Otherwise no document is written; where the activation got as far
      as registering, no route of this workflow stays registered and all other routes stay, and where it
      did not, the registry is not touched. */
  method ActivateWorkflow(repo: WorkflowRepository, registry: Registry, id: int, checks: bool, w: Weather<Definition>)
    returns (err: Option<CommandError>)
    requires forall i :: i in repo.documents ==> repo.documents[i].id == i
    modifies repo, registry
    ensures var docs, routes := old(repo.documents), old(registry.routes);
      if !Activatable(docs, id, checks) then
        err.Some? && repo.documents == docs && registry.routes == routes
      else if !Fits(routes, RoutesOf(id, docs[id].nodes)) then
        err == Some(PathTaken) && repo.documents == docs && registry.routes == Without(routes, id)
      else if !Passes(docs, id, Some(Draft), w) then
        err == Refusal(w) && repo.documents == Disturbed(docs, id, w) && registry.routes == Without(routes, id)
      else
        && err.None?
        && repo.documents == Disturbed(docs, id, w)[id := docs[id].(status := Active)]
        && registry.routes == AllAdded(routes, RoutesOf(id, docs[id].nodes))
    ensures var docs := old(repo.documents);
      && (id !in docs ==> err == Some(WorkflowNotFound))
      && (id in docs && !docs[id].Structured() ==> err.Some? && err.value.StructureInvalid?)
      && (id in docs && docs[id].Structured() && !checks ==> err == Some(ChecksFailed))
      && (id in docs && docs[id].Structured() && checks && docs[id].status != Draft ==> err == Some(InvalidStatus))
  {
    var workflow := repo.FindByID(id);
    if workflow == null { return Some(WorkflowNotFound); }
    var problem := ValidateWorkflowStructure(workflow.name, workflow.nodes, workflow.edges);
    if problem.Some? { return Some(StructureInvalid(problem.value)); }
    if !checks { return Some(ChecksFailed); }
    var previous := workflow.status;
    problem := workflow.Activate();
    if problem.Some? { return Some(InvalidStatus); }
    var registered := registry.RegisterWebhookRoutes(id, workflow.nodes);
    if !registered { return Some(PathTaken); }
    var outcome := repo.Update(workflow.Value(), Some(previous), w);
    if !outcome.Applied? {
      registry.Unregister(id);
      PartialRollBack(old(registry.routes), RoutesOf(id, old(repo.documents)[id].nodes), id);
    }
    return ErrorOf(outcome);
  }

  /** Persist first, then unregister: a failed write leaves the registry alone. */
  method DeactivateWorkflow(repo: WorkflowRepository, registry: Registry, id: int, w: Weather<Definition>)
    returns (err: Option<CommandError>)
    requires forall i :: i in repo.documents ==> repo.documents[i].id == i
    modifies repo, registry
    ensures var docs, routes := old(repo.documents), old(registry.routes);
      if id !in docs || !docs[id].status.Active? then
        err.Some? && repo.documents == docs && registry.routes == routes
      else if !Passes(docs, id, Some(Active), w) then
        err == Refusal(w) && repo.documents == Disturbed(docs, id, w) && registry.routes == routes
      else
        && err.None? && registry.routes == Without(routes, id)
        && repo.documents == Disturbed(docs, id, w)[id := docs[id].(status := Inactive)]
    ensures id !in old(repo.documents) ==> err == Some(WorkflowNotFound)
    ensures id in old(repo.documents) && old(repo.documents)[id].status != Active ==> err == Some(InvalidStatus)
  {
    var workflow := repo.FindByID(id);
    if workflow == null { return Some(WorkflowNotFound); }
    var previous := workflow.status;
    var problem := workflow.Deactivate();
    if problem.Some? { return Some(InvalidStatus); }
    var outcome := repo.Update(workflow.Value(), Some(previous), w);
    if outcome.Applied? { registry.Unregister(id); }
    return ErrorOf(outcome);
  }

  /** Active workflows are never deleted; a deleted one leaves no routes. */
  method DeleteWorkflow(repo: WorkflowRepository, registry: Registry, id: int, w: Weather<Definition>)
    returns (err: Option<CommandError>)
    requires forall i :: i in repo.documents ==> repo.documents[i].id == i
    modifies repo, registry
    ensures var docs, routes := old(repo.documents), old(registry.routes);
      if id !in docs || docs[id].status.Active? then
        err.Some? && repo.documents == docs && registry.routes == routes
      else if !Passes(docs, id, Some(docs[id].status), w) then
        err == Refusal(w) && repo.documents == Disturbed(docs, id, w) && registry.routes == routes
      else
        err.None? && repo.documents == Disturbed(docs, id, w) - {id} && registry.routes == Without(routes, id)
    ensures id !in old(repo.documents) ==> err == Some(WorkflowNotFound)
    ensures id in old(repo.documents) && old(repo.documents)[id].status == Active ==> err == Some(CannotModify)
  {
    var workflow := repo.FindByID(id);
    if workflow == null { return Some(WorkflowNotFound); }
    if workflow.status.Active? { return Some(CannotModify); }
    var outcome := repo.Delete(id, Some(workflow.status), w);
    if outcome.Applied? { registry.Unregister(id); }
    return ErrorOf(outcome);
  }

  method MoveToDraftWorkflow(repo: WorkflowRepository, id: int, w: Weather<Definition>)
    returns (err: Option<CommandError>)
    requires forall i :: i in repo.documents ==> repo.documents[i].id == i
    modifies repo
    ensures var docs := old(repo.documents);
      if id !in docs || !docs[id].status.Inactive? then err.Some? && repo.documents == docs
      else if !Passes(docs, id, Some(Inactive), w) then err == Refusal(w) && repo.documents == Disturbed(docs, id, w)
      else err.None? && repo.documents == Disturbed(docs, id, w)[id := docs[id].(status := Draft)]
    ensures id !in old(repo.documents) ==> err == Some(WorkflowNotFound)
    ensures id in old(repo.documents) && old(repo.documents)[id].status != Inactive ==> err == Some(InvalidStatus)
  {
    var workflow := repo.FindByID(id);
    if workflow == null { return Some(WorkflowNotFound); }
    var previous := workflow.status;
    var problem := workflow.MoveToDraft();
    if problem.Some? { return Some(InvalidStatus); }
    var outcome := repo.Update(workflow.Value(), Some(previous), w);
    return ErrorOf(outcome);
  }

  /** `done` holds the entries that are not among `keys` any more. */
  ghost predicate DoneBut(entries: Object, keys: set<string>, done: Object) {
    && keys <= entries.Keys && done.Keys == entries.Keys - keys
    && forall k :: k in done ==> done[k] == entries[k]
  }

  lemma OneMoreDone(entries: Object, keys: set<string>, done: Object, key: string, base: Object)
    requires DoneBut(entries, keys, done) && key in keys
    ensures DoneBut(entries, keys - {key}, done[key := entries[key]])
    ensures (base + done)[key := entries[key]] == base + done[key := entries[key]]
  {
  }

  lemma AllDone(entries: Object, done: Object)
    requires DoneBut(entries, {}, done)
    ensures done == entries
  {
  }

  /** Sets the metadata entries one by one. */
  method ApplyMetadata(workflow: Workflow, entries: Object)
    modifies workflow
    ensures workflow.Value() == old(workflow.Value()).(metadata := old(workflow.metadata) + entries)
  {
    ghost var before, base, done: Object := workflow.Value(), workflow.metadata, map[];
    assert base + done == base;
    var keys := entries.Keys;
    while keys != {}
      invariant DoneBut(entries, keys, done)
      invariant workflow.Value() == before.(metadata := base + done)
      decreases |keys|
    {
      var key :| key in keys;
      OneMoreDone(entries, keys, done, key, base);
      workflow.SetMetadata(key, entries[key]);
      done := done[key := entries[key]];
      keys := keys - {key};
    }
    AllDone(entries, done);
  }

  /** Only drafts are updated, and only to data that a draft may have. `checks` as above. */
  method UpdateWorkflow(repo: WorkflowRepository, id: int, name: string, description: Option<string>,
                        nodes: seq<Node>, edges: seq<Edge>, metadata: Object, checks: bool, w: Weather<Definition>)
    returns (err: Option<CommandError>)
    requires forall i :: i in repo.documents ==> repo.documents[i].id == i
    modifies repo
    ensures var docs := old(repo.documents);
      if id !in docs || !docs[id].status.Draft? || (nodes != [] && !checks)
         || !WellSized(name, nodes, edges) || !EdgesResolve(nodes, edges)
      then err.Some? && repo.documents == docs
      else if !Passes(docs, id, Some(Draft), w) then err == Refusal(w) && repo.documents == Disturbed(docs, id, w)
      else
        && err.None?
        && repo.documents == Disturbed(docs, id, w)[id :=
             docs[id].(name := name, description := description, nodes := nodes, edges := edges,
                       metadata := docs[id].metadata + metadata)]
    ensures var docs := old(repo.documents);
      && (id !in docs ==> err == Some(WorkflowNotFound))
      && (id in docs && docs[id].status != Draft ==> err == Some(CannotModify))
      && (id in docs && docs[id].status == Draft && nodes != [] && !checks ==> err == Some(ChecksFailed))
      && (id in docs && docs[id].status == Draft && (nodes == [] || checks)
          && !(WellSized(name, nodes, edges) && EdgesResolve(nodes, edges)) ==>
            err.Some? && err.value.StructureInvalid?)
  {
    var workflow := repo.FindByID(id);
    if workflow == null { return Some(WorkflowNotFound); }
    if !workflow.status.Draft? { return Some(CannotModify); }
    if |nodes| > 0 && !checks { return Some(ChecksFailed); }
    var previous := workflow.status;
    var problem := workflow.Update(name, description, nodes, edges);
    if problem.Some? { return Some(StructureInvalid(problem.value)); }
    ApplyMetadata(workflow, metadata);
    var outcome := repo.Update(workflow.Value(), Some(previous), w);
    return ErrorOf(outcome);
  }
}
