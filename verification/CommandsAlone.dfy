/** The atomic steps of each command, run without interruption: what the command as a whole does to the store
    and the registry. */
module CommandsAlone {
  import opened Values
  import opened Workflows
  import opened Webhooks
  import opened Lifecycle

  /** A command that is not admitted, or whose workflow is not in the status it wants, does nothing. */
  lemma RefusedStarts(admits: Policy, s: State, cmd: int, id: int, ok: bool, doc: Definition)
    ensures !(MayStart(admits, s, cmd, Registers, id) && ok && s.store[id].status == Draft && s.store[id].Structured())
            ==> Next(admits, s, Activate(cmd, id, ok)) == s
    ensures !(MayStart(admits, s, cmd, Deactivates, id) && s.store[id].status == Active)
            ==> Next(admits, s, Deactivate(cmd, id)) == s
    ensures !(MayStart(admits, s, cmd, Deletes, id) && s.store[id].status != Active)
            ==> Next(admits, s, Delete(cmd, id)) == s
    ensures !(MayStart(admits, s, cmd, Updates, id) && s.store[id].status == Draft
              && doc.id == id && doc.status == Draft)
            ==> Next(admits, s, Update(cmd, id, doc)) == s
    ensures !(MayStart(admits, s, cmd, Drafts, id) && s.store[id].status == Inactive)
            ==> Next(admits, s, MoveToDraft(cmd, id)) == s
  {
  }

  lemma CreateAlone(admits: Policy, s: State, doc: Definition)
    ensures Next(admits, s, Create(doc)) ==
            if doc.id !in s.store && doc.status == Draft && !Busy(s, doc.id)
            then s.(store := s.store[doc.id := doc]) else s
  {
  }

  /** An activation of a structured draft whose checks pass registers all its routes and then makes the
      workflow active; when the routes do not fit, or the write fails, it ends with none of them. */
  lemma ActivateAlone(admits: Policy, s: State, cmd: int, id: int, ok: bool) returns (n: nat)
    requires MayStart(admits, s, cmd, Registers, id)
    requires s.store[id].status == Draft && s.store[id].Structured() && s.store[id].id == id
    ensures var rs := RoutesOf(id, s.store[id].nodes);
      AdvanceBy(Next(admits, s, Activate(cmd, id, true)), cmd, n, ok) ==
      if Fits(s.routes, rs) && ok
      then State(s.store[id := s.store[id].(status := Active)], AllAdded(s.routes, rs), s.flying)
      else State(s.store, Without(s.routes, id), s.flying)
  {
    var t := Next(admits, s, Activate(cmd, id, true));
    n := ActivationAlone(t, cmd, ok);
    assert t.flying - {cmd} == s.flying;
  }

  /** A deactivation makes the workflow inactive and then takes its routes down, or does nothing when its
      write fails. */
  lemma DeactivateAlone(admits: Policy, s: State, cmd: int, id: int, ok: bool)
    requires MayStart(admits, s, cmd, Deactivates, id) && s.store[id].status == Active && s.store[id].id == id
    ensures AdvanceBy(Next(admits, s, Deactivate(cmd, id)), cmd, 2, ok) ==
            if ok then State(s.store[id := s.store[id].(status := Inactive)], Without(s.routes, id), s.flying) else s
  {
    var t := Next(admits, s, Deactivate(cmd, id));
    OneThenRest(t, cmd, 1, ok);
    assert t.flying - {cmd} == s.flying;
    if ok {
      OneThenRest(Advance(t, cmd, ok), cmd, 0, ok);
      assert Advance(Advance(t, cmd, ok), cmd, ok).flying == s.flying;
    }
  }

  /** A deletion removes a workflow that is not active and then its routes, or does nothing. */
  lemma DeleteAlone(admits: Policy, s: State, cmd: int, id: int, ok: bool)
    requires MayStart(admits, s, cmd, Deletes, id) && s.store[id].status != Active
    ensures AdvanceBy(Next(admits, s, Delete(cmd, id)), cmd, 2, ok) ==
            if ok then State(s.store - {id}, Without(s.routes, id), s.flying) else s
  {
    var t := Next(admits, s, Delete(cmd, id));
    OneThenRest(t, cmd, 1, ok);
    assert t.flying - {cmd} == s.flying;
    if ok {
      OneThenRest(Advance(t, cmd, ok), cmd, 0, ok);
      assert Advance(Advance(t, cmd, ok), cmd, ok).flying == s.flying;
    }
  }

  /** An update replaces a draft by a draft, and leaves the routes alone. */
  lemma UpdateAlone(admits: Policy, s: State, cmd: int, id: int, doc: Definition, ok: bool)
    requires MayStart(admits, s, cmd, Updates, id) && s.store[id].status == Draft
    requires doc.id == id && doc.status == Draft
    ensures AdvanceBy(Next(admits, s, Update(cmd, id, doc)), cmd, 1, ok) ==
            if ok then State(s.store[id := doc], s.routes, s.flying) else s
  {
    var t := Next(admits, s, Update(cmd, id, doc));
    OneThenRest(t, cmd, 0, ok);
    assert t.flying - {cmd} == s.flying;
  }

  /** Moving to draft turns an inactive workflow into a draft, and leaves the routes alone. */
  lemma MoveToDraftAlone(admits: Policy, s: State, cmd: int, id: int, ok: bool)
    requires MayStart(admits, s, cmd, Drafts, id) && s.store[id].status == Inactive && s.store[id].id == id
    ensures AdvanceBy(Next(admits, s, MoveToDraft(cmd, id)), cmd, 1, ok) ==
            if ok then State(s.store[id := s.store[id].(status := Draft)], s.routes, s.flying) else s
  {
    var t := Next(admits, s, MoveToDraft(cmd, id));
    OneThenRest(t, cmd, 0, ok);
    assert t.flying - {cmd} == s.flying;
  }

  /** A write whose workflow left the expected status meanwhile changes nothing but the command: an activation
      then takes its routes down, every other command ends. */
  lemma StaleWrite(s: State, cmd: int, ok: bool)
    requires cmd in s.flying
    ensures match s.flying[cmd]
      case Registering(doc, _, pending) =>
        pending == [] && !(doc.id in s.store && s.store[doc.id].status == Draft) ==>
          Advance(s, cmd, ok) == s.(flying := s.flying[cmd := Unregistering(doc.id)])
      case Deactivating(doc) =>
        !(doc.id in s.store && s.store[doc.id].status == Active) ==>
          Advance(s, cmd, ok) == s.(flying := s.flying - {cmd})
      case Deleting(id, expected) =>
        !(id in s.store && s.store[id].status == expected) ==> Advance(s, cmd, ok) == s.(flying := s.flying - {cmd})
      case Updating(doc) =>
        !(doc.id in s.store && s.store[doc.id].status == Draft) ==>
          Advance(s, cmd, ok) == s.(flying := s.flying - {cmd})
      case MovingToDraft(doc) =>
        !(doc.id in s.store && s.store[doc.id].status == Inactive) ==>
          Advance(s, cmd, ok) == s.(flying := s.flying - {cmd})
      case Unregistering(_) => true
  {
  }
}
