/** Workflow commands over one store and one webhook registry, interleaved at their atomic steps. */
module Lifecycle {
  import opened Values
  import opened Workflows
  import opened Webhooks

  /** A command past its load, with what it still has to do. */
  datatype Command =
    | Registering(doc: Definition, done: seq<Route>, pending: seq<Route>)
    | Deactivating(doc: Definition)
    | Deleting(target: int, expected: Status)
    | Updating(doc: Definition)
    | MovingToDraft(doc: Definition)
    | Unregistering(target: int)
  {
    function Id(): int {
      match this
      case Registering(d, _, _) => d.id
      case Deactivating(d) => d.id
      case Deleting(i, _) => i
      case Updating(d) => d.id
      case MovingToDraft(d) => d.id
      case Unregistering(i) => i
    }

    function Kind(): Kind {
      match this
      case Registering(_, _, _) => Registers
      case Deactivating(_) => Deactivates
      case Deleting(_, _) => Deletes
      case Updating(_) => Updates
      case MovingToDraft(_) => Drafts
      case Unregistering(_) => Unregisters
    }
  }

  datatype Kind = Registers | Deactivates | Deletes | Updates | Drafts | Unregisters

  /** Which commands may start on a workflow while another one is in flight on it: the kind that starts
      and the kind, at that moment, of the one in flight. The source admits everything; a policy that
      admits nothing serialises the commands on each workflow. */
  type Policy = (Kind, Kind) -> bool

  datatype State = State(store: map<int, Definition>, routes: Table, flying: map<int, Command>)

  /** Atomic steps. A command first loads and checks its workflow; `ok` is the answer of the other
      validations or of the database. Cloning stores a new draft, like creation. A restart loses the
      commands in flight and rebuilds the registry from the workflows it lists. */
  datatype Event =
    | Create(doc: Definition)
    | Activate(cmd: int, id: int, ok: bool)
    | Deactivate(cmd: int, id: int)
    | Delete(cmd: int, id: int)
    | Update(cmd: int, id: int, doc: Definition)
    | MoveToDraft(cmd: int, id: int)
    | Step(cmd: int, ok: bool)
    | Restart(listed: seq<Definition>)

  predicate Busy(s: State, id: int) {
    exists c :: c in s.flying && s.flying[c].Id() == id
  }

  /** A command may start: its workflow exists, and the policy admits it beside all commands in flight
      on that workflow. */
  predicate MayStart(admits: Policy, s: State, cmd: int, kind: Kind, id: int) {
    && cmd !in s.flying && id in s.store
    && forall c :: c in s.flying && s.flying[c].Id() == id ==> admits(kind, s.flying[c].Kind())
  }

  function Fly(s: State, cmd: int, c: Command): State {
    s.(flying := s.flying[cmd := c])
  }

  function Land(s: State, cmd: int): State {
    s.(flying := s.flying - {cmd})
  }

  /** The check-and-set write: it happens when the database is up and the status is the expected one. */
  predicate Writes(s: State, id: int, expected: Status, ok: bool) {
    ok && id in s.store && s.store[id].status == expected
  }

  function Stored(s: State, doc: Definition): State {
    s.(store := s.store[doc.id := doc])
  }

  /** The next atomic step of a flying command. */
  function Advance(s: State, cmd: int, ok: bool): State
    requires cmd in s.flying
  {
    match s.flying[cmd]
    case Registering(doc, done, pending) =>
      if pending == [] then
        if Writes(s, doc.id, Draft, ok) then Land(Stored(s, doc), cmd)
        else Fly(s, cmd, Unregistering(doc.id))
      else if Key(pending[0]) in s.routes then Fly(s, cmd, Unregistering(doc.id))
      else Fly(s.(routes := Added(s.routes, pending[0])), cmd, Registering(doc, done + [pending[0]], pending[1..]))
    case Deactivating(doc) =>
      if Writes(s, doc.id, Active, ok) then Fly(Stored(s, doc), cmd, Unregistering(doc.id)) else Land(s, cmd)
    case Deleting(id, expected) =>
      if Writes(s, id, expected, ok) then Fly(s.(store := s.store - {id}), cmd, Unregistering(id))
      else Land(s, cmd)
    case Updating(doc) => Land(if Writes(s, doc.id, Draft, ok) then Stored(s, doc) else s, cmd)
    case MovingToDraft(doc) => Land(if Writes(s, doc.id, Inactive, ok) then Stored(s, doc) else s, cmd)
    case Unregistering(id) => Land(s.(routes := Without(s.routes, id)), cmd)
  }

  predicate IsActive(s: State, id: int) {
    id in s.store && s.store[id].status.Active?
  }

  /** ds lists, in any order, stored workflows, and among them every active one. */
  ghost predicate ListsActive(s: State, ds: seq<Definition>) {
    && (forall i :: 0 <= i < |ds| ==> ds[i].id in s.store && ds[i] == s.store[ds[i].id])
    && forall id :: IsActive(s, id) ==> s.store[id] in ds
  }

  /** One event; one that is not enabled changes nothing. The id of a new workflow is in no other use. */
  ghost function Next(admits: Policy, s: State, e: Event): State {
    match e
    case Create(doc) =>
      if doc.id in s.store || Busy(s, doc.id) || !doc.status.Draft? then s else Stored(s, doc)
    case Activate(cmd, id, ok) =>
      if MayStart(admits, s, cmd, Registers, id) && s.store[id].status.Draft? && s.store[id].Structured() && ok
      then Fly(s, cmd, Registering(s.store[id].(status := Active), [], RoutesOf(id, s.store[id].nodes))) else s
    case Deactivate(cmd, id) =>
      if MayStart(admits, s, cmd, Deactivates, id) && s.store[id].status.Active?
      then Fly(s, cmd, Deactivating(s.store[id].(status := Inactive))) else s
    case Delete(cmd, id) =>
      if MayStart(admits, s, cmd, Deletes, id) && !s.store[id].status.Active?
      then Fly(s, cmd, Deleting(id, s.store[id].status)) else s
    case Update(cmd, id, doc) =>
      if MayStart(admits, s, cmd, Updates, id) && s.store[id].status.Draft? && doc.id == id && doc.status.Draft?
      then Fly(s, cmd, Updating(doc)) else s
    case MoveToDraft(cmd, id) =>
      if MayStart(admits, s, cmd, Drafts, id) && s.store[id].status.Inactive?
      then Fly(s, cmd, MovingToDraft(s.store[id].(status := Draft))) else s
    case Step(cmd, ok) => if cmd in s.flying then Advance(s, cmd, ok) else s
    case Restart(listed) => if ListsActive(s, listed) then Restarted(s, listed) else s
  }

  /** After a restart: nothing in flight, and the registry filled from the listed workflows. */
  function Restarted(s: State, listed: seq<Definition>): State {
    State(s.store, AllAdded(map[], ActiveRoutes(listed)), map[])
  }

  ghost function RunFrom(admits: Policy, s: State, events: seq<Event>): State
    decreases |events|
  {
    if events == [] then s else RunFrom(admits, Next(admits, s, events[0]), events[1..])
  }

  const EMPTY := State(map[], map[], map[])

  ghost function Run(admits: Policy, events: seq<Event>): State {
    RunFrom(admits, EMPTY, events)
  }

  // ---------- active workflows are structured ----------

  ghost predicate DocFits(id: int, d: Definition) {
    d.id == id && (d.status.Active? ==> d.Structured())
  }

  ghost predicate DocsFit(s: State) {
    && (forall id :: id in s.store ==> DocFits(id, s.store[id]))
    && forall c :: c in s.flying ==> CommandFits(s.flying[c])
  }

  ghost predicate CommandFits(c: Command) {
    match c
    case Registering(d, _, _) => d.status.Active? && d.Structured()
    case Deactivating(d) => d.status.Inactive?
    case Deleting(_, expected) => !expected.Active?
    case Updating(d) => d.status.Draft?
    case MovingToDraft(d) => d.status.Draft?
    case Unregistering(_) => true
  }

  lemma StoringKeepsDocs(s: State, doc: Definition)
    requires DocsFit(s) && DocFits(doc.id, doc)
    ensures DocsFit(Stored(s, doc))
  {
  }

  lemma FlyingKeepsDocs(s: State, cmd: int, c: Command)
    requires DocsFit(s) && CommandFits(c)
    ensures DocsFit(Fly(s, cmd, c))
  {
  }

  lemma LandingKeepsDocs(s: State, cmd: int)
    requires DocsFit(s)
    ensures DocsFit(Land(s, cmd))
  {
  }

  lemma AdvanceKeepsDocs(s: State, cmd: int, ok: bool)
    requires DocsFit(s) && cmd in s.flying
    ensures DocsFit(Advance(s, cmd, ok))
  {
    var c := s.flying[cmd];
    assert CommandFits(c);
    match c
    case Registering(doc, done, pending) =>
      if pending == [] && Writes(s, doc.id, Draft, ok) {
        StoringKeepsDocs(s, doc);
        LandingKeepsDocs(Stored(s, doc), cmd);
      } else if pending == [] || Key(pending[0]) in s.routes {
        FlyingKeepsDocs(s, cmd, Unregistering(doc.id));
      } else {
        FlyingKeepsDocs(s.(routes := Added(s.routes, pending[0])), cmd,
                        Registering(doc, done + [pending[0]], pending[1..]));
      }
    case Deactivating(doc) =>
      StoringKeepsDocs(s, doc);
      FlyingKeepsDocs(Stored(s, doc), cmd, Unregistering(doc.id));
      LandingKeepsDocs(s, cmd);
    case Deleting(id, _) =>
      FlyingKeepsDocs(s.(store := s.store - {id}), cmd, Unregistering(id));
      LandingKeepsDocs(s, cmd);
    case Updating(doc) =>
      StoringKeepsDocs(s, doc);
      LandingKeepsDocs(Stored(s, doc), cmd);
      LandingKeepsDocs(s, cmd);
    case MovingToDraft(doc) =>
      StoringKeepsDocs(s, doc);
      LandingKeepsDocs(Stored(s, doc), cmd);
      LandingKeepsDocs(s, cmd);
    case Unregistering(id) =>
      LandingKeepsDocs(s.(routes := Without(s.routes, id)), cmd);
  }

  lemma StepKeepsDocs(admits: Policy, s: State, e: Event)
    requires DocsFit(s)
    ensures DocsFit(Next(admits, s, e))
  {
    var t := Next(admits, s, e);
    match e
    case Create(doc) => if t != s { StoringKeepsDocs(s, doc); }
    case Step(cmd, ok) => if cmd in s.flying { AdvanceKeepsDocs(s, cmd, ok); }
    case Restart(_) =>
    case Activate(cmd, id, _) => if t != s { FlyingKeepsDocs(s, cmd, t.flying[cmd]); }
    case Deactivate(cmd, id) => if t != s { FlyingKeepsDocs(s, cmd, t.flying[cmd]); }
    case Delete(cmd, id) => if t != s { FlyingKeepsDocs(s, cmd, t.flying[cmd]); }
    case Update(cmd, id, _) => if t != s { FlyingKeepsDocs(s, cmd, t.flying[cmd]); }
    case MoveToDraft(cmd, id) => if t != s { FlyingKeepsDocs(s, cmd, t.flying[cmd]); }
  }

  lemma {:induction false} RunKeepsDocs(admits: Policy, s: State, events: seq<Event>)
    requires DocsFit(s)
    ensures DocsFit(RunFrom(admits, s, events))
    decreases |events|
  {
    if events == [] {
    } else {
      StepKeepsDocs(admits, s, events[0]);
      RunKeepsDocs(admits, Next(admits, s, events[0]), events[1..]);
    }
  }

  /** Whatever the policy, in every interleaving a stored active workflow is well-structured. */
  lemma ActiveIsStructured(admits: Policy, events: seq<Event>, id: int)
    requires IsActive(Run(admits, events), id)
    ensures Run(admits, events).store[id].Structured()
  {
    RunKeepsDocs(admits, EMPTY, events);
    assert DocFits(id, Run(admits, events).store[id]);
  }

  // ---------- the registry agrees with the active workflows ----------

  /** The routes registered for a workflow are exactly rs. */
  ghost predicate Holds(t: Table, id: int, rs: seq<Route>) {
    && (forall r :: r in rs ==> Key(r) in t && t[Key(r)] == r)
    && forall k :: k in t && t[k].workflow == id ==> t[k] in rs
  }

  /** What should be registered for a workflow whose routes no command is changing. */
  function Due(s: State, id: int): seq<Route> {
    if IsActive(s, id) then RoutesOf(id, s.store[id].nodes) else []
  }

  /** Each registered route belongs to a workflow that is active or has a command in flight, and a
      workflow with none in flight has exactly its webhook routes registered when it is active, and
      none otherwise. */
  ghost predicate InStep(s: State) {
    && WellIndexed(s.routes)
    && (forall k :: k in s.routes ==> IsActive(s, s.routes[k].workflow) || Busy(s, s.routes[k].workflow))
    && (forall id :: !Busy(s, id) ==> Holds(s.routes, id, Due(s, id)))
  }

  predicate ChangesRoutes(c: Command, id: int) {
    c.Id() == id && (c.Registering? || c.Unregistering?)
  }

  /** No command in flight changes the routes of the workflow. */
  ghost predicate Quiet(s: State, id: int) {
    forall c :: c in s.flying ==> !ChangesRoutes(s.flying[c], id)
  }

  /** An activation in flight: the only one, with its routes so far, and nobody about to take them down,
      unless its workflow has been deleted under it. */
  ghost predicate OnCourse(s: State, cmd: int)
    requires cmd in s.flying && s.flying[cmd].Registering?
  {
    var c := s.flying[cmd];
    && RoutesOf(c.doc.id, c.doc.nodes) == c.done + c.pending
    && (forall b :: b in s.flying && s.flying[b].Registering? && s.flying[b].Id() == c.doc.id ==> b == cmd)
    && (c.doc.id in s.store ==>
          && Holds(s.routes, c.doc.id, c.done)
          && forall b :: b in s.flying && s.flying[b].Unregistering? ==> s.flying[b].Id() != c.doc.id)
  }

  ghost predicate AgreesOn(s: State, id: int) {
    && (IsActive(s, id) ==> Quiet(s, id))
    && (Quiet(s, id) ==> Holds(s.routes, id, Due(s, id)))
    && forall c :: c in s.flying && s.flying[c].Registering? && s.flying[c].Id() == id ==> OnCourse(s, c)
  }

  ghost predicate Agreement(s: State) {
    WellIndexed(s.routes) && forall id :: AgreesOn(s, id)
  }

  ghost predicate Inv(s: State) {
    DocsFit(s) && Agreement(s)
  }

  lemma AgreementMeansInStep(s: State)
    requires Agreement(s)
    ensures InStep(s)
  {
    forall id | !Busy(s, id) ensures Holds(s.routes, id, Due(s, id)) {
      assert AgreesOn(s, id);
    }
    forall k | k in s.routes && !Busy(s, s.routes[k].workflow) ensures IsActive(s, s.routes[k].workflow) {
      assert Holds(s.routes, s.routes[k].workflow, Due(s, s.routes[k].workflow));
    }
  }

  /** Two states that look the same to every workflow but `id`. */
  ghost predicate SameElsewhere(s: State, t: State, id: int) {
    && (forall j :: j != id ==> (j in s.store <==> j in t.store) && (j in s.store ==> s.store[j] == t.store[j]))
    && (forall k :: k in s.routes && s.routes[k].workflow != id ==> k in t.routes && t.routes[k] == s.routes[k])
    && (forall k :: k in t.routes && t.routes[k].workflow != id ==> k in s.routes && s.routes[k] == t.routes[k])
    && (forall c :: c in s.flying && s.flying[c].Id() != id ==> c in t.flying && t.flying[c] == s.flying[c])
    && (forall c :: c in t.flying && t.flying[c].Id() != id ==> c in s.flying && s.flying[c] == t.flying[c])
  }

  lemma HoldsElsewhere(s: State, t: State, id: int, j: int, rs: seq<Route>)
    requires SameElsewhere(s, t, id) && j != id && Holds(s.routes, j, rs)
    requires forall r :: r in rs ==> r.workflow == j
    ensures Holds(t.routes, j, rs)
  {
  }

  lemma OnCourseElsewhere(s: State, t: State, id: int, cmd: int)
    requires SameElsewhere(s, t, id) && cmd in t.flying && t.flying[cmd].Registering? && t.flying[cmd].Id() != id
    requires cmd in s.flying && OnCourse(s, cmd)
    ensures OnCourse(t, cmd)
  {
    var c := s.flying[cmd];
    assert t.flying[cmd] == c;
    forall r | r in c.done ensures r.workflow == c.doc.id {
      assert r in c.done + c.pending;
    }
    if c.doc.id in t.store { HoldsElsewhere(s, t, id, c.doc.id, c.done); }
  }

  lemma QuietElsewhere(s: State, t: State, id: int, j: int)
    requires SameElsewhere(s, t, id) && j != id
    ensures Quiet(s, j) <==> Quiet(t, j)
    ensures IsActive(s, j) <==> IsActive(t, j)
    ensures Due(s, j) == Due(t, j)
  {
  }

  /** A step that concerns one workflow keeps the agreement of all others. */
  lemma AgreementIsLocal(s: State, t: State, id: int)
    requires Agreement(s) && SameElsewhere(s, t, id) && WellIndexed(t.routes) && AgreesOn(t, id)
    ensures Agreement(t)
  {
    forall j | j != id ensures AgreesOn(t, j) {
      assert AgreesOn(s, j);
      QuietElsewhere(s, t, id, j);
      if Quiet(s, j) { HoldsElsewhere(s, t, id, j, Due(s, j)); }
      forall c | c in t.flying && t.flying[c].Registering? && t.flying[c].Id() == j ensures OnCourse(t, c) {
        OnCourseElsewhere(s, t, id, c);
      }
    }
  }

  /** A command that does not change routes starts, lands, or writes a workflow that stays inactive. */
  lemma RoutesUntouched(s: State, t: State, id: int)
    requires Agreement(s) && SameElsewhere(s, t, id) && t.routes == s.routes
    requires !IsActive(t, id) || (IsActive(s, id) && t.store[id] == s.store[id])
    requires IsActive(s, id) ==> IsActive(t, id)
    requires id in t.store ==> id in s.store || forall c :: c in t.flying ==> t.flying[c].Id() != id
    requires forall c :: c in s.flying && ChangesRoutes(s.flying[c], id) ==> c in t.flying && t.flying[c] == s.flying[c]
    requires forall c :: c in t.flying && ChangesRoutes(t.flying[c], id) ==> c in s.flying && t.flying[c] == s.flying[c]
    ensures Agreement(t)
  {
    assert AgreesOn(s, id);
    assert Quiet(s, id) <==> Quiet(t, id);
    forall c | c in t.flying && t.flying[c].Registering? && t.flying[c].Id() == id ensures OnCourse(t, c) {
      assert OnCourse(s, c);
      assert ChangesRoutes(t.flying[c], id);
      forall b | b in t.flying && (t.flying[b].Registering? || t.flying[b].Unregistering?) && t.flying[b].Id() == id
        ensures b in s.flying && s.flying[b] == t.flying[b]
      {
        assert ChangesRoutes(t.flying[b], id);
      }
    }
    AgreementIsLocal(s, t, id);
  }

  /** The guard that keeps the registry in step: no activation starts beside another activation, or
      beside a command that is about to take the routes of the workflow down. */
  predicate Guarded(admits: Policy) {
    !admits(Registers, Registers) && !admits(Registers, Unregisters)
  }

  lemma ActivationStarts(admits: Policy, s: State, cmd: int, id: int)
    requires Guarded(admits) && Inv(s) && MayStart(admits, s, cmd, Registers, id) && s.store[id].status.Draft?
    ensures Agreement(Fly(s, cmd, Registering(s.store[id].(status := Active), [], RoutesOf(id, s.store[id].nodes))))
  {
    var c := Registering(s.store[id].(status := Active), [], RoutesOf(id, s.store[id].nodes));
    var t := Fly(s, cmd, c);
    assert DocFits(id, s.store[id]);
    assert Quiet(s, id);
    assert AgreesOn(s, id);
    assert t.flying[cmd] == c && c.done + c.pending == c.pending;
    assert OnCourse(t, cmd);
    assert ChangesRoutes(t.flying[cmd], id);
    AgreementIsLocal(s, t, id);
  }

  lemma RegisterKeepsAgreement(s: State, cmd: int, ok: bool)
    requires Inv(s) && cmd in s.flying && s.flying[cmd].Registering?
    requires s.flying[cmd].pending != [] && Key(s.flying[cmd].pending[0]) !in s.routes
    ensures Agreement(Advance(s, cmd, ok))
  {
    var t, c := Advance(s, cmd, ok), s.flying[cmd];
    var r, done := c.pending[0], c.done + [c.pending[0]];
    assert AgreesOn(s, c.doc.id) && ChangesRoutes(c, c.doc.id);
    assert OnCourse(s, cmd);
    assert (c.done + c.pending)[|c.done|] == r;
    assert done + c.pending[1..] == c.done + c.pending;
    assert t.flying[cmd] == Registering(c.doc, done, c.pending[1..]) && ChangesRoutes(t.flying[cmd], c.doc.id);
    assert c.doc.id in s.store ==> Holds(t.routes, c.doc.id, done);
    assert OnCourse(t, cmd);
    AgreementIsLocal(s, t, c.doc.id);
  }

  lemma PersistKeepsAgreement(s: State, cmd: int, ok: bool)
    requires Inv(s) && cmd in s.flying && s.flying[cmd].Registering?
    requires s.flying[cmd].pending == [] && Writes(s, s.flying[cmd].doc.id, Draft, ok)
    ensures Agreement(Advance(s, cmd, ok))
  {
    var t, c := Advance(s, cmd, ok), s.flying[cmd];
    assert AgreesOn(s, c.doc.id);
    assert OnCourse(s, cmd) && CommandFits(c);
    assert c.done + [] == c.done;
    assert Due(t, c.doc.id) == c.done;
    assert Quiet(t, c.doc.id);
    AgreementIsLocal(s, t, c.doc.id);
  }

  /** An inactive workflow without an activation in flight: one more command is to take its routes down. */
  lemma TakeDownKeepsAgreement(s: State, t: State, cmd: int, id: int)
    requires Agreement(s) && SameElsewhere(s, t, id) && t.routes == s.routes && !IsActive(t, id)
    requires cmd in t.flying && t.flying[cmd] == Unregistering(id)
    requires forall c :: c in t.flying && t.flying[c].Registering? && t.flying[c].Id() == id ==>
               c in s.flying && t.flying[c] == s.flying[c] && id !in t.store
    ensures Agreement(t)
  {
    assert AgreesOn(s, id);
    assert ChangesRoutes(t.flying[cmd], id);
    forall c | c in t.flying && t.flying[c].Registering? && t.flying[c].Id() == id ensures OnCourse(t, c) {
      assert OnCourse(s, c);
    }
    AgreementIsLocal(s, t, id);
  }

  lemma GivingUpKeepsAgreement(s: State, cmd: int, id: int)
    requires Agreement(s) && cmd in s.flying && s.flying[cmd].Registering? && s.flying[cmd].Id() == id
    ensures Agreement(Fly(s, cmd, Unregistering(id)))
  {
    assert AgreesOn(s, id) && ChangesRoutes(s.flying[cmd], id);
    assert OnCourse(s, cmd);
    TakeDownKeepsAgreement(s, Fly(s, cmd, Unregistering(id)), cmd, id);
  }

  lemma RegisteringKeepsAgreement(s: State, cmd: int, ok: bool)
    requires Inv(s) && cmd in s.flying && s.flying[cmd].Registering?
    ensures Agreement(Advance(s, cmd, ok))
  {
    var t, c := Advance(s, cmd, ok), s.flying[cmd];
    if c.pending == [] && Writes(s, c.doc.id, Draft, ok) {
      PersistKeepsAgreement(s, cmd, ok);
    } else if c.pending != [] && Key(c.pending[0]) !in s.routes {
      RegisterKeepsAgreement(s, cmd, ok);
    } else {
      GivingUpKeepsAgreement(s, cmd, c.doc.id);
    }
  }

  lemma UnregisteringKeepsAgreement(s: State, cmd: int, ok: bool)
    requires Inv(s) && cmd in s.flying && s.flying[cmd].Unregistering?
    ensures Agreement(Advance(s, cmd, ok))
  {
    var t, id := Advance(s, cmd, ok), s.flying[cmd].Id();
    assert AgreesOn(s, id) && ChangesRoutes(s.flying[cmd], id);
    forall c | c in t.flying && t.flying[c].Registering? && t.flying[c].Id() == id ensures OnCourse(t, c) {
      assert OnCourse(s, c);
    }
    AgreementIsLocal(s, t, id);
  }

  lemma DeactivationKeepsAgreement(s: State, cmd: int, doc: Definition)
    requires Agreement(s) && cmd in s.flying && s.flying[cmd] == Deactivating(doc)
    requires IsActive(s, doc.id) && doc.status.Inactive?
    ensures Agreement(Fly(Stored(s, doc), cmd, Unregistering(doc.id)))
  {
    var t := Fly(Stored(s, doc), cmd, Unregistering(doc.id));
    assert AgreesOn(s, doc.id);
    assert forall b :: b in t.flying && b != cmd ==> b in s.flying && !ChangesRoutes(s.flying[b], doc.id);
    TakeDownKeepsAgreement(s, t, cmd, doc.id);
  }

  lemma DeactivatingKeepsAgreement(s: State, cmd: int, ok: bool)
    requires Inv(s) && cmd in s.flying && s.flying[cmd].Deactivating?
    ensures Agreement(Advance(s, cmd, ok))
  {
    var c := s.flying[cmd];
    assert CommandFits(c);
    if Writes(s, c.doc.id, Active, ok) {
      DeactivationKeepsAgreement(s, cmd, c.doc);
    } else {
      RoutesUntouched(s, Land(s, cmd), c.doc.id);
    }
  }

  lemma DeletingKeepsAgreement(s: State, cmd: int, ok: bool)
    requires Inv(s) && cmd in s.flying && s.flying[cmd].Deleting?
    ensures Agreement(Advance(s, cmd, ok))
  {
    var t, c := Advance(s, cmd, ok), s.flying[cmd];
    if Writes(s, c.target, c.expected, ok) {
      TakeDownKeepsAgreement(s, t, cmd, c.target);
    } else {
      RoutesUntouched(s, t, c.target);
    }
  }

  lemma DraftWriteKeepsAgreement(s: State, cmd: int, ok: bool)
    requires Inv(s) && cmd in s.flying && (s.flying[cmd].Updating? || s.flying[cmd].MovingToDraft?)
    ensures Agreement(Advance(s, cmd, ok))
  {
    var t, c := Advance(s, cmd, ok), s.flying[cmd];
    assert CommandFits(c);
    assert !ChangesRoutes(c, c.doc.id);
    RoutesUntouched(s, t, c.doc.id);
  }

  lemma AdvanceKeepsAgreement(s: State, cmd: int, ok: bool)
    requires Inv(s) && cmd in s.flying
    ensures Agreement(Advance(s, cmd, ok))
  {
    match s.flying[cmd]
    case Registering(_, _, _) => RegisteringKeepsAgreement(s, cmd, ok);
    case Deactivating(_) => DeactivatingKeepsAgreement(s, cmd, ok);
    case Deleting(_, _) => DeletingKeepsAgreement(s, cmd, ok);
    case Updating(_) => DraftWriteKeepsAgreement(s, cmd, ok);
    case MovingToDraft(_) => DraftWriteKeepsAgreement(s, cmd, ok);
    case Unregistering(_) => UnregisteringKeepsAgreement(s, cmd, ok);
  }

  lemma StartKeepsAgreement(s: State, cmd: int, c: Command)
    requires Agreement(s) && cmd !in s.flying && c.Id() in s.store && !c.Registering? && !c.Unregistering?
    ensures Agreement(Fly(s, cmd, c))
  {
    RoutesUntouched(s, Fly(s, cmd, c), c.Id());
  }

  lemma CreateKeepsAgreement(s: State, doc: Definition)
    requires Agreement(s) && doc.id !in s.store && !Busy(s, doc.id) && doc.status.Draft?
    ensures Agreement(Stored(s, doc))
  {
    RoutesUntouched(s, Stored(s, doc), doc.id);
  }

  // ---------- one command on its own ----------

  /** n steps of one command with nothing in between. */
  function AdvanceBy(s: State, cmd: int, n: nat, ok: bool): State
    decreases n
  {
    if n == 0 || cmd !in s.flying then s else AdvanceBy(Advance(s, cmd, ok), cmd, n - 1, ok)
  }

  /** What an activation in flight comes to on its own: all its routes and the write, or neither. */
  function Ended(s: State, cmd: int, ok: bool): State
    requires cmd in s.flying && s.flying[cmd].Registering?
  {
    var c := s.flying[cmd];
    if Fits(s.routes, c.pending) && Writes(s, c.doc.id, Draft, ok)
    then State(s.store[c.doc.id := c.doc], AllAdded(s.routes, c.pending), s.flying - {cmd})
    else State(s.store, Without(s.routes, c.doc.id), s.flying - {cmd})
  }

  lemma OneThenRest(s: State, cmd: int, n: nat, ok: bool)
    requires cmd in s.flying
    ensures AdvanceBy(s, cmd, n + 1, ok) == AdvanceBy(Advance(s, cmd, ok), cmd, n, ok)
  {
  }

  /** The next route of an activation goes in. */
  predicate GoesIn(s: State, cmd: int) {
    && cmd in s.flying && s.flying[cmd].Registering?
    && s.flying[cmd].pending != [] && Key(s.flying[cmd].pending[0]) !in s.routes
  }

  /** An activation with only its own workflow's routes to register. */
  ghost predicate OwnRoutes(s: State, cmd: int) {
    && cmd in s.flying && s.flying[cmd].Registering?
    && forall r :: r in s.flying[cmd].pending ==> r.workflow == s.flying[cmd].doc.id
  }

  lemma RouteGoesIn(s: State, cmd: int, ok: bool)
    requires OwnRoutes(s, cmd) && GoesIn(s, cmd)
    ensures OwnRoutes(Advance(s, cmd, ok), cmd)
    ensures |Advance(s, cmd, ok).flying[cmd].pending| < |s.flying[cmd].pending|
  {
  }

  lemma RollBackOfMore(t: Table, r: Route)
    requires Key(r) !in t
    ensures Without(Added(t, r), r.workflow) == Without(t, r.workflow)
  {
  }

  lemma OneMoreRoute(s: State, cmd: int, ok: bool)
    requires OwnRoutes(s, cmd) && GoesIn(s, cmd)
    ensures cmd in Advance(s, cmd, ok).flying && Advance(s, cmd, ok).flying[cmd].Registering?
    ensures Ended(Advance(s, cmd, ok), cmd, ok) == Ended(s, cmd, ok)
  {
    var c, t := s.flying[cmd], Advance(s, cmd, ok);
    FitsTail(s.routes, c.pending);
    RollBackOfMore(s.routes, c.pending[0]);
    assert t.flying - {cmd} == s.flying - {cmd};
  }

  lemma GivesUp(s: State, cmd: int, ok: bool)
    requires cmd in s.flying && s.flying[cmd].Registering? && !GoesIn(s, cmd)
    requires s.flying[cmd].pending == [] ==> !Writes(s, s.flying[cmd].doc.id, Draft, ok)
    ensures AdvanceBy(s, cmd, 2, ok) == Ended(s, cmd, ok)
  {
    var t := Advance(s, cmd, ok);
    OneThenRest(s, cmd, 1, ok);
    OneThenRest(t, cmd, 0, ok);
    assert Advance(t, cmd, ok).flying == s.flying - {cmd};
  }

  lemma LastSteps(s: State, cmd: int, ok: bool) returns (n: nat)
    requires cmd in s.flying && s.flying[cmd].Registering? && !GoesIn(s, cmd)
    ensures AdvanceBy(s, cmd, n, ok) == Ended(s, cmd, ok)
  {
    if s.flying[cmd].pending == [] && Writes(s, s.flying[cmd].doc.id, Draft, ok) {
      n := 1;
      OneThenRest(s, cmd, 0, ok);
    } else {
      n := 2;
      GivesUp(s, cmd, ok);
    }
  }

  lemma OneMoreStep(s: State, cmd: int, rest: nat, ok: bool, end: State) returns (n: nat)
    requires cmd in s.flying && AdvanceBy(Advance(s, cmd, ok), cmd, rest, ok) == end
    ensures AdvanceBy(s, cmd, n, ok) == end
  {
    n := rest + 1;
  }

  /** The steps of an activation, run without interruption, do what ActivateWorkflow promises: all
      routes and the write, or neither and no route of this workflow. */
  lemma {:induction false} ActivationAlone(s: State, cmd: int, ok: bool) returns (n: nat)
    requires OwnRoutes(s, cmd)
    ensures AdvanceBy(s, cmd, n, ok) == Ended(s, cmd, ok)
    decreases |s.flying[cmd].pending|
  {
    if GoesIn(s, cmd) {
      RouteGoesIn(s, cmd, ok);
      var rest := ActivationAlone(Advance(s, cmd, ok), cmd, ok);
      OneMoreRoute(s, cmd, ok);
      n := OneMoreStep(s, cmd, rest, ok, Ended(s, cmd, ok));
    } else {
      n := LastSteps(s, cmd, ok);
    }
  }

  lemma FitsTail(t: Table, rs: seq<Route>)
    requires rs != [] && Key(rs[0]) !in t
    ensures Fits(t, rs) <==> Fits(Added(t, rs[0]), rs[1..])
  {
    var tail := rs[1..];
    if Fits(Added(t, rs[0]), tail) {
      forall i, j | 0 <= i < j < |rs| ensures Key(rs[i]) != Key(rs[j]) {
        assert rs[j] == tail[j - 1];
        if i > 0 { assert rs[i] == tail[i - 1]; }
      }
      forall i | 0 <= i < |rs| ensures Key(rs[i]) !in t {
        if i > 0 { assert rs[i] == tail[i - 1]; }
      }
    }
  }

  // ---------- rebuilding the registry ----------

  lemma {:induction false} InActiveRoutes(ds: seq<Definition>, r: Route)
    ensures r in ActiveRoutes(ds) <==>
            exists i :: 0 <= i < |ds| && ds[i].status.Active? && r in RoutesOf(ds[i].id, ds[i].nodes)
    decreases |ds|
  {
    if ds == [] {
    } else {
      var rest := ds[1..];
      InActiveRoutes(rest, r);
      if i :| 0 <= i < |rest| && rest[i].status.Active? && r in RoutesOf(rest[i].id, rest[i].nodes) {
        assert ds[i + 1] == rest[i];
      }
      if i :| 0 < i < |ds| && ds[i].status.Active? && r in RoutesOf(ds[i].id, ds[i].nodes) {
        assert rest[i - 1] == ds[i];
      }
    }
  }

  /** The registered routes of active workflows. */
  function ActiveTable(s: State): Table {
    map k | k in s.routes && IsActive(s, s.routes[k].workflow) :: s.routes[k]
  }

  lemma ListedIsRegistered(s: State, ds: seq<Definition>, r: Route)
    requires Inv(s) && ListsActive(s, ds) && r in ActiveRoutes(ds)
    ensures Key(r) in ActiveTable(s) && ActiveTable(s)[Key(r)] == r
  {
    InActiveRoutes(ds, r);
    var j :| 0 <= j < |ds| && ds[j].status.Active? && r in RoutesOf(ds[j].id, ds[j].nodes);
    var id := ds[j].id;
    assert IsActive(s, id) && AgreesOn(s, id);
    assert Holds(s.routes, id, RoutesOf(id, s.store[id].nodes));
    assert r.workflow == id;
  }

  lemma RegisteredIsListed(s: State, ds: seq<Definition>, k: string)
    requires Inv(s) && ListsActive(s, ds) && k in ActiveTable(s)
    ensures s.routes[k] in ActiveRoutes(ds) && Key(s.routes[k]) == k
  {
    var r := s.routes[k];
    var d := s.store[r.workflow];
    assert DocFits(r.workflow, d) && AgreesOn(s, r.workflow);
    assert Holds(s.routes, r.workflow, RoutesOf(r.workflow, d.nodes));
    assert d in ds;
    var j :| 0 <= j < |ds| && ds[j] == d;
    InActiveRoutes(ds, r);
  }

  lemma {:induction false} IndexOfFirst(rs: seq<Route>, r: Route) returns (i: int)
    requires r in rs
    ensures FirstWithKey(rs, i) && Key(rs[i]) == Key(r)
    decreases |rs|
  {
    if Key(rs[0]) == Key(r) { return 0; }
    var k := IndexOfFirst(rs[1..], r);
    i := k + 1;
    forall j | 0 <= j < i ensures Key(rs[j]) != Key(rs[i]) {
      if j > 0 { assert rs[j] == rs[1..][j - 1]; }
    }
  }

  lemma RebuiltKey(s: State, ds: seq<Definition>, k: string)
    requires Inv(s) && ListsActive(s, ds) && k in AllAdded(map[], ActiveRoutes(ds))
    ensures k in ActiveTable(s) && ActiveTable(s)[k] == AllAdded(map[], ActiveRoutes(ds))[k]
  {
    var rs := ActiveRoutes(ds);
    FirstRouteWins(map[], rs);
    var i :| FirstWithKey(rs, i) && Key(rs[i]) == k;
    ListedIsRegistered(s, ds, rs[i]);
  }

  lemma KeyRebuilt(s: State, ds: seq<Definition>, k: string)
    requires Inv(s) && ListsActive(s, ds) && k in ActiveTable(s)
    ensures k in AllAdded(map[], ActiveRoutes(ds))
  {
    var rs := ActiveRoutes(ds);
    FirstRouteWins(map[], rs);
    RegisteredIsListed(s, ds, k);
    var i := IndexOfFirst(rs, s.routes[k]);
  }

  lemma RebuildOfAgreement(s: State, ds: seq<Definition>)
    requires Inv(s) && ListsActive(s, ds)
    ensures Restarted(s, ds).routes == ActiveTable(s)
  {
    forall k | k in Restarted(s, ds).routes
      ensures k in ActiveTable(s) && ActiveTable(s)[k] == Restarted(s, ds).routes[k]
    {
      RebuiltKey(s, ds, k);
    }
    forall k | k in ActiveTable(s) ensures k in Restarted(s, ds).routes {
      KeyRebuilt(s, ds, k);
    }
  }

  lemma RestartKeepsAgreement(s: State, ds: seq<Definition>)
    requires Inv(s) && ListsActive(s, ds)
    ensures Agreement(Restarted(s, ds))
  {
    var t := Restarted(s, ds);
    RebuildOfAgreement(s, ds);
    forall id ensures AgreesOn(t, id) {
      assert AgreesOn(s, id);
      assert IsActive(t, id) <==> IsActive(s, id);
      assert forall r :: r in Due(s, id) ==> r.workflow == id;
    }
  }

  // ---------- every run ----------

  lemma StepKeepsInv(admits: Policy, s: State, e: Event)
    requires Guarded(admits) && Inv(s)
    ensures Inv(Next(admits, s, e))
  {
    StepKeepsDocs(admits, s, e);
    var t := Next(admits, s, e);
    if t == s { return; }
    match e
    case Create(doc) => CreateKeepsAgreement(s, doc);
    case Step(cmd, ok) => AdvanceKeepsAgreement(s, cmd, ok);
    case Restart(listed) => RestartKeepsAgreement(s, listed);
    case Activate(cmd, id, _) => ActivationStarts(admits, s, cmd, id);
    case Deactivate(cmd, id) => assert DocFits(id, s.store[id]); StartKeepsAgreement(s, cmd, t.flying[cmd]);
    case Delete(cmd, _) => StartKeepsAgreement(s, cmd, t.flying[cmd]);
    case Update(cmd, _, _) => StartKeepsAgreement(s, cmd, t.flying[cmd]);
    case MoveToDraft(cmd, id) => assert DocFits(id, s.store[id]); StartKeepsAgreement(s, cmd, t.flying[cmd]);
  }

  lemma {:induction false} RunKeepsInv(admits: Policy, s: State, events: seq<Event>)
    requires Guarded(admits) && Inv(s)
    ensures Inv(RunFrom(admits, s, events))
    decreases |events|
  {
    if events == [] {
    } else {
      StepKeepsInv(admits, s, events[0]);
      RunKeepsInv(admits, Next(admits, s, events[0]), events[1..]);
    }
  }

  /** Under a guarded policy the registry is in step in every interleaving, restarts included. */
  lemma RegistryAgrees(admits: Policy, events: seq<Event>)
    requires Guarded(admits)
    ensures InStep(Run(admits, events))
  {
    RunKeepsInv(admits, EMPTY, events);
    AgreementMeansInStep(Run(admits, events));
  }

  /** Rebuild equals incremental, whatever is in flight: populating an empty registry from the stored
      workflows, listed in any order, gives the routes of active workflows that the commands have
      maintained; with nothing in flight these are all routes. */
  lemma RebuildEqualsIncremental(admits: Policy, events: seq<Event>, ds: seq<Definition>)
    requires Guarded(admits) && ListsActive(Run(admits, events), ds)
    ensures var s := Run(admits, events);
      && AllAdded(map[], ActiveRoutes(ds)) == ActiveTable(s)
      && (s.flying == map[] ==> ActiveTable(s) == s.routes)
  {
    RunKeepsInv(admits, EMPTY, events);
    var s := Run(admits, events);
    RebuildOfAgreement(s, ds);
    AgreementMeansInStep(s);
    if s.flying == map[] {
      assert forall id :: !Busy(s, id);
    }
  }
}
