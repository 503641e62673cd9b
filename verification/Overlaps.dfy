/** Which overlaps of commands on one workflow the webhook registry survives: exactly when. */
module Overlaps {
  import opened Values
  import opened Workflows
  import opened Webhooks
  import opened Lifecycle

  // ---------- single steps ----------

  lemma StartsActivation(admits: Policy, s: State, cmd: int, d: Definition, r: Route)
    requires MayStart(admits, s, cmd, Registers, d.id) && s.store[d.id] == d && d.status.Draft? && d.Structured()
    requires RoutesOf(d.id, d.nodes) == [r]
    ensures Next(admits, s, Activate(cmd, d.id, true)) == Fly(s, cmd, Registering(d.(status := Active), [], [r]))
  {
  }

  lemma RegistersOne(admits: Policy, s: State, cmd: int, doc: Definition, r: Route)
    requires cmd in s.flying && s.flying[cmd] == Registering(doc, [], [r])
    ensures Next(admits, s, Step(cmd, true)) ==
            if Key(r) in s.routes then Fly(s, cmd, Unregistering(doc.id))
            else Fly(s.(routes := s.routes[Key(r) := r]), cmd, Registering(doc, [r], []))
  {
    assert [] + [r] == [r] && [r][1..] == [];
  }

  lemma Persists(admits: Policy, s: State, cmd: int, doc: Definition, done: seq<Route>)
    requires cmd in s.flying && s.flying[cmd] == Registering(doc, done, [])
    requires doc.id in s.store && s.store[doc.id].status.Draft?
    ensures Next(admits, s, Step(cmd, true)) == Land(Stored(s, doc), cmd)
  {
  }

  lemma TakesDown(admits: Policy, s: State, cmd: int, id: int)
    requires cmd in s.flying && s.flying[cmd] == Unregistering(id)
    requires forall k :: k in s.routes ==> s.routes[k].workflow == id
    ensures Next(admits, s, Step(cmd, true)) == Land(s.(routes := map[]), cmd)
  {
  }

  lemma {:induction false} RunTogether(admits: Policy, s: State, a: seq<Event>, b: seq<Event>)
    ensures RunFrom(admits, s, a + b) == RunFrom(admits, RunFrom(admits, s, a), b)
    decreases |a|
  {
    if a == [] {
      assert a + b == b;
    } else {
      assert (a + b)[1..] == a[1..] + b;
      RunTogether(admits, Next(admits, s, a[0]), a[1..], b);
    }
  }

  lemma InTurn(admits: Policy, a: seq<Event>, b: seq<Event>, c: seq<Event>, d: seq<Event>)
    ensures Run(admits, a + (b + (c + d))) ==
            RunFrom(admits, RunFrom(admits, RunFrom(admits, Run(admits, a), b), c), d)
  {
    var s1 := Run(admits, a);
    var s2 := RunFrom(admits, s1, b);
    RunTogether(admits, EMPTY, a, b + (c + d));
    RunTogether(admits, s1, b, c + d);
    RunTogether(admits, s2, c, d);
  }

  lemma RunOne(admits: Policy, s: State, e: Event, events: seq<Event>)
    ensures RunFrom(admits, s, [e] + events) == RunFrom(admits, Next(admits, s, e), events)
  {
    assert ([e] + events)[1..] == events;
  }

  lemma RunThree(admits: Policy, s: State, a: Event, b: Event, c: Event)
    ensures RunFrom(admits, s, [a, b, c]) == Next(admits, Next(admits, Next(admits, s, a), b), c)
  {
    RunOne(admits, s, a, [b, c]);
    assert [a] + [b, c] == [a, b, c];
    var s1 := Next(admits, s, a);
    RunOne(admits, s1, b, [c]);
    assert [b] + [c] == [b, c];
    RunOne(admits, Next(admits, s1, b), c, []);
    assert [c] + [] == [c];
  }

  lemma RunFour(admits: Policy, s: State, a: Event, b: Event, c: Event, d: Event)
    ensures RunFrom(admits, s, [a, b, c, d]) ==
            Next(admits, Next(admits, Next(admits, Next(admits, s, a), b), c), d)
  {
    RunOne(admits, s, a, [b, c, d]);
    assert [a] + [b, c, d] == [a, b, c, d];
    RunThree(admits, Next(admits, s, a), b, c, d);
  }

  // ---------- an activation beside another activation ----------

  /** Two activations of one workflow, in flight together: the second meets the first one's route,
      gives up, and takes it down. */
  function BothStart(d: Definition): seq<Event> {
    [Create(d), Activate(0, d.id, true), Activate(1, d.id, true)]
  }

  function BothEnd(): seq<Event> {
    [Step(0, true), Step(1, true), Step(0, true), Step(1, true)]
  }

  lemma TwoInFlight(admits: Policy, d: Definition, r: Route)
    requires admits(Registers, Registers)
    requires d.status.Draft? && d.Structured() && RoutesOf(d.id, d.nodes) == [r]
    ensures var c := Registering(d.(status := Active), [], [r]);
      Run(admits, BothStart(d)) == State(map[d.id := d], map[], map[0 := c, 1 := c])
  {
    RunThree(admits, EMPTY, Create(d), Activate(0, d.id, true), Activate(1, d.id, true));
    var s1 := Stored(EMPTY, d);
    assert Next(admits, EMPTY, Create(d)) == s1;
    StartsActivation(admits, s1, 0, d, r);
    StartsActivation(admits, Next(admits, s1, Activate(0, d.id, true)), 1, d, r);
  }

  lemma SecondTakesDown(admits: Policy, s: State, d: Definition, r: Route)
    requires d.status.Draft? && r.workflow == d.id
    requires var c := Registering(d.(status := Active), [], [r]);
      s == State(map[d.id := d], map[], map[0 := c, 1 := c])
    ensures RunFrom(admits, s, BothEnd()) == State(map[d.id := d.(status := Active)], map[], map[])
  {
    var doc := d.(status := Active);
    RunFour(admits, s, Step(0, true), Step(1, true), Step(0, true), Step(1, true));
    RegistersOne(admits, s, 0, doc, r);
    var s1 := Next(admits, s, Step(0, true));
    RegistersOne(admits, s1, 1, doc, r);
    var s2 := Next(admits, s1, Step(1, true));
    Persists(admits, s2, 0, doc, [r]);
    var s3 := Next(admits, s2, Step(0, true));
    TakesDown(admits, s3, 1, d.id);
  }

  /** Where activations may start beside activations, a workflow can end active, with no command in
      flight, and its webhook route gone. */
  lemma ConcurrentActivationsLoseRoute(admits: Policy, d: Definition, r: Route)
    requires admits(Registers, Registers)
    requires d.status.Draft? && d.Structured() && RoutesOf(d.id, d.nodes) == [r]
    ensures Run(admits, BothStart(d) + BothEnd()) == State(map[d.id := d.(status := Active)], map[], map[])
  {
    assert r == RoutesOf(d.id, d.nodes)[0];
    TwoInFlight(admits, d, r);
    SecondTakesDown(admits, Run(admits, BothStart(d)), d, r);
    RunTogether(admits, EMPTY, BothStart(d), BothEnd());
  }

  // ---------- an activation beside a command that takes routes down ----------

  const HOOK := Node("t", Trigger, None,
    map["triggerType" := Str("webhook"), "path" := Str("/p"), "method" := Str("POST")])

  /** Drafts of one webhook, all on the same path. */
  function Hooked(id: int): Definition {
    Definition(id, "w", None, Draft, [HOOK], [], map[])
  }

  function HookRoute(id: int): Route {
    Route(id, "/p", "POST", "")
  }

  lemma HookedHasRoute(id: int)
    ensures Hooked(id).Structured() && RoutesOf(id, Hooked(id).nodes) == [HookRoute(id)]
    ensures Key(HookRoute(id)) == Key(HookRoute(0))
  {
    assert Hooked(id).nodes[0].kind.Trigger?;
    assert [HOOK][1..] == [];
  }

  /** Workflow 2 takes the path; an activation of workflow 1 is refused and about to clean up; workflow 2
      frees the path; workflow 1 is activated again, and the cleaning up takes the new route down. */
  function PathTaken(): seq<Event> {
    [Create(Hooked(2)), Activate(0, 2, true), Step(0, true), Step(0, true)]
  }

  function FirstRefused(): seq<Event> {
    [Create(Hooked(1)), Activate(1, 1, true), Step(1, true)]
  }

  function PathFreed(): seq<Event> {
    [Deactivate(0, 2), Step(0, true), Step(0, true)]
  }

  function SecondCleaned(): seq<Event> {
    [Activate(2, 1, true), Step(2, true), Step(1, true), Step(2, true)]
  }

  lemma TakePath(admits: Policy)
    ensures Run(admits, PathTaken()) ==
            State(map[2 := Hooked(2).(status := Active)], map[Key(HookRoute(0)) := HookRoute(2)], map[])
  {
    HookedHasRoute(2);
    var r, doc := HookRoute(2), Hooked(2).(status := Active);
    RunFour(admits, EMPTY, Create(Hooked(2)), Activate(0, 2, true), Step(0, true), Step(0, true));
    var s1 := Stored(EMPTY, Hooked(2));
    assert Next(admits, EMPTY, Create(Hooked(2))) == s1;
    StartsActivation(admits, s1, 0, Hooked(2), r);
    var s2 := Next(admits, s1, Activate(0, 2, true));
    RegistersOne(admits, s2, 0, doc, r);
    Persists(admits, Next(admits, s2, Step(0, true)), 0, doc, [r]);
  }

  lemma RefuseFirst(admits: Policy, s: State)
    requires 1 !in s.store && s.flying == map[] && Key(HookRoute(0)) in s.routes
    ensures RunFrom(admits, s, FirstRefused()) ==
            State(s.store[1 := Hooked(1)], s.routes, map[1 := Unregistering(1)])
  {
    HookedHasRoute(1);
    RunThree(admits, s, Create(Hooked(1)), Activate(1, 1, true), Step(1, true));
    var s1 := Stored(s, Hooked(1));
    assert Next(admits, s, Create(Hooked(1))) == s1;
    StartsActivation(admits, s1, 1, Hooked(1), HookRoute(1));
    var s2 := Next(admits, s1, Activate(1, 1, true));
    RegistersOne(admits, s2, 1, Hooked(1).(status := Active), HookRoute(1));
  }

  lemma FreePath(admits: Policy, s: State)
    requires 2 in s.store && s.store[2] == Hooked(2).(status := Active)
    requires s.routes == map[Key(HookRoute(0)) := HookRoute(2)] && s.flying == map[1 := Unregistering(1)]
    ensures RunFrom(admits, s, PathFreed()) ==
            State(s.store[2 := Hooked(2).(status := Inactive)], map[], s.flying)
  {
    var doc := Hooked(2).(status := Inactive);
    RunThree(admits, s, Deactivate(0, 2), Step(0, true), Step(0, true));
    var s1 := Fly(s, 0, Deactivating(doc));
    assert Next(admits, s, Deactivate(0, 2)) == s1;
    var s2 := Fly(Stored(s1, doc), 0, Unregistering(2));
    assert Next(admits, s1, Step(0, true)) == s2;
    TakesDown(admits, s2, 0, 2);
  }

  lemma CleanSecond(admits: Policy, s: State)
    requires admits(Registers, Unregisters)
    requires 1 in s.store && s.store[1] == Hooked(1) && s.routes == map[] && s.flying == map[1 := Unregistering(1)]
    ensures RunFrom(admits, s, SecondCleaned()) == State(s.store[1 := Hooked(1).(status := Active)], map[], map[])
  {
    HookedHasRoute(1);
    var r, doc := HookRoute(1), Hooked(1).(status := Active);
    RunFour(admits, s, Activate(2, 1, true), Step(2, true), Step(1, true), Step(2, true));
    StartsActivation(admits, s, 2, Hooked(1), r);
    var s1 := Next(admits, s, Activate(2, 1, true));
    RegistersOne(admits, s1, 2, doc, r);
    var s2 := Next(admits, s1, Step(2, true));
    TakesDown(admits, s2, 1, 1);
    var s3 := Next(admits, s2, Step(1, true));
    Persists(admits, s3, 2, doc, [r]);
  }

  /** Workflow 1, refused and about to clean up, beside workflow 2 on the path. */
  function Refused(): State {
    State(map[2 := Hooked(2).(status := Active), 1 := Hooked(1)], map[Key(HookRoute(0)) := HookRoute(2)],
          map[1 := Unregistering(1)])
  }

  lemma FirstHalf(admits: Policy)
    ensures RunFrom(admits, Run(admits, PathTaken()), FirstRefused()) == Refused()
  {
    TakePath(admits);
    RefuseFirst(admits, Run(admits, PathTaken()));
  }

  lemma SecondHalf(admits: Policy)
    requires admits(Registers, Unregisters)
    ensures RunFrom(admits, RunFrom(admits, Refused(), PathFreed()), SecondCleaned()) ==
            State(map[2 := Hooked(2).(status := Inactive), 1 := Hooked(1).(status := Active)], map[], map[])
  {
    FreePath(admits, Refused());
    CleanSecond(admits, RunFrom(admits, Refused(), PathFreed()));
  }

  /** The same where activations may start beside a command that is about to take routes down. */
  lemma LateCleanUpLosesRoute(admits: Policy) returns (events: seq<Event>)
    requires admits(Registers, Unregisters)
    ensures Run(admits, events) ==
            State(map[2 := Hooked(2).(status := Inactive), 1 := Hooked(1).(status := Active)], map[], map[])
  {
    events := PathTaken() + (FirstRefused() + (PathFreed() + SecondCleaned()));
    FirstHalf(admits);
    SecondHalf(admits);
    InTurn(admits, PathTaken(), FirstRefused(), PathFreed(), SecondCleaned());
  }

  // ---------- the exact condition ----------

  /** An active workflow that lost its route, with nothing in flight. */
  lemma LostRoute(s: State, id: int)
    requires s.flying == map[] && s.routes == map[] && id in s.store && s.store[id] == Hooked(id).(status := Active)
    ensures !InStep(s)
  {
    HookedHasRoute(id);
    assert !Busy(s, id) && IsActive(s, id);
    assert HookRoute(id) in Due(s, id);
  }

  /** The registry is in step in every interleaving exactly when activations do not start beside
      another activation of the workflow, nor beside a command about to take its routes down. All other
      commands may overlap as they like. */
  lemma InStepIffGuarded(admits: Policy)
    ensures (forall events :: InStep(Run(admits, events))) <==> Guarded(admits)
  {
    if Guarded(admits) {
      forall events ensures InStep(Run(admits, events)) { RegistryAgrees(admits, events); }
    } else if admits(Registers, Registers) {
      HookedHasRoute(1);
      ConcurrentActivationsLoseRoute(admits, Hooked(1), HookRoute(1));
      LostRoute(Run(admits, BothStart(Hooked(1)) + BothEnd()), 1);
    } else {
      var events := LateCleanUpLosesRoute(admits);
      LostRoute(Run(admits, events), 1);
    }
  }
}
