/** Concurrent Execute calls over one store of executions with a unique idempotency key. */
module Idempotency {
  import opened Values
  import opened Strings

  /** Where a call stands. Returned with `launched` set means that this call started the machine. */
  datatype Phase =
    | Looking
    | Loading
    | Creating
    | Resolving
    | Starting(exec: int)
    | Returned(exec: int, launched: bool)
    | Rejected

  datatype Call = Call(key: Option<string>, phase: Phase)

  /** The stored executions with their keys as stored, and the calls so far. */
  datatype State = State(stored: map<int, Option<string>>, calls: map<int, Call>)

  /** Atomic steps. `ok` is the answer of the outside: false is a failure of the database, of the
      workflow lookup, or of the move to running. */
  datatype Event =
    | Arrive(call: int, key: Option<string>)
    | Look(call: int, ok: bool)
    | Load(call: int, ok: bool)
    | Create(call: int, id: int, ok: bool)
    | Resolve(call: int, ok: bool)
    | Begin(call: int, ok: bool)

  predicate Blank(key: Option<string>) {
    key.None? || Trim(key.value) == ""
  }

  predicate KeyTaken(stored: map<int, Option<string>>, k: string) {
    exists i :: i in stored && stored[i] == Some(k)
  }

  ghost function FindByKey(stored: map<int, Option<string>>, k: string): (r: Option<int>)
    ensures r.Some? <==> KeyTaken(stored, k)
    ensures r.Some? ==> r.value in stored && stored[r.value] == Some(k)
  {
    if KeyTaken(stored, k) then
      var i :| i in stored && stored[i] == Some(k);
      Some(i)
    else None
  }

  predicate At(s: State, c: int, p: Phase) {
    c in s.calls && s.calls[c].phase == p
  }

  function Move(s: State, c: int, p: Phase): State
    requires c in s.calls
  {
    s.(calls := s.calls[c := s.calls[c].(phase := p)])
  }

  /** The lookup uses the trimmed key. */
  ghost function Found(s: State, c: int, ok: bool, otherwise: Phase): State
    requires c in s.calls && s.calls[c].key.Some?
  {
    var r := FindByKey(s.stored, Trim(s.calls[c].key.value));
    Move(s, c, if !ok then Rejected else if r.Some? then Returned(r.value, false) else otherwise)
  }

  /** One step of one call; an event that is not enabled changes nothing. */
  ghost function Next(s: State, e: Event): State {
    match e
    case Arrive(c, key) =>
      if c in s.calls then s
      else s.(calls := s.calls[c := Call(key, if Blank(key) then Loading else Looking)])
    case Look(c, ok) =>
      if At(s, c, Looking) && s.calls[c].key.Some? then Found(s, c, ok, Loading) else s
    case Load(c, ok) =>
      if At(s, c, Loading) then Move(s, c, if ok then Creating else Rejected) else s
    case Create(c, id, ok) =>
      if !At(s, c, Creating) || id in s.stored then s
      else
        var key := s.calls[c].key;
        if !ok then Move(s, c, Rejected)
        else if key.Some? && KeyTaken(s.stored, key.value) then
          Move(s, c, if Blank(key) then Rejected else Resolving)
        else Move(s.(stored := s.stored[id := key]), c, Starting(id))
    case Resolve(c, ok) =>
      if At(s, c, Resolving) && s.calls[c].key.Some? then Found(s, c, ok, Rejected) else s
    case Begin(c, ok) =>
      if c in s.calls && s.calls[c].phase.Starting? then
        Move(s, c, if ok then Returned(s.calls[c].phase.exec, true) else Rejected)
      else s
  }

  ghost function RunFrom(s: State, events: seq<Event>): State
    decreases |events|
  {
    if events == [] then s else RunFrom(Next(s, events[0]), events[1..])
  }

  ghost function Run(events: seq<Event>): State {
    RunFrom(State(map[], map[]), events)
  }

  // ---------- the invariant ----------

  ghost predicate UniqueKeys(s: State) {
    forall i, j :: i in s.stored && j in s.stored && s.stored[i].Some? && s.stored[i] == s.stored[j] ==> i == j
  }

  predicate Owns(c: Call, e: int) {
    c.phase == Starting(e) || c.phase == Returned(e, true)
  }

  /** An owned execution carries the owner's key; a found one carries the trimmed key. */
  ghost predicate PhaseFits(stored: map<int, Option<string>>, call: Call) {
    match call.phase
    case Starting(exec) => exec in stored && stored[exec] == call.key
    case Returned(exec, true) => exec in stored && stored[exec] == call.key
    case Returned(exec, false) => !Blank(call.key) && exec in stored && stored[exec] == Some(Trim(call.key.value))
    case Looking => !Blank(call.key)
    case Resolving => !Blank(call.key)
    case _ => true
  }

  ghost predicate PhasesFit(s: State) {
    forall c :: c in s.calls ==> PhaseFits(s.stored, s.calls[c])
  }

  ghost predicate OneOwner(s: State) {
    forall c, d, e :: c in s.calls && d in s.calls && Owns(s.calls[c], e) && Owns(s.calls[d], e) ==> c == d
  }

  ghost predicate Inv(s: State) {
    UniqueKeys(s) && PhasesFit(s) && OneOwner(s)
  }

  /** A call comes to a phase that fits it; it owns no execution that it did not own before. */
  lemma CallKeepsInv(s: State, c: int, call: Call)
    requires Inv(s) && PhaseFits(s.stored, call)
    requires forall e :: Owns(call, e) ==> c in s.calls && Owns(s.calls[c], e)
    ensures Inv(s.(calls := s.calls[c := call]))
  {
  }

  /** An execution is stored under a new id, with a key that no other one has. */
  lemma StoringKeepsInv(s: State, id: int, key: Option<string>)
    requires Inv(s) && id !in s.stored && (key.Some? ==> !KeyTaken(s.stored, key.value))
    ensures Inv(s.(stored := s.stored[id := key]))
    ensures forall c :: c in s.calls ==> !Owns(s.calls[c], id)
  {
    var t := s.(stored := s.stored[id := key]);
    forall c | c in s.calls ensures PhaseFits(t.stored, s.calls[c]) && !Owns(s.calls[c], id) {
      assert PhaseFits(s.stored, s.calls[c]);
    }
  }

  lemma StartingKeepsInv(s: State, c: int, id: int)
    requires Inv(s) && c in s.calls && id in s.stored && s.stored[id] == s.calls[c].key
    requires forall d :: d in s.calls ==> !Owns(s.calls[d], id)
    ensures Inv(Move(s, c, Starting(id)))
  {
  }

  lemma CreateKeepsInv(s: State, c: int, id: int, ok: bool)
    requires Inv(s)
    ensures Inv(Next(s, Create(c, id, ok)))
  {
    var t := Next(s, Create(c, id, ok));
    if t == s { return; }
    var key := s.calls[c].key;
    if !ok || (key.Some? && KeyTaken(s.stored, key.value)) {
      CallKeepsInv(s, c, t.calls[c]);
    } else {
      StoringKeepsInv(s, id, key);
      StartingKeepsInv(s.(stored := s.stored[id := key]), c, id);
    }
  }

  lemma StepKeepsInv(s: State, e: Event)
    requires Inv(s)
    ensures Inv(Next(s, e))
  {
    var t := Next(s, e);
    if t == s { return; }
    match e
    case Arrive(c, _) => CallKeepsInv(s, c, t.calls[c]);
    case Look(c, _) => assert PhaseFits(s.stored, s.calls[c]); CallKeepsInv(s, c, t.calls[c]);
    case Load(c, _) => CallKeepsInv(s, c, t.calls[c]);
    case Create(c, id, ok) => CreateKeepsInv(s, c, id, ok);
    case Resolve(c, _) => assert PhaseFits(s.stored, s.calls[c]); CallKeepsInv(s, c, t.calls[c]);
    case Begin(c, _) => assert PhaseFits(s.stored, s.calls[c]); CallKeepsInv(s, c, t.calls[c]);
  }

  lemma {:induction false} RunKeepsInv(s: State, events: seq<Event>)
    requires Inv(s)
    ensures Inv(RunFrom(s, events))
    decreases |events|
  {
    if events == [] {
    } else {
      StepKeepsInv(s, events[0]);
      RunKeepsInv(Next(s, events[0]), events[1..]);
    }
  }

  // ---------- what callers with one key see ----------

  predicate ReturnedTo(s: State, k: string, c: int, e: int) {
    c in s.calls && s.calls[c].key == Some(k) && s.calls[c].phase.Returned? && s.calls[c].phase.exec == e
  }

  ghost predicate OneStored(s: State, k: string) {
    forall i, j :: i in s.stored && j in s.stored && s.stored[i] == Some(k) && s.stored[j] == Some(k) ==> i == j
  }

  predicate Launched(s: State, k: string, c: int) {
    c in s.calls && s.calls[c].key == Some(k) && s.calls[c].phase.Returned? && s.calls[c].phase.launched
  }

  ghost predicate OneLaunch(s: State, k: string) {
    forall c, d :: Launched(s, k, c) && Launched(s, k, d) ==> c == d
  }

  /** All calls with key k that return an execution return the same one. */
  ghost predicate Agree(s: State, k: string) {
    forall c, d, e, f :: ReturnedTo(s, k, c, e) && ReturnedTo(s, k, d, f) ==> e == f
  }

  /** Whatever the interleaving: at most one execution is stored for a key, at most one call with it
      launches a state machine, and for a trimmed (or blank) key all calls that return an execution
      return the same one. */
  lemma Idempotent(events: seq<Event>, k: string)
    ensures var s := Run(events);
      && OneStored(s, k) && OneLaunch(s, k)
      && (Trim(k) == k || Trim(k) == "" ==> Agree(s, k))
  {
    RunKeepsInv(State(map[], map[]), events);
    var s := Run(events);
    forall c, d | Launched(s, k, c) && Launched(s, k, d) ensures c == d {
      assert Owns(s.calls[c], s.calls[c].phase.exec) && Owns(s.calls[d], s.calls[d].phase.exec);
    }
  }

  /** A call that meets no other execution under its key, from arrival to launch. */
  function Alone(call: int, key: string, id: int): seq<Event> {
    [Arrive(call, Some(key)), Look(call, true), Load(call, true), Create(call, id, true), Begin(call, true)]
  }

  lemma AloneLaunches(s: State, call: int, key: string, id: int)
    requires call !in s.calls && id !in s.stored && Trim(key) != ""
    requires !KeyTaken(s.stored, key) && !KeyTaken(s.stored, Trim(key))
    ensures RunFrom(s, Alone(call, key, id)) ==
            State(s.stored[id := Some(key)], s.calls[call := Call(Some(key), Returned(id, true))])
  {
    var e := Alone(call, key, id);
    var s1 := Next(s, e[0]);
    var s2 := Next(s1, e[1]);
    var s3 := Next(s2, e[2]);
    var s4 := Next(s3, e[3]);
    var s5 := Next(s4, e[4]);
    assert RunFrom(s, e) == RunFrom(s1, e[1..]) == RunFrom(s2, e[2..]) == RunFrom(s3, e[3..])
        == RunFrom(s4, e[4..]) == RunFrom(s5, []);
  }

  lemma {:induction false} RunTogether(s: State, a: seq<Event>, b: seq<Event>)
    ensures RunFrom(s, a + b) == RunFrom(RunFrom(s, a), b)
    decreases |a|
  {
    if a == [] {
      assert a + b == b;
    } else {
      assert (a + b)[1..] == a[1..] + b;
      RunTogether(Next(s, a[0]), a[1..], b);
    }
  }

  /** A key with surrounding white space is stored as it is but looked up trimmed: call 0 creates an
      execution under k, call 1 one under the trimmed key, and call 2 with key k is given the second. */
  lemma UntrimmedDisagrees(k: string) returns (events: seq<Event>)
    requires Trim(k) != k && Trim(k) != ""
    ensures !Agree(Run(events), k)
  {
    var t := Trim(k);
    TrimFixedPoints(k);
    TrimFixedPoints(t);
    var s0 := State(map[], map[]);
    var s1 := State(map[0 := Some(k)], map[0 := Call(Some(k), Returned(0, true))]);
    var s2 := State(s1.stored[1 := Some(t)], s1.calls[1 := Call(Some(t), Returned(1, true))]);
    AloneLaunches(s0, 0, k, 0);
    AloneLaunches(s1, 1, t, 1);
    var last := [Arrive(2, Some(k)), Look(2, true)];
    events := Alone(0, k, 0) + (Alone(1, t, 1) + last);
    RunTogether(s0, Alone(0, k, 0), Alone(1, t, 1) + last);
    RunTogether(s1, Alone(1, t, 1), last);
    var s3 := Next(s2, last[0]);
    var s4 := Next(s3, last[1]);
    assert RunFrom(s2, last) == RunFrom(s3, last[1..]) == RunFrom(s4, []);
    assert s2.stored[1] == Some(t);
    assert KeyTaken(s2.stored, t);
    assert ReturnedTo(s4, k, 0, 0) && ReturnedTo(s4, k, 2, 1);
  }

  /** All callers with key k get the same execution, in every interleaving, exactly when k has no
      surrounding white space or is blank. */
  lemma AgreementIffTrimmed(k: string)
    ensures (forall events :: Agree(Run(events), k)) <==> (Trim(k) == k || Trim(k) == "")
  {
    if Trim(k) == k || Trim(k) == "" {
      forall events ensures Agree(Run(events), k) { Idempotent(events, k); }
    } else {
      var events := UntrimmedDisagrees(k);
    }
  }
}
