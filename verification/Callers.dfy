/** What each concurrent caller of Execute gets: who is refused, who launches, who is given the execution of
    another call. */
module Callers {
  import opened Values
  import opened Strings
  import opened Idempotency

  predicate About(e: Event, c: int) {
    match e
    case Arrive(d, _) => d == c
    case Look(d, _) => d == c
    case Load(d, _) => d == c
    case Create(d, _, _) => d == c
    case Resolve(d, _) => d == c
    case Begin(d, _) => d == c
  }

  predicate Denies(e: Event, c: int) {
    About(e, c) && match e
                   case Arrive(_, _) => false
                   case Look(_, ok) => !ok
                   case Load(_, ok) => !ok
                   case Create(_, _, ok) => !ok
                   case Resolve(_, ok) => !ok
                   case Begin(_, ok) => !ok
  }

  /** One of the call's own steps met a failure outside. */
  ghost predicate Denied(events: seq<Event>, c: int) {
    exists i :: 0 <= i < |events| && Denies(events[i], c)
  }

  // ---------- the calls one by one ----------

  predicate Stands(s: State, c: int, call: Call) {
    c in s.calls && s.calls[c] == call
  }

  /** Steps of other calls leave a call where it is, and only add executions. */
  lemma StepOfAnother(s: State, e: Event, c: int)
    requires !About(e, c)
    ensures var t := Next(s, e);
      && (c in s.calls <==> c in t.calls) && (c in s.calls ==> t.calls[c] == s.calls[c])
      && forall i :: i in s.stored ==> i in t.stored && t.stored[i] == s.stored[i]
  {
  }

  ghost predicate NoneAbout(events: seq<Event>, c: int) {
    forall i :: 0 <= i < |events| ==> !About(events[i], c)
  }

  lemma {:induction false} StepsOfOthers(s: State, events: seq<Event>, c: int)
    requires NoneAbout(events, c)
    ensures var t := RunFrom(s, events);
      && (c in s.calls <==> c in t.calls) && (c in s.calls ==> t.calls[c] == s.calls[c])
      && forall i :: i in s.stored ==> i in t.stored && t.stored[i] == s.stored[i]
    decreases |events|
  {
    if events == [] {
    } else {
      StepOfAnother(s, events[0], c);
      StepsOfOthers(Next(s, events[0]), events[1..], c);
    }
  }

  lemma RunOne(s: State, e: Event)
    ensures RunFrom(s, [e]) == Next(s, e)
  {
    assert [e][1..] == [];
  }

  /** What the steps of a call do when nothing fails: it arrives, looks its trimmed key up if it has one, loads
      the workflow, and creates; each of them is refused when it fails. */
  lemma OwnSteps(s: State, c: int, key: Option<string>)
    ensures c !in s.calls ==>
      Stands(Next(s, Arrive(c, key)), c,
             Call(key, if key == None || Trim(key.value) == "" then Loading else Looking))
    ensures Stands(s, c, Call(key, Looking)) && key.Some? && !KeyTaken(s.stored, Trim(key.value)) ==>
      Stands(Next(s, Look(c, true)), c, Call(key, Loading))
    ensures Stands(s, c, Call(key, Loading)) ==> Stands(Next(s, Load(c, true)), c, Call(key, Creating))
    ensures Stands(s, c, Call(key, Looking)) && key.Some? ==> Stands(Next(s, Look(c, false)), c, Call(key, Rejected))
    ensures Stands(s, c, Call(key, Loading)) ==> Stands(Next(s, Load(c, false)), c, Call(key, Rejected))
    ensures forall id :: Stands(s, c, Call(key, Creating)) && id !in s.stored ==>
      Next(s, Create(c, id, false)) == s.(calls := s.calls[c := Call(key, Rejected)])
    ensures Stands(s, c, Call(key, Resolving)) && key.Some? ==>
      Stands(Next(s, Resolve(c, false)), c, Call(key, Rejected))
    ensures forall id :: Stands(s, c, Call(key, Starting(id))) ==>
      Stands(Next(s, Begin(c, false)), c, Call(key, Rejected))
  {
  }

  /** A call that creates an execution under a key that nobody holds, or without one, starts and launches it,
      whatever other calls do in between; the execution carries the key as given. */
  lemma CreatorLaunches(s: State, c: int, key: Option<string>, id: int, others: seq<Event>)
    requires Stands(s, c, Call(key, Creating)) && id !in s.stored && NoneAbout(others, c)
    requires key == None || !KeyTaken(s.stored, key.value)
    ensures var created := Next(s, Create(c, id, true));
      var begun := Next(RunFrom(created, others), Begin(c, true));
      && created.stored == s.stored[id := key] && Stands(created, c, Call(key, Starting(id)))
      && Stands(begun, c, Call(key, Returned(id, true))) && begun.stored == RunFrom(created, others).stored
  {
    StepsOfOthers(Next(s, Create(c, id, true)), others, c);
  }

  lemma LookedUp(s: State, k: string, e: int)
    requires Inv(s) && e in s.stored && s.stored[e] == Some(k)
    ensures FindByKey(s.stored, k) == Some(e)
  {
    assert KeyTaken(s.stored, k);
  }

  /** A caller whose key has an execution, stored under the trimmed key, is given that one by the lookup,
      whatever other calls do in between; it launches nothing. */
  lemma LookupReturnsStored(s: State, c: int, k: string, e: int, others: seq<Event>)
    requires Inv(s) && Stands(s, c, Call(Some(k), Looking))
    requires e in s.stored && s.stored[e] == Some(Trim(k)) && NoneAbout(others, c)
    ensures Stands(RunFrom(s, others + [Look(c, true)]), c, Call(Some(k), Returned(e, false)))
  {
    StepsOfOthers(s, others, c);
    RunKeepsInv(s, others);
    var t := RunFrom(s, others);
    RunTogether(s, others, [Look(c, true)]);
    RunOne(t, Look(c, true));
    LookedUp(t, Trim(k), e);
  }

  /** A caller that loses the race for the insert resolves the conflict: with a trimmed key it is given the
      execution stored under the key, whatever other calls do in between, launches nothing and stores
      nothing. */
  lemma LoserGetsStored(s: State, c: int, k: string, e: int, id: int, before: seq<Event>, after: seq<Event>)
    requires Inv(s) && Stands(s, c, Call(Some(k), Creating)) && Trim(k) == k != ""
    requires e in s.stored && s.stored[e] == Some(k) && NoneAbout(before, c) && NoneAbout(after, c)
    requires id !in RunFrom(s, before).stored
    ensures var lost := RunFrom(s, before + [Create(c, id, true)]);
      && Stands(lost, c, Call(Some(k), Resolving)) && lost.stored == RunFrom(s, before).stored
      && Stands(RunFrom(lost, after + [Resolve(c, true)]), c, Call(Some(k), Returned(e, false)))
      && RunFrom(lost, after + [Resolve(c, true)]).stored == RunFrom(lost, after).stored
  {
    StepsOfOthers(s, before, c);
    RunKeepsInv(s, before);
    var t := RunFrom(s, before);
    RunTogether(s, before, [Create(c, id, true)]);
    RunOne(t, Create(c, id, true));
    assert KeyTaken(t.stored, k);
    var lost := Next(t, Create(c, id, true));
    RunKeepsInv(t, [Create(c, id, true)]);
    ResolvesToStored(lost, c, k, e, after);
  }

  lemma ResolvesToStored(s: State, c: int, k: string, e: int, after: seq<Event>)
    requires Inv(s) && Stands(s, c, Call(Some(k), Resolving)) && Trim(k) == k
    requires e in s.stored && s.stored[e] == Some(k) && NoneAbout(after, c)
    ensures var t := RunFrom(s, after + [Resolve(c, true)]);
      Stands(t, c, Call(Some(k), Returned(e, false))) && t.stored == RunFrom(s, after).stored
  {
    StepsOfOthers(s, after, c);
    RunKeepsInv(s, after);
    var t := RunFrom(s, after);
    RunTogether(s, after, [Resolve(c, true)]);
    RunOne(t, Resolve(c, true));
    LookedUp(t, k, e);
  }

  /** A caller without a key is never looked up and never in a race: it creates its own execution and
      launches it, whatever other calls do in between. */
  lemma KeylessLaunches(s: State, c: int, id: int, a: seq<Event>, b: seq<Event>, d: seq<Event>)
    requires c !in s.calls && NoneAbout(a, c) && NoneAbout(b, c) && NoneAbout(d, c)
    requires var arrived := Next(s, Arrive(c, None));
      var loaded := Next(RunFrom(arrived, a), Load(c, true)); id !in RunFrom(loaded, b).stored
    ensures var arrived := Next(s, Arrive(c, None));
      var loaded := Next(RunFrom(arrived, a), Load(c, true));
      var created := Next(RunFrom(loaded, b), Create(c, id, true));
      var begun := Next(RunFrom(created, d), Begin(c, true));
      Stands(begun, c, Call(None, Returned(id, true))) && id in begun.stored && begun.stored[id] == None
  {
    var arrived := Next(s, Arrive(c, None));
    StepsOfOthers(arrived, a, c);
    var loaded := Next(RunFrom(arrived, a), Load(c, true));
    StepsOfOthers(loaded, b, c);
    CreatorLaunches(RunFrom(loaded, b), c, None, id, d);
    StepsOfOthers(Next(RunFrom(loaded, b), Create(c, id, true)), d, c);
  }

  // ---------- who is refused ----------

  /** Why a call may be refused without a failure outside: its key is stored as given, but a lookup under the
      trimmed key cannot find that. */
  predicate KeyOutOfReach(s: State, key: Option<string>) {
    key.Some? && (Trim(key.value) == "" || Trim(key.value) != key.value) && KeyTaken(s.stored, key.value)
  }

  /** A refused call met a failure of its own or has a key out of reach; one that lost the race has a key
      that is taken. */
  ghost predicate Justified(s: State, past: seq<Event>, c: int)
    requires c in s.calls
  {
    && (s.calls[c].phase == Rejected ==> Denied(past, c) || KeyOutOfReach(s, s.calls[c].key))
    && (s.calls[c].phase == Resolving ==> s.calls[c].key.Some? && KeyTaken(s.stored, s.calls[c].key.value))
  }

  ghost predicate AllJustified(s: State, past: seq<Event>) {
    forall c :: c in s.calls ==> Justified(s, past, c)
  }

  lemma DeniedStays(past: seq<Event>, e: Event, c: int)
    ensures Denied(past, c) ==> Denied(past + [e], c)
    ensures Denies(e, c) ==> Denied(past + [e], c)
  {
    var all := past + [e];
    if i :| 0 <= i < |past| && Denies(past[i], c) { assert Denies(all[i], c); }
    if Denies(e, c) { assert Denies(all[|past|], c); }
  }

  lemma TakenStays(s: State, e: Event, k: string)
    requires KeyTaken(s.stored, k)
    ensures KeyTaken(Next(s, e).stored, k)
  {
    var i :| i in s.stored && s.stored[i] == Some(k);
    assert i in Next(s, e).stored && Next(s, e).stored[i] == Some(k);
  }

  lemma OtherStaysJustified(s: State, past: seq<Event>, e: Event, c: int)
    requires c in s.calls && Justified(s, past, c) && !About(e, c)
    ensures c in Next(s, e).calls && Justified(Next(s, e), past + [e], c)
  {
    StepOfAnother(s, e, c);
    DeniedStays(past, e, c);
    var key := s.calls[c].key;
    if key.Some? && KeyTaken(s.stored, key.value) { TakenStays(s, e, key.value); }
  }

  /** A step of the call itself: it refuses only for a failure, or for a key out of reach. */
  lemma OwnStepJustified(s: State, past: seq<Event>, e: Event, c: int)
    requires (c in s.calls ==> Justified(s, past, c)) && About(e, c) && c in Next(s, e).calls
    ensures Justified(Next(s, e), past + [e], c)
  {
    DeniedStays(past, e, c);
    if c in s.calls && s.calls[c].key.Some? && KeyTaken(s.stored, s.calls[c].key.value) {
      TakenStays(s, e, s.calls[c].key.value);
    }
  }

  lemma StepKeepsJustified(s: State, past: seq<Event>, e: Event)
    requires AllJustified(s, past)
    ensures AllJustified(Next(s, e), past + [e])
  {
    forall c | c in Next(s, e).calls ensures Justified(Next(s, e), past + [e], c) {
      if About(e, c) {
        OwnStepJustified(s, past, e, c);
      } else {
        StepOfAnother(s, e, c);
        OtherStaysJustified(s, past, e, c);
      }
    }
  }

  lemma {:induction false} RunKeepsJustified(s: State, past: seq<Event>, events: seq<Event>)
    requires AllJustified(s, past)
    ensures AllJustified(RunFrom(s, events), past + events)
    decreases |events|
  {
    if events == [] {
      assert past + events == past;
    } else {
      StepKeepsJustified(s, past, events[0]);
      RunKeepsJustified(Next(s, events[0]), past + [events[0]], events[1..]);
      assert past + [events[0]] + events[1..] == past + events;
    }
  }

  /** In every interleaving: a caller without a key, or with one that is trimmed and not blank, is refused
      only if one of its own steps met a failure outside. Any other key can also be refused because it is
      stored as given and looked up trimmed. */
  lemma RefusedForAReason(events: seq<Event>, c: int)
    requires c in Run(events).calls && Run(events).calls[c].phase == Rejected
    ensures var key := Run(events).calls[c].key;
      && (key == None || (Trim(key.value) == key.value != "") ==> Denied(events, c))
      && (Denied(events, c) || KeyTaken(Run(events).stored, key.value))
  {
    RunKeepsJustified(State(map[], map[]), [], events);
    assert [] + events == events;
    assert Justified(Run(events), events, c);
  }
}
