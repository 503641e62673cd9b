/** Double-checked creation under a read lock and a write lock: the breaker map and the spec cache. */
module DoubleChecked {
  import opened Values

  /** One caller of get-or-create: it looks under the read lock, and when it misses, looks again and
      creates under the write lock. */
  datatype Caller<T> = Looking(key: string) | Missed(key: string) | Holding(key: string, item: T) | Refused(key: string)

  /** `made` lists every item ever created, with its key. */
  datatype State<T> = State(items: map<string, T>, made: seq<(string, T)>, callers: map<int, Caller<T>>)

  /** Atomic steps: a lock-protected section each. `built` is what creation would give, None when it
      fails (a spec that does not compile). Clear replaces the map. */
  datatype Event<T> =
    | Arrive(caller: int, key: string)
    | LookUp(caller: int)
    | LookAgain(caller: int, built: Option<T>)
    | Clear

  function Next<T>(s: State<T>, e: Event<T>): State<T> {
    match e
    case Arrive(c, key) => if c in s.callers then s else s.(callers := s.callers[c := Looking(key)])
    case LookUp(c) =>
      if c !in s.callers || !s.callers[c].Looking? then s
      else
        var key := s.callers[c].key;
        s.(callers := s.callers[c := if key in s.items then Holding(key, s.items[key]) else Missed(key)])
    case LookAgain(c, built) =>
      if c !in s.callers || !s.callers[c].Missed? then s
      else
        var key := s.callers[c].key;
        if key in s.items then s.(callers := s.callers[c := Holding(key, s.items[key])])
        else if built.None? then s.(callers := s.callers[c := Refused(key)])
        else
          State(s.items[key := built.value], s.made + [(key, built.value)],
                s.callers[c := Holding(key, built.value)])
    case Clear => s.(items := map[])
  }

  function RunFrom<T>(s: State<T>, events: seq<Event<T>>): State<T>
    decreases |events|
  {
    if events == [] then s else RunFrom(Next(s, events[0]), events[1..])
  }

  function Run<T>(events: seq<Event<T>>): State<T> {
    RunFrom(State(map[], [], map[]), events)
  }

  /** Clearing leaves nothing to be found, and everything else alone. */
  lemma ClearEmpties<T>(s: State<T>)
    ensures Next(s, Clear) == State(map[], s.made, s.callers)
  {
  }

  /** A caller that finds the item at the first look has it, without a second look. */
  lemma FirstLook<T(!new)>(s: State<T>, c: int, key: string)
    requires c in s.callers && s.callers[c] == Looking(key)
    ensures var t := Next(s, LookUp(c));
      && t.items == s.items && t.made == s.made && c in t.callers
      && t.callers[c] == if key in s.items then Holding(key, s.items[key]) else Missed(key)
  {
  }

  /** A caller that looks and then looks again comes away with the item that is there, with the one it builds
      when there is none, or refused exactly when there is none and none can be built. */
  lemma CallerEnds<T(!new)>(s: State<T>, c: int, key: string, built: Option<T>)
    requires c !in s.callers
    ensures var t := Next(Next(Next(s, Arrive(c, key)), LookUp(c)), LookAgain(c, built));
      && c in t.callers
      && (key in s.items ==> t.callers[c] == Holding(key, s.items[key]) && t.items == s.items && t.made == s.made)
      && (key !in s.items && built.Some? ==>
            && t.callers[c] == Holding(key, built.value) && t.items == s.items[key := built.value]
            && t.made == s.made + [(key, built.value)])
      && (key !in s.items && built.None? ==> t.callers[c] == Refused(key) && t.items == s.items && t.made == s.made)
  {
  }

  // ---------- breakers: never cleared ----------

  predicate NeverClears<T>(events: seq<Event<T>>) {
    forall i :: 0 <= i < |events| ==> !events[i].Clear?
  }

  ghost predicate OnePerKey<T(!new)>(s: State<T>) {
    && (forall i :: 0 <= i < |s.made| ==> s.made[i].0 in s.items && s.items[s.made[i].0] == s.made[i].1)
    && (forall i, j :: 0 <= i < j < |s.made| ==> s.made[i].0 != s.made[j].0)
    && (forall c :: c in s.callers && s.callers[c].Holding? ==>
          s.callers[c].key in s.items && s.items[s.callers[c].key] == s.callers[c].item)
    && forall k :: k in s.items ==> (k, s.items[k]) in s.made
  }

  /** A caller that came to hold what the map has, or that holds nothing. */
  lemma CallerKeepsOnePerKey<T(!new)>(s: State<T>, c: int, caller: Caller<T>)
    requires OnePerKey(s)
    requires caller.Holding? ==> caller.key in s.items && s.items[caller.key] == caller.item
    ensures OnePerKey(s.(callers := s.callers[c := caller]))
  {
  }

  lemma MakingKeepsOnePerKey<T(!new)>(s: State<T>, key: string, item: T)
    requires OnePerKey(s) && key !in s.items
    ensures OnePerKey(State(s.items[key := item], s.made + [(key, item)], s.callers))
  {
    var t := State(s.items[key := item], s.made + [(key, item)], s.callers);
    assert t.made[|s.made|] == (key, item);
    forall k | k in t.items ensures (k, t.items[k]) in t.made {
      if k != key { assert (k, s.items[k]) in s.made; }
    }
  }

  lemma StepKeepsOnePerKey<T(!new)>(s: State<T>, e: Event<T>)
    requires OnePerKey(s) && !e.Clear?
    ensures OnePerKey(Next(s, e))
  {
    var t := Next(s, e);
    if t == s { return; }
    match e
    case Arrive(c, key) => CallerKeepsOnePerKey(s, c, t.callers[c]);
    case LookUp(c) => CallerKeepsOnePerKey(s, c, t.callers[c]);
    case LookAgain(c, built) =>
      var key := s.callers[c].key;
      if key in s.items || built.None? {
        CallerKeepsOnePerKey(s, c, t.callers[c]);
      } else {
        MakingKeepsOnePerKey(s, key, built.value);
        CallerKeepsOnePerKey(State(t.items, t.made, s.callers), c, t.callers[c]);
      }
  }

  lemma {:induction false} RunKeepsOnePerKey<T(!new)>(s: State<T>, events: seq<Event<T>>)
    requires OnePerKey(s) && NeverClears(events)
    ensures OnePerKey(RunFrom(s, events))
    decreases |events|
  {
    if events == [] {
    } else {
      StepKeepsOnePerKey(s, events[0]);
      RunKeepsOnePerKey(Next(s, events[0]), events[1..]);
    }
  }

  predicate Holds<T(==)>(s: State<T>, c: int, key: string, item: T) {
    c in s.callers && s.callers[c] == Holding(key, item)
  }

  /** Whatever the interleaving, at most one breaker is ever made per id, and all callers with that id
      hold it. */
  lemma OneBreakerPerId<T(!new)>(events: seq<Event<T>>)
    requires NeverClears(events)
    ensures var s := Run(events);
      && (forall i, j :: 0 <= i < j < |s.made| ==> s.made[i].0 != s.made[j].0)
      && (forall c, d, k, x, y :: Holds(s, c, k, x) && Holds(s, d, k, y) ==> x == y)
      && (forall c, k, x :: Holds(s, c, k, x) ==> (k, x) in s.made)
  {
    RunKeepsOnePerKey(State(map[], [], map[]), events);
  }

  // ---------- the transform cache: cleared at any time ----------

  /** Creation is compilation of the key: every attempt gives what `compile` gives. */
  predicate Compiles<T(==)>(compile: string -> Option<T>, s: State<T>, e: Event<T>) {
    match e
    case LookAgain(c, built) => c in s.callers ==> built == compile(s.callers[c].key)
    case _ => true
  }

  ghost predicate AllCompile<T>(compile: string -> Option<T>, s: State<T>, events: seq<Event<T>>)
    decreases |events|
  {
    events == [] || (Compiles(compile, s, events[0]) && AllCompile(compile, Next(s, events[0]), events[1..]))
  }

  ghost predicate Faithful<T(!new)>(compile: string -> Option<T>, s: State<T>) {
    && (forall k :: k in s.items ==> compile(k) == Some(s.items[k]))
    && forall c :: c in s.callers ==>
         && (s.callers[c].Holding? ==> compile(s.callers[c].key) == Some(s.callers[c].item))
         && (s.callers[c].Refused? ==> compile(s.callers[c].key) == None)
  }

  /** Also with the cache cleared at any time: a cached transform equals a fresh compilation of its own
      spec, a caller gets that compilation or, exactly for a spec that does not compile, a refusal;
      failed compilations are never cached. */
  lemma {:induction false} CacheIsFaithful<T(!new)>(compile: string -> Option<T>, s: State<T>, events: seq<Event<T>>)
    requires Faithful(compile, s) && AllCompile(compile, s, events)
    ensures Faithful(compile, RunFrom(s, events))
    decreases |events|
  {
    if events == [] {
    } else {
      CacheIsFaithful(compile, Next(s, events[0]), events[1..]);
    }
  }
}
