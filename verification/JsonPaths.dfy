/** String leaves of JSON objects: reading and writing at a path, and the custom transforms. */
module JsonPaths {
  import opened Values
  import opened Strings

  datatype Error =
    | EmptyPath | EmptySegment | NotAnObject | NotJsonObject
    | AssignsToNilMap  // Go panics: a JSON null decodes to a nil map
    | PathRequired | ParameterRequired

  datatype Result<+T> = Ok(value: T) | Err(error: Error)

  // ---------- reading and writing ----------

  function GetStringAtPath(data: Value, path: string): Option<string> {
    if path == "" then None
    else
      match Lookup(data, Split(path, "."))
      case Some(Str(s)) => Some(s)
      case _ => None
  }

  /** The walk with the loop variable of the source. */
  method GetStringAtPathLoop(data: Value, path: string) returns (r: Option<string>)
    ensures r == GetStringAtPath(data, path)
  {
    if path == "" { return None; }
    var parts := Split(path, ".");
    var current := data;
    for i := 0 to |parts|
      invariant Lookup(data, parts) == Lookup(current, parts[i..])
    {
      if !current.Obj? || parts[i] !in current.fields { return None; }
      assert parts[i..][1..] == parts[i + 1..];
      current := current.fields[parts[i]];
    }
    return if current.Str? then Some(current.s) else None;
  }

  /** Sets a value, creating the objects that are missing on the way. */
  function SetNestedValue(obj: Object, parts: seq<string>, value: Value): Result<Object>
    decreases |parts|
  {
    if parts == [] then Err(EmptyPath)
    else if parts[0] == "" then Err(EmptySegment)
    else if |parts| == 1 then Ok(obj[parts[0] := value])
    else
      var next := if parts[0] in obj then obj[parts[0]] else Obj(map[]);
      if !next.Obj? then Err(NotAnObject)
      else
        match SetNestedValue(next.fields, parts[1..], value)
        case Ok(inner) => Ok(obj[parts[0] := Obj(inner)])
        case Err(e) => Err(e)
  }

  function SetStringAtPath(data: Value, path: string, value: string): Result<Value> {
    if path == "" then Err(EmptyPath)
    else
      match data
      case Obj(fields) =>
        (match SetNestedValue(fields, Split(path, "."), Str(value))
         case Ok(o) => Ok(Obj(o))
         case Err(e) => Err(e))
      case Null => if Split(path, ".")[0] == "" then Err(EmptySegment) else Err(AssignsToNilMap)
      case _ => Err(NotJsonObject)
  }

  // ---------- leaves ----------

  predicate LeafAt(v: Value, p: seq<string>) {
    Lookup(v, p).Some? && Lookup(v, p).value.Str?
  }

  /** v with the string leaf at p replaced. */
  function SetLeaf(v: Value, p: seq<string>, x: string): Value
    requires LeafAt(v, p)
    decreases |p|
  {
    if p == [] then Str(x) else Obj(v.fields[p[0] := SetLeaf(v.fields[p[0]], p[1..], x)])
  }

  predicate NoEmptySegment(p: seq<string>) {
    forall i :: 0 <= i < |p| ==> p[i] != ""
  }

  /** Where a get succeeds, a set succeeds exactly when no segment is empty, and it then does no more
      than replace the leaf. */
  lemma {:induction false} SetReplacesLeaf(v: Value, p: seq<string>, x: string)
    requires p != [] && LeafAt(v, p)
    ensures var r := SetNestedValue(v.fields, p, Str(x));
      && (r.Ok? <==> NoEmptySegment(p))
      && (r.Ok? ==> Obj(r.value) == SetLeaf(v, p, x))
    decreases |p|
  {
    if |p| == 1 {
    } else {
      var inner := v.fields[p[0]];
      SetReplacesLeaf(inner, p[1..], x);
      assert forall i :: 0 < i < |p| ==> p[i] == p[1..][i - 1];
    }
  }

  predicate Related(p: seq<string>, q: seq<string>) {
    p <= q || q <= p
  }

  /** After the leaf at p is set: p leads to the new string, every path that does not run through the
      leaf or towards it leads where it led, and other string leaves stay string leaves. */
  lemma {:induction false} AfterSetLeaf(v: Value, p: seq<string>, x: string, q: seq<string>)
    requires LeafAt(v, p)
    ensures var u := SetLeaf(v, p, x);
      && Lookup(u, p) == Some(Str(x))
      && (!Related(p, q) ==> Lookup(u, q) == Lookup(v, q))
      && (q != p ==> (LeafAt(u, q) <==> LeafAt(v, q)) && (LeafAt(v, q) ==> Lookup(u, q) == Lookup(v, q)))
    decreases |p|
  {
    if p != [] && q != [] {
      var inner := v.fields[p[0]];
      AfterSetLeaf(inner, p[1..], x, q[1..]);
      if q[0] == p[0] {
        assert p == [p[0]] + p[1..] && q == [q[0]] + q[1..];
      }
    } else if p != [] {
      AfterSetLeaf(v.fields[p[0]], p[1..], x, []);
    }
  }

  /** Setting two different leaves commutes. */
  lemma {:induction false} SetLeavesCommute(v: Value, p: seq<string>, x: string, q: seq<string>, y: string)
    requires LeafAt(v, p) && LeafAt(v, q) && p != q
    ensures LeafAt(SetLeaf(v, p, x), q) && LeafAt(SetLeaf(v, q, y), p)
    ensures SetLeaf(SetLeaf(v, p, x), q, y) == SetLeaf(SetLeaf(v, q, y), p, x)
    decreases |p|
  {
    AfterSetLeaf(v, p, x, q);
    AfterSetLeaf(v, q, y, p);
    if p == [] || q == [] || p[0] != q[0] {
    } else {
      assert p == [p[0]] + p[1..] && q == [q[0]] + q[1..];
      SetLeavesCommute(v.fields[p[0]], p[1..], x, q[1..], y);
    }
  }

  /** Nothing but objects, or nothing at all, stands on the way to the last key of p. */
  ghost predicate WayIsOpen(v: Value, p: seq<string>) {
    forall k :: 0 < k < |p| ==> var at := Lookup(v, p[..k]); at == None || at.value.Obj?
  }

  lemma OpenBelow(obj: Object, p: seq<string>)
    requires |p| > 1
    ensures WayIsOpen(Obj(obj), p) <==>
            (p[0] in obj ==> obj[p[0]].Obj? && WayIsOpen(obj[p[0]], p[1..]))
  {
    forall k | 0 < k < |p|
      ensures Lookup(Obj(obj), p[..k]) == if p[0] in obj then Lookup(obj[p[0]], p[1..][..k - 1]) else None
    {
      assert p[..k][1..] == p[1..][..k - 1];
    }
    if p[0] in obj && WayIsOpen(Obj(obj), p) {
      assert p[1..][..0] == [];
      assert Lookup(Obj(obj), p[..1]) == Some(obj[p[0]]);
      forall k | 0 < k < |p[1..]| ensures var at := Lookup(obj[p[0]], p[1..][..k]); at == None || at.value.Obj? {
        assert Lookup(Obj(obj), p[..k + 1]) == Lookup(obj[p[0]], p[1..][..k]);
      }
    }
  }

  /** Setting a value at a path succeeds exactly when no key is empty and the way is open; it creates what is
      missing. Then the path leads to the value, and every path off it leads where it led. */
  lemma {:induction false} SetThenGet(obj: Object, p: seq<string>, x: Value, q: seq<string>)
    requires p != []
    ensures var r := SetNestedValue(obj, p, x);
      && (r.Ok? <==> NoEmptySegment(p) && WayIsOpen(Obj(obj), p))
      && (r.Ok? ==> Lookup(Obj(r.value), p) == Some(x))
      && (r.Ok? && !Related(p, q) ==> Lookup(Obj(r.value), q) == Lookup(Obj(obj), q))
    decreases |p|
  {
    if |p| == 1 {
      assert p[1..] == [];
    } else {
      OpenBelow(obj, p);
      var next := if p[0] in obj then obj[p[0]] else Obj(map[]);
      if next.Obj? {
        var rest := if q == [] then [] else q[1..];
        SetThenGet(next.fields, p[1..], x, rest);
        NothingInTheWay(p[1..]);
        SegmentsOfTail(p);
        if q != [] && q[0] == p[0] { RelatedTails(p, q); }
      }
    }
  }

  lemma RelatedTails(p: seq<string>, q: seq<string>)
    requires p != [] && q != [] && p[0] == q[0]
    ensures Related(p, q) <==> Related(p[1..], q[1..])
  {
    assert p == [p[0]] + p[1..] && q == [q[0]] + q[1..];
  }

  lemma SegmentsOfTail(p: seq<string>)
    requires p != []
    ensures NoEmptySegment(p) <==> p[0] != "" && NoEmptySegment(p[1..])
  {
    assert forall i :: 0 < i < |p| ==> p[i] == p[1..][i - 1];
  }

  lemma NothingInTheWay(p: seq<string>)
    ensures WayIsOpen(Obj(map[]), p)
    ensures forall q: seq<string> :: q != [] ==> Lookup(Obj(map[]), q) == None
  {
  }

  // ---------- the custom transforms ----------

  /** The case mappings of the standard library. */
  datatype Casing = Casing(upper: string -> string, lower: string -> string)

  /** A transform with its parameters; a missing or non-string parameter is the empty string. */
  datatype Transform =
    | RemoveCharacters(path: string, characters: string)
    | AddPrefix(path: string, prefix: string)
    | AddSuffix(path: string, suffix: string)
    | ToUppercase(path: string)
    | ToLowercase(path: string)
  {
    predicate Parameterised() {
      match this
      case RemoveCharacters(_, c) => Trim(c) != ""
      case AddPrefix(_, p) => p != ""
      case AddSuffix(_, s) => s != ""
      case _ => true
    }

    function Edit(lib: Casing, s: string): string {
      match this
      case RemoveCharacters(_, c) => Without(s, c)
      case AddPrefix(_, p) => p + s
      case AddSuffix(_, t) => s + t
      case ToUppercase(_) => lib.upper(s)
      case ToLowercase(_) => lib.lower(s)
    }
  }

  function Without(s: string, characters: string): (r: string)
    ensures forall c :: multiset(r)[c] == if c in characters then 0 else multiset(s)[c]
  {
    if s == "" then ""
    else
      assert s == [s[0]] + s[1..];
      (if s[0] in characters then [] else [s[0]]) + Without(s[1..], characters)
  }

  /** What is kept stays in order: the parts of a string are edited one after the other. */
  lemma {:induction false} WithoutOfParts(s: string, t: string, characters: string)
    ensures Without(s + t, characters) == Without(s, characters) + Without(t, characters)
    decreases |s|
  {
    if s == "" {
      assert s + t == t;
    } else {
      assert (s + t)[1..] == s[1..] + t;
      WithoutOfParts(s[1..], t, characters);
    }
  }

  function Apply(lib: Casing, t: Transform, data: Value): Result<Value> {
    if t.path == "" then Err(PathRequired)
    else if !t.Parameterised() then Err(ParameterRequired)
    else
      match GetStringAtPath(data, t.path)
      case None => Ok(data)
      case Some(s) => SetStringAtPath(data, t.path, t.Edit(lib, s))
  }

  function Then(lib: Casing, r: Result<Value>, t: Transform): Result<Value> {
    if r.Ok? then Apply(lib, t, r.value) else r
  }

  /** A transform in terms of leaves: the identity without a string leaf at its path, an error where
      the path has an empty segment, else the edited leaf. */
  lemma ApplyOnLeaf(lib: Casing, t: Transform, data: Value)
    requires t.path != "" && t.Parameterised()
    ensures var p := Split(t.path, ".");
      Apply(lib, t, data) ==
        if !LeafAt(data, p) then Ok(data)
        else if !NoEmptySegment(p) then Err(EmptySegment)
        else Ok(SetLeaf(data, p, t.Edit(lib, Lookup(data, p).value.s)))
  {
    var p := Split(t.path, ".");
    if LeafAt(data, p) {
      var x := t.Edit(lib, Lookup(data, p).value.s);
      SetReplacesLeaf(data, p, x);
      OnlySegmentErrors(data, p, x);
    }
  }

  lemma {:induction false} OnlySegmentErrors(v: Value, p: seq<string>, x: string)
    requires p != [] && LeafAt(v, p)
    ensures var r := SetNestedValue(v.fields, p, Str(x)); r.Err? ==> r.error == EmptySegment
    decreases |p|
  {
    if |p| == 1 {
    } else {
      OnlySegmentErrors(v.fields[p[0]], p[1..], x);
    }
  }

  /** What a transform makes of the string at its path, seen through a read of the result. */
  ghost predicate Makes(lib: Casing, t: Transform, before: string, after: string) {
    match t
    case AddPrefix(_, p) => |after| == |p| + |before| && after[..|p|] == p && after[|p|..] == before
    case AddSuffix(_, u) => |after| == |before| + |u| && after[..|before|] == before && after[|before|..] == u
    case ToUppercase(_) => after == lib.upper(before)
    case ToLowercase(_) => after == lib.lower(before)
    case RemoveCharacters(_, cs) =>
      forall c :: multiset(after)[c] == if c in cs then 0 else multiset(before)[c]
  }

  /** A transform whose parameters are given edits the string that a read finds at its path; a read of the
      result finds the edited string. Without a string there the data stay; without a path or a parameter it
      refuses. */
  lemma TransformMeaning(lib: Casing, t: Transform, data: Value)
    ensures var r := Apply(lib, t, data);
      && (t.path == "" ==> r == Err(PathRequired))
      && (t.path != "" && MissesParameter(t) ==> r == Err(ParameterRequired))
      && (t.path != "" && !MissesParameter(t) && GetStringAtPath(data, t.path) == None ==> r == Ok(data))
      && (forall s :: t.path != "" && !MissesParameter(t) && GetStringAtPath(data, t.path) == Some(s) && r.Ok? ==>
            exists x :: GetStringAtPath(r.value, t.path) == Some(x) && Makes(lib, t, s, x))
  {
    if t.path != "" && t.Parameterised() && GetStringAtPath(data, t.path).Some? {
      ApplyOnLeaf(lib, t, data);
      var p, s := Split(t.path, "."), GetStringAtPath(data, t.path).value;
      AfterSetLeaf(data, p, t.Edit(lib, s), p);
      EditMakes(lib, t, s);
    }
  }

  predicate MissesParameter(t: Transform) {
    match t
    case RemoveCharacters(_, cs) => Trim(cs) == ""
    case AddPrefix(_, p) => p == ""
    case AddSuffix(_, u) => u == ""
    case _ => false
  }

  lemma EditMakes(lib: Casing, t: Transform, s: string)
    ensures Makes(lib, t, s, t.Edit(lib, s))
  {
  }

  /** The outcome of either order: the same data, or an error both ways. */
  predicate SameOutcome(a: Result<Value>, b: Result<Value>) {
    if a.Ok? then b == a else b.Err?
  }

  lemma SplitIsInjective(a: string, b: string)
    requires Split(a, ".") == Split(b, ".")
    ensures a == b
  {
    SplitThenJoin(a, ".");
    SplitThenJoin(b, ".");
  }

  /** The leaf at p, if there is one, edited by t. */
  function Edited(lib: Casing, t: Transform, data: Value): Value
    requires t.path != ""
  {
    var p := Split(t.path, ".");
    if LeafAt(data, p) then SetLeaf(data, p, t.Edit(lib, Lookup(data, p).value.s)) else data
  }

  /** A leaf at a path with an empty segment cannot be set. */
  predicate Unsettable(t: Transform, data: Value)
    requires t.path != ""
  {
    LeafAt(data, Split(t.path, ".")) && !NoEmptySegment(Split(t.path, "."))
  }

  /** An edit leaves the leaves at other paths alone. */
  lemma EditsElsewhere(lib: Casing, t: Transform, u: Transform, data: Value)
    requires t.path != "" && u.path != "" && t.path != u.path
    ensures var q := Split(u.path, ".");
      && (LeafAt(Edited(lib, t, data), q) <==> LeafAt(data, q))
      && (LeafAt(data, q) ==> Lookup(Edited(lib, t, data), q) == Lookup(data, q))
  {
    var p, q := Split(t.path, "."), Split(u.path, ".");
    if p == q { SplitIsInjective(t.path, u.path); }
    if LeafAt(data, p) {
      AfterSetLeaf(data, p, t.Edit(lib, Lookup(data, p).value.s), q);
    }
  }

  lemma InOrder(lib: Casing, t: Transform, u: Transform, data: Value)
    requires t.path != "" && u.path != "" && t.path != u.path && t.Parameterised() && u.Parameterised()
    ensures Then(lib, Apply(lib, t, data), u) ==
      if Unsettable(t, data) || Unsettable(u, data) then Err(EmptySegment)
      else Ok(Edited(lib, u, Edited(lib, t, data)))
  {
    ApplyOnLeaf(lib, t, data);
    EditsElsewhere(lib, t, u, data);
    ApplyOnLeaf(lib, u, Edited(lib, t, data));
  }

  lemma EditsCommute(lib: Casing, t: Transform, u: Transform, data: Value)
    requires t.path != "" && u.path != "" && t.path != u.path
    ensures Edited(lib, u, Edited(lib, t, data)) == Edited(lib, t, Edited(lib, u, data))
  {
    EditsElsewhere(lib, t, u, data);
    EditsElsewhere(lib, u, t, data);
    var p, q := Split(t.path, "."), Split(u.path, ".");
    if p == q { SplitIsInjective(t.path, u.path); }
    if LeafAt(data, p) && LeafAt(data, q) {
      SetLeavesCommute(data, p, t.Edit(lib, Lookup(data, p).value.s), q, u.Edit(lib, Lookup(data, q).value.s));
    }
  }

  /** Custom transforms at distinct paths commute on every JSON value. */
  lemma TransformsCommute(lib: Casing, t: Transform, u: Transform, data: Value)
    requires t.path != u.path
    ensures SameOutcome(Then(lib, Apply(lib, t, data), u), Then(lib, Apply(lib, u, data), t))
  {
    if t.path != "" && u.path != "" && t.Parameterised() && u.Parameterised() {
      InOrder(lib, t, u, data);
      InOrder(lib, u, t, data);
      EditsCommute(lib, t, u, data);
    }
  }

  lemma {:induction false} SetLeafTwice(v: Value, p: seq<string>, x: string, y: string)
    requires LeafAt(v, p)
    ensures LeafAt(SetLeaf(v, p, x), p)
    ensures SetLeaf(SetLeaf(v, p, x), p, y) == SetLeaf(v, p, y)
    decreases |p|
  {
    AfterSetLeaf(v, p, x, p);
    if p == [] {
    } else {
      SetLeafTwice(v.fields[p[0]], p[1..], x, y);
    }
  }

  /** At one path with a string leaf, two transforms commute exactly when their edits do. */
  lemma SamePathCommutesIff(lib: Casing, t: Transform, u: Transform, data: Value)
    requires t.path == u.path != "" && t.Parameterised() && u.Parameterised()
    requires LeafAt(data, Split(t.path, ".")) && NoEmptySegment(Split(t.path, "."))
    ensures var s := Lookup(data, Split(t.path, ".")).value.s;
      SameOutcome(Then(lib, Apply(lib, t, data), u), Then(lib, Apply(lib, u, data), t))
      <==> t.Edit(lib, u.Edit(lib, s)) == u.Edit(lib, t.Edit(lib, s))
  {
    var p := Split(t.path, ".");
    var s := Lookup(data, p).value.s;
    var x, y := t.Edit(lib, s), u.Edit(lib, s);
    ApplyOnLeaf(lib, t, data);
    ApplyOnLeaf(lib, u, data);
    AfterSetLeaf(data, p, x, p);
    AfterSetLeaf(data, p, y, p);
    ApplyOnLeaf(lib, u, SetLeaf(data, p, x));
    ApplyOnLeaf(lib, t, SetLeaf(data, p, y));
    SetLeafTwice(data, p, x, u.Edit(lib, x));
    SetLeafTwice(data, p, y, t.Edit(lib, y));
    AfterSetLeaf(data, p, u.Edit(lib, x), p);
    AfterSetLeaf(data, p, t.Edit(lib, y), p);
  }
}
