/** Finding the fields of a request body that the decoded structure did not keep. */
module UnknownFields {
  import opened Values

  /** Numeric zeros are not reported. */
  predicate Zero(v: Value) {
    v == Float64(Finite(0.0))
  }

  // ---------- the difference as a value ----------

  /** What is missing of `original` in `marshaled`; None when nothing is. */
  function FieldDiff(original: Value, marshaled: Value): Option<Value>
    decreases original, 1
  {
    match original
    case Obj(_) =>
      if !marshaled.Obj? then Some(original)
      else
        var d := Unknown(original, marshaled.fields);
        if d == map[] then None else Some(Obj(d))
    case Arr(items) =>
      if !marshaled.Arr? then Some(original)
      else
        var d := SliceDiff(original, marshaled.items, 0) + Surplus(items, marshaled.items);
        if d == [] then None else Some(Arr(d))
    case _ => if original == marshaled then None else Some(original)
  }

  /** The entry reported for one key, if any. */
  function KeyDiff(value: Value, marshaled: Object, key: string): Option<Value>
    decreases value, 2
  {
    if Zero(value) then None
    else if key !in marshaled then Some(value)
    else FieldDiff(value, marshaled[key])
  }

  /** The keys of an object that are not, or not wholly, in `marshaled`, with what is missing. */
  function Unknown(original: Value, marshaled: Object): Object
    requires original.Obj?
    decreases original, 0
  {
    map k | k in original.fields && KeyDiff(original.fields[k], marshaled, k).Some?
      :: KeyDiff(original.fields[k], marshaled, k).value
  }

  /** What is reported for one array item: an object facing a non-object is let through. */
  function ItemDiff(item: Value, other: Value): seq<Value>
    decreases item, 2
  {
    if item.Obj? then
      if !other.Obj? then []
      else
        var d := Unknown(item, other.fields);
        if d == map[] then [] else [Obj(d)]
    else if item == other then [] else [item]
  }

  function SliceDiff(original: Value, marshaled: seq<Value>, i: nat): seq<Value>
    requires original.Arr? && i <= |original.items|
    decreases original, 0, |original.items| - i
  {
    if i == |original.items| then []
    else
      (if i < |marshaled| then ItemDiff(original.items[i], marshaled[i]) else [original.items[i]])
      + SliceDiff(original, marshaled, i + 1)
  }

  function Surplus(items: seq<Value>, marshaled: seq<Value>): seq<Value> {
    if |items| < |marshaled| then marshaled[|items|..] else []
  }

  // ---------- the loops ----------

  method FindUnknownFields(original: Value, marshaled: Object) returns (diffFields: Object)
    requires original.Obj?
    ensures diffFields == Unknown(original, marshaled)
    decreases original, 0
  {
    diffFields := map[];
    var keys := original.fields.Keys;
    while keys != {}
      invariant keys <= original.fields.Keys
      invariant diffFields == map k | k in original.fields && k !in keys
        && KeyDiff(original.fields[k], marshaled, k).Some? :: KeyDiff(original.fields[k], marshaled, k).value
      decreases |keys|
    {
      var key :| key in keys;
      keys := keys - {key};
      var value := original.fields[key];
      if Zero(value) { continue; }
      if key !in marshaled {
        diffFields := diffFields[key := value];
        continue;
      }
      var diff := CompareFieldValues(value, marshaled[key]);
      if diff.Some? { diffFields := diffFields[key := diff.value]; }
    }
  }

  method CompareFieldValues(original: Value, marshaled: Value) returns (diff: Option<Value>)
    ensures diff == FieldDiff(original, marshaled)
    decreases original, 1
  {
    match original
    case Obj(_) =>
      if !marshaled.Obj? { return Some(original); }
      var nested := FindUnknownFields(original, marshaled.fields);
      return if |nested| > 0 then Some(Obj(nested)) else None;
    case Arr(_) =>
      if !marshaled.Arr? { return Some(original); }
      var arrayDiff := CompareSlices(original, marshaled.items);
      return if |arrayDiff| > 0 then Some(Arr(arrayDiff)) else None;
    case _ =>
      return if original == marshaled then None else Some(original);
  }

  /** What is reported for item i. */
  function DiffAt(original: Value, marshaled: seq<Value>, i: nat): seq<Value>
    requires original.Arr? && i < |original.items|
  {
    if i < |marshaled| then ItemDiff(original.items[i], marshaled[i]) else [original.items[i]]
  }

  lemma SliceStep(original: Value, marshaled: seq<Value>, i: nat, before: seq<Value>)
    requires original.Arr? && i < |original.items|
    ensures before + SliceDiff(original, marshaled, i)
         == (before + DiffAt(original, marshaled, i)) + SliceDiff(original, marshaled, i + 1)
  {
  }

  method CompareSlices(original: Value, marshaled: seq<Value>) returns (diff: seq<Value>)
    requires original.Arr?
    ensures diff == SliceDiff(original, marshaled, 0) + Surplus(original.items, marshaled)
    decreases original, 0, 1
  {
    diff := [];
    var items := original.items;
    for i := 0 to |items|
      invariant SliceDiff(original, marshaled, 0) == diff + SliceDiff(original, marshaled, i)
    {
      SliceStep(original, marshaled, i, diff);
      var d := CompareAt(original, marshaled, i);
      diff := diff + d;
    }
    if |items| < |marshaled| { diff := diff + marshaled[|items|..]; }
  }

  method CompareAt(original: Value, marshaled: seq<Value>, i: nat) returns (diff: seq<Value>)
    requires original.Arr? && i < |original.items|
    ensures diff == DiffAt(original, marshaled, i)
    decreases original, 0, 0
  {
    if i >= |marshaled| { return [original.items[i]]; }
    diff := CompareItems(original.items[i], marshaled[i]);
  }

  method CompareItems(item: Value, other: Value) returns (diff: seq<Value>)
    ensures diff == ItemDiff(item, other)
    decreases item, 2
  {
    if item.Obj? {
      if !other.Obj? { return []; }
      var nested := FindUnknownFields(item, other.fields);
      return if |nested| > 0 then [Obj(nested)] else [];
    }
    return if item != other then [item] else [];
  }

  // ---------- inclusion ----------

  /** `o` is kept in `m`: objects key by key up to numeric zeros, arrays item by item with equal
      length, everything else unchanged. */
  predicate Included(o: Value, m: Value)
    decreases o, 0
  {
    match o
    case Obj(fields) =>
      m.Obj? && forall k :: k in fields ==>
        Zero(fields[k]) || (k in m.fields && Included(fields[k], m.fields[k]))
    case Arr(items) =>
      m.Arr? && |items| == |m.items| && forall i :: 0 <= i < |items| ==> ItemKept(items[i], m.items[i])
    case _ => o == m
  }

  predicate ItemKept(item: Value, other: Value)
    decreases item, 1
  {
    if item.Obj? then other.Obj? ==> Included(item, other) else item == other
  }

  /** Nothing is reported exactly when the original is included. */
  lemma {:induction false} NothingReportedIffIncluded(o: Value, m: Value)
    ensures FieldDiff(o, m).None? <==> Included(o, m)
    ensures o.Obj? && m.Obj? ==> (Unknown(o, m.fields) == map[] <==> Included(o, m))
    decreases o, 1, 0
  {
    match o
    case Obj(fields) =>
      if m.Obj? {
        forall k | k in fields
          ensures KeyDiff(fields[k], m.fields, k).None? <==>
                  Zero(fields[k]) || (k in m.fields && Included(fields[k], m.fields[k]))
        {
          if k in m.fields { NothingReportedIffIncluded(fields[k], m.fields[k]); }
        }
        var d := Unknown(o, m.fields);
        assert d == map[] <==> forall k :: k in fields ==> k !in d;
      }
    case Arr(items) =>
      if m.Arr? {
        SliceReportsNothingIff(o, m.items, 0);
        var a, b := SliceDiff(o, m.items, 0), Surplus(items, m.items);
        assert |a + b| == |a| + |b|;
        assert FieldDiff(o, m).None? <==> KeptFrom(items, m.items, 0) && |items| >= |m.items|;
        if |items| > |m.items| { assert !KeptAt(items, m.items, |m.items|); }
        assert forall j :: 0 <= j < |items| && |items| == |m.items| ==>
                 (KeptAt(items, m.items, j) <==> ItemKept(items[j], m.items[j]));
      }
    case _ =>
  }

  predicate KeptAt(items: seq<Value>, other: seq<Value>, j: int)
    requires 0 <= j < |items|
  {
    j < |other| && ItemKept(items[j], other[j])
  }

  /** From index i on every item has a counterpart and is kept in it. */
  ghost predicate KeptFrom(items: seq<Value>, other: seq<Value>, i: nat) {
    forall j :: i <= j < |items| ==> KeptAt(items, other, j)
  }

  lemma {:induction false} SliceReportsNothingIff(o: Value, m: seq<Value>, i: nat)
    requires o.Arr? && i <= |o.items|
    ensures SliceDiff(o, m, i) == [] <==> KeptFrom(o.items, m, i)
    decreases o, 0, |o.items| - i
  {
    if i == |o.items| {
    } else {
      SliceReportsNothingIff(o, m, i + 1);
      var here := if i < |m| then ItemDiff(o.items[i], m[i]) else [o.items[i]];
      assert |SliceDiff(o, m, i)| == |here| + |SliceDiff(o, m, i + 1)|;
      if i < |m| {
        NothingReportedIffIncluded(o.items[i], m[i]);
        assert here == [] <==> ItemKept(o.items[i], m[i]);
      }
      assert SliceDiff(o, m, i) == [] <==> here == [] && KeptFrom(o.items, m, i + 1);
      assert KeptFrom(o.items, m, i) <==> KeptAt(o.items, m, i) && KeptFrom(o.items, m, i + 1);
    }
  }

  lemma {:induction false} IncludedInItself(o: Value)
    ensures Included(o, o)
    decreases o
  {
    match o
    case Obj(fields) => forall k | k in fields ensures Included(fields[k], fields[k]) { IncludedInItself(fields[k]); }
    case Arr(items) => forall i | 0 <= i < |items| ensures ItemKept(items[i], items[i]) { IncludedInItself(items[i]); }
    case _ =>
  }

  // ---------- what is reported ----------

  /** A number, a text, a truth value or null. */
  predicate IsPlain(v: Value) {
    !v.Obj? && !v.Arr?
  }

  /** For each key: it is reported exactly when its value is not a numeric zero and is not kept; then the value
      is reported whole, except that of two objects the difference is, and of two arrays the list of what
      differs. */
  lemma KeyReported(o: Value, m: Object, k: string)
    requires o.Obj? && k in o.fields
    ensures var v, d := o.fields[k], Unknown(o, m);
      && (k in d <==> v != Float64(Finite(0.0)) && !(k in m && Included(v, m[k])))
      && (k in d && (k !in m || IsPlain(v) || (v.Obj? && !m[k].Obj?) || (v.Arr? && !m[k].Arr?)) ==> d[k] == v)
      && (k in d && k in m && v.Obj? && m[k].Obj? ==> d[k] == Obj(Unknown(v, m[k].fields)))
      && (k in d && k in m && v.Arr? && m[k].Arr? ==>
            d[k].Arr? && exists at :: ListsDifferences(v, m[k].items, d[k].items, at))
  {
    if k in m {
      NothingReportedIffIncluded(o.fields[k], m[k]);
      if o.fields[k].Arr? && m[k].Arr? {
        var at := SliceReports(o.fields[k], m[k].items, 0);
        var a, b := SliceDiff(o.fields[k], m[k].items, 0), Surplus(o.fields[k].items, m[k].items);
        assert ListsDifferences(o.fields[k], m[k].items, a + b, at) by {
          assert (a + b)[..|at|] == a && (a + b)[|at|..] == b;
        }
      }
    }
  }

  /** What is reported of item i, which differs: of two objects their difference, else the item. */
  function Difference(items: seq<Value>, other: seq<Value>, i: nat): Value
    requires i < |items|
  {
    if i < |other| && items[i].Obj? && other[i].Obj? then Obj(Unknown(items[i], other[i].fields)) else items[i]
  }

  /** `at` lists in order the places of the items that are not kept, and nothing else. */
  ghost predicate Places(items: seq<Value>, other: seq<Value>, from: nat, at: seq<nat>) {
    && (forall j, k :: 0 <= j < k < |at| ==> at[j] < at[k])
    && (forall j :: 0 <= j < |at| ==> from <= at[j] < |items| && !KeptAt(items, other, at[j]))
    && (forall i :: from <= i < |items| && !KeptAt(items, other, i) ==> i in at)
  }

  /** The report of two arrays: what differs at each place, in order, and then the surplus of the other. */
  ghost predicate ListsDifferences(original: Value, other: seq<Value>, report: seq<Value>, at: seq<nat>)
    requires original.Arr?
  {
    var items := original.items;
    && Places(items, other, 0, at) && |report| >= |at|
    && (forall j :: 0 <= j < |at| ==> report[j] == Difference(items, other, at[j]))
    && report[|at|..] == if |items| < |other| then other[|items|..] else []
  }

  /** d holds the differences of the items at the places `at`. */
  ghost predicate Lists(items: seq<Value>, other: seq<Value>, d: seq<Value>, at: seq<nat>) {
    && |d| == |at| && (forall j :: 0 <= j < |at| ==> at[j] < |items|)
    && forall j :: 0 <= j < |at| ==> d[j] == Difference(items, other, at[j])
  }

  lemma ListsOneMore(items: seq<Value>, other: seq<Value>, d: seq<Value>, at: seq<nat>, i: nat)
    requires i < |items| && Lists(items, other, d, at)
    ensures Lists(items, other, [Difference(items, other, i)] + d, [i] + at)
  {
  }

  lemma {:induction false} SliceReports(original: Value, other: seq<Value>, i: nat) returns (at: seq<nat>)
    requires original.Arr? && i <= |original.items|
    ensures Places(original.items, other, i, at)
    ensures Lists(original.items, other, SliceDiff(original, other, i), at)
    decreases |original.items| - i
  {
    var items := original.items;
    if i == |items| {
      at := [];
    } else {
      var rest := SliceReports(original, other, i + 1);
      ItemReported(original, other, i);
      ListsOneMore(items, other, SliceDiff(original, other, i + 1), rest, i);
      at := PlacesFrom(items, other, i, rest);
      assert KeptAt(items, other, i) ==> SliceDiff(original, other, i) == SliceDiff(original, other, i + 1);
    }
  }

  lemma ItemReported(original: Value, other: seq<Value>, i: nat)
    requires original.Arr? && i < |original.items|
    ensures var items := original.items;
      SliceDiff(original, other, i) ==
      (if KeptAt(items, other, i) then [] else [Difference(items, other, i)]) + SliceDiff(original, other, i + 1)
  {
    if i < |other| { NothingReportedIffIncluded(original.items[i], other[i]); }
  }

  lemma PlacesFrom(items: seq<Value>, other: seq<Value>, i: nat, rest: seq<nat>) returns (at: seq<nat>)
    requires i < |items| && Places(items, other, i + 1, rest)
    ensures Places(items, other, i, at) && at == if KeptAt(items, other, i) then rest else [i] + rest
  {
    at := if KeptAt(items, other, i) then rest else [i] + rest;
    forall k | i <= k < |items| && !KeptAt(items, other, k) ensures k in at {
      if k > i { assert k in rest; }
    }
  }

  /** A plain value that was changed, at any depth outside arrays, is reported at its place. */
  lemma {:induction false} ChangeIsReported(o: Value, m: Value, q: seq<string>)
    requires o.Obj? && m.Obj? && q != [] && Lookup(o, q).Some? && Lookup(m, q).Some?
    requires IsPlain(Lookup(o, q).value) && Lookup(o, q) != Lookup(m, q) && Lookup(o, q) != Some(Float64(Finite(0.0)))
    ensures Lookup(Obj(Unknown(o, m.fields)), q) == Lookup(o, q)
    decreases |q|
  {
    var k := q[0];
    KeyReported(o, m.fields, k);
    if |q| == 1 {
      assert q == [k];
      LookupKey(o, k);
      LookupKey(m, k);
      LookupKey(Obj(Unknown(o, m.fields)), k);
    } else {
      ChangeIsReported(o.fields[k], m.fields[k], q[1..]);
      NothingReportedIffIncluded(o.fields[k], m.fields[k]);
      assert q[1] in Unknown(o.fields[k], m.fields[k].fields);
    }
  }

  // ---------- deleted fields ----------

  /** m is o with keys of objects deleted, at any depth outside arrays. */
  predicate Thinned(o: Value, m: Value)
    decreases o
  {
    || o == m
    || (o.Obj? && m.Obj? && m.fields.Keys <= o.fields.Keys
        && forall k :: k in m.fields ==> Thinned(o.fields[k], m.fields[k]))
  }

  /** The path q leads to a field of o that was deleted at its last key, and is not a numeric zero. */
  predicate DeletedAt(o: Value, m: Value, q: seq<string>) {
    && q != [] && Lookup(o, q).Some? && !Zero(Lookup(o, q).value)
    && Lookup(m, q).None? && Lookup(m, q[..|q| - 1]).Some?
  }

  /** A path leads somewhere in the report exactly when it leads to, or into, or towards a deleted
      field; from a deleted field on, the report is the original. */
  ghost predicate Exactly(o: Value, m: Value, p: seq<string>)
    requires o.Obj? && m.Obj?
  {
    var report := Obj(Unknown(o, m.fields));
    && (Lookup(report, p).Some? <==>
          Lookup(o, p).Some? && exists q :: DeletedAt(o, m, q) && (q <= p || p <= q))
    && (forall q :: DeletedAt(o, m, q) && q <= p ==> Lookup(report, p) == Lookup(o, p))
  }

  lemma LookupKey(v: Value, k: string)
    ensures Lookup(v, [k]) == if v.Obj? && k in v.fields then Some(v.fields[k]) else None
  {
    assert [k][1..] == [];
  }

  lemma DeletedBelow(o: Value, m: Value, k: string, q: seq<string>)
    requires o.Obj? && m.Obj? && k in o.fields && k in m.fields && q != []
    ensures DeletedAt(o, m, [k] + q) <==> DeletedAt(o.fields[k], m.fields[k], q)
  {
    assert ([k] + q)[..|q|] == [k] + q[..|q| - 1];
    assert ([k] + q)[1..] == q && ([k] + q[..|q| - 1])[1..] == q[..|q| - 1];
  }

  /** Every deleted field under a kept key k is a deleted field of what k holds. */
  lemma DeletedUnderKept(o: Value, m: Value, q: seq<string>)
    requires o.Obj? && m.Obj? && DeletedAt(o, m, q) && q[0] in m.fields
    ensures q[0] in o.fields && |q| > 1 && DeletedAt(o.fields[q[0]], m.fields[q[0]], q[1..])
  {
    LookupKey(m, q[0]);
    assert q == [q[0]] ==> Lookup(m, q).Some?;
    assert q == [q[0]] + q[1..];
    DeletedBelow(o, m, q[0], q[1..]);
  }

  lemma DeletedKey(o: Value, m: Value, k: string, q: seq<string>)
    requires o.Obj? && m.Obj? && k !in m.fields && q != [] && q[0] == k
    ensures DeletedAt(o, m, q) <==> q == [k] && k in o.fields && !Zero(o.fields[k])
  {
    if |q| > 1 {
      assert q[..|q| - 1][0] == k;
    } else {
      assert q == [k] && q[..|q| - 1] == [];
      LookupKey(o, k);
      LookupKey(m, k);
    }
  }

  lemma {:induction false} ReportAtDeletedKey(o: Value, m: Value, p: seq<string>)
    requires o.Obj? && m.Obj? && p != [] && p[0] !in m.fields
    ensures Exactly(o, m, p)
  {
    var k := p[0];
    forall q | DeletedAt(o, m, q) && (q <= p || p <= q) ensures q == [k] && k in o.fields && !Zero(o.fields[k]) {
      DeletedKey(o, m, k, q);
    }
    DeletedKey(o, m, k, [k]);
    assert [k] <= p;
  }

  ghost predicate ExactBelow(ok: Value, mk: Value) {
    ok.Obj? && mk.Obj? ==> forall q: seq<string> :: q != [] ==> Exactly(ok, mk, q)
  }

  /** The deleted fields below a kept key are those of what it holds. */
  lemma DeletionsBelow(o: Value, m: Value, p: seq<string>)
    requires o.Obj? && m.Obj? && p != [] && p[0] in m.fields && p[0] in o.fields
    ensures var ok, mk := o.fields[p[0]], m.fields[p[0]];
      && (forall q :: DeletedAt(o, m, q) && (q <= p || p <= q) ==>
            DeletedAt(ok, mk, q[1..]) && (q[1..] <= p[1..] || p[1..] <= q[1..]) && (q <= p <==> q[1..] <= p[1..]))
      && (forall q :: DeletedAt(ok, mk, q) && (q <= p[1..] || p[1..] <= q) ==>
            DeletedAt(o, m, [p[0]] + q) && ([p[0]] + q <= p || p <= [p[0]] + q))
  {
    var ok, mk := o.fields[p[0]], m.fields[p[0]];
    assert p == [p[0]] + p[1..];
    forall q | DeletedAt(o, m, q) && (q <= p || p <= q)
      ensures DeletedAt(ok, mk, q[1..]) && (q[1..] <= p[1..] || p[1..] <= q[1..]) && (q <= p <==> q[1..] <= p[1..])
    {
      assert q[0] == p[0];
      DeletedUnderKept(o, m, q);
      assert q == [q[0]] + q[1..];
    }
    forall q | DeletedAt(ok, mk, q) ensures DeletedAt(o, m, [p[0]] + q) {
      DeletedBelow(o, m, p[0], q);
    }
  }

  lemma EmptyReportMeansNothingDeleted(ok: Value, mk: Value, q: seq<string>)
    requires ok.Obj? && mk.Obj? && ExactBelow(ok, mk) && Unknown(ok, mk.fields) == map[]
    ensures !DeletedAt(ok, mk, q)
  {
    if q != [] { assert Exactly(ok, mk, q) && q <= q; }
  }

  lemma SomethingReportedMeansDeleted(ok: Value, mk: Value)
    requires ok.Obj? && mk.Obj? && ExactBelow(ok, mk) && Unknown(ok, mk.fields) != map[]
    ensures exists q :: DeletedAt(ok, mk, q)
  {
    var j :| j in Unknown(ok, mk.fields);
    LookupKey(Obj(Unknown(ok, mk.fields)), j);
    assert Exactly(ok, mk, [j]);
  }

  /** The report continues, below a kept key, with what is missing there. */
  lemma ReportAtKeptKey(o: Value, m: Value, p: seq<string>)
    requires o.Obj? && m.Obj? && p != [] && p[0] in m.fields && Thinned(o, m) && o != m
    requires ExactBelow(o.fields[p[0]], m.fields[p[0]])
    ensures Exactly(o, m, p)
  {
    var k, rest := p[0], p[1..];
    var ok, mk := o.fields[k], m.fields[k];
    DeletionsBelow(o, m, p);
    if ok == mk {
      IncludedInItself(ok);
      NothingReportedIffIncluded(ok, mk);
      assert k !in Unknown(o, m.fields);
      assert forall q :: !DeletedAt(ok, mk, q);
    } else {
      var d := Unknown(ok, mk.fields);
      assert KeyDiff(ok, m.fields, k) == if d == map[] then None else Some(Obj(d));
      if d == map[] {
        forall q ensures !DeletedAt(ok, mk, q) { EmptyReportMeansNothingDeleted(ok, mk, q); }
        assert k !in Unknown(o, m.fields);
      } else {
        ReportGoesOn(o, m, p, d);
      }
    }
  }

  lemma ReportGoesOn(o: Value, m: Value, p: seq<string>, d: Object)
    requires o.Obj? && m.Obj? && p != [] && p[0] in m.fields && p[0] in o.fields
    requires o.fields[p[0]].Obj? && m.fields[p[0]].Obj? && ExactBelow(o.fields[p[0]], m.fields[p[0]])
    requires d == Unknown(o.fields[p[0]], m.fields[p[0]].fields) && d != map[]
    requires p[0] in Unknown(o, m.fields) && Unknown(o, m.fields)[p[0]] == Obj(d)
    ensures Exactly(o, m, p)
  {
    var rest, ok, mk := p[1..], o.fields[p[0]], m.fields[p[0]];
    DeletionsBelow(o, m, p);
    if rest == [] {
      SomethingReportedMeansDeleted(ok, mk);
      var q :| DeletedAt(ok, mk, q);
      assert rest <= q;
    } else {
      assert Exactly(ok, mk, rest);
    }
  }

  /** Deleting object keys outside arrays is reported exactly: the deleted fields that are not numeric
      zeros, whole and unchanged, and nothing else. */
  lemma {:induction false} DeletionsAreReported(o: Value, m: Value, p: seq<string>)
    requires o.Obj? && m.Obj? && Thinned(o, m) && p != []
    ensures Exactly(o, m, p)
    decreases o
  {
    if o == m {
      IncludedInItself(o);
      NothingReportedIffIncluded(o, m);
      assert forall q :: !DeletedAt(o, m, q);
    } else if p[0] !in m.fields {
      ReportAtDeletedKey(o, m, p);
    } else {
      var ok, mk := o.fields[p[0]], m.fields[p[0]];
      forall q: seq<string> | ok.Obj? && mk.Obj? && q != [] ensures Exactly(ok, mk, q) {
        DeletionsAreReported(ok, mk, q);
      }
      ReportAtKeptKey(o, m, p);
    }
  }
}
