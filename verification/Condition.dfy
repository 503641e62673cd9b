/** The condition language of conditional nodes: splitting on OR and AND, comparisons, operands. */
module Condition {
  import opened Values
  import opened Strings

  /** What the standard library decides: number parsing, `%v` formatting, int to float64. */
  datatype Library = Library(
    parseFloat: string -> Option<Float>,
    format: Value -> string,
    round: int -> Float)

  datatype Error =
    | EmptyExpression
    | FieldNotFound(name: string)
    | CannotResolve(name: string)
    | NeedsNumbers(op: string)
    | UnknownOperator(op: string)
    | LeftSide(operand: string, cause: Error)
    | RightSide(operand: string, cause: Error)
    | CannotEvaluate(expr: string, cause: Error)

  /** Panics models the slice out of range that a lone quote character provokes. */
  datatype Outcome<+T> = Ok(value: T) | Fails(error: Error) | Panics

  type Truth = Outcome<bool>

  const OR := " OR "
  const AND := " AND "

  // ---------- operands ----------

  function FoldChar(c: char): char {
    if 'A' <= c <= 'Z' then c - 'A' + 'a'
    else if c == '\U{17F}' then 's'
    else if c == '\U{212A}' then 'k'
    else c
  }

  predicate EqualFold(s: string, lower: string) {
    |s| == |lower| && forall i :: 0 <= i < |s| ==> FoldChar(s[i]) == lower[i]
  }

  predicate QuotedBy(s: string, q: char) {
    s != "" && s[0] == q && s[|s| - 1] == q
  }

  /** Slicing the quotes off a lone quote character is the one way to panic. */
  function ResolveValue(lib: Library, operand: string, ctx: Object): (r: Outcome<Value>)
    ensures r.Panics? <==> Trim(operand) == "\"" || Trim(operand) == "'"
  {
    var e := Trim(operand);
    if QuotedBy(e, '"') || QuotedBy(e, '\'') then
      if |e| < 2 then Panics else Ok(Str(e[1..|e| - 1]))
    else if EqualFold(e, "true") then Ok(Bool(true))
    else if EqualFold(e, "false") then Ok(Bool(false))
    else if lib.parseFloat(e).Some? then Ok(Float64(lib.parseFloat(e).value))
    else if '.' in e then
      match Lookup(Obj(ctx), Split(e, "."))
      case Some(v) => Ok(v)
      case None => Fails(FieldNotFound(e))
    else if e in ctx then Ok(ctx[e])
    else Fails(CannotResolve(e))
  }

  /** The field walk, with the loop variable of the source. */
  method ResolveField(path: string, ctx: Object) returns (found: Option<Value>)
    ensures found == Lookup(Obj(ctx), Split(path, "."))
  {
    var parts := Split(path, ".");
    var current := Obj(ctx);
    for i := 0 to |parts|
      invariant Lookup(Obj(ctx), parts) == Lookup(current, parts[i..])
    {
      if !current.Obj? || parts[i] !in current.fields {
        return None;
      }
      assert parts[i..][1..] == parts[i + 1..];
      current := current.fields[parts[i]];
    }
    return Some(current);
  }

  function ToFloat64(lib: Library, v: Value): Option<Float> {
    match v
    case Float64(f) => Some(f)
    case Float32(f) => Some(f)
    case Integer(i, _) => Some(lib.round(i))
    case Str(s) => lib.parseFloat(s)
    case _ => None
  }

  function ToBool(v: Value): bool {
    match v
    case Bool(b) => b
    case Str(s) => s != "" && !EqualFold(s, "false")
    case Float64(f) => f != Finite(0.0)
    case Integer(i, GoInt) => i != 0
    case Null => false
    case _ => true
  }

  predicate Less(a: Float, b: Float) {
    match (a, b)
    case (Finite(x), Finite(y)) => x < y
    case (Inf(n), Inf(m)) => n && !m
    case (Inf(n), Finite(_)) => n
    case (Finite(_), Inf(m)) => !m
    case _ => false
  }

  predicate Same(a: Float, b: Float) {
    a == b && !a.NaN?
  }

  function CompareNumbers(l: Float, op: string, r: Float): Truth {
    if op == ">" then Ok(Less(r, l))
    else if op == "<" then Ok(Less(l, r))
    else if op == ">=" then Ok(Less(r, l) || Same(l, r))
    else if op == "<=" then Ok(Less(l, r) || Same(l, r))
    else if op == "==" then Ok(Same(l, r))
    else if op == "!=" then Ok(!Same(l, r))
    else Fails(UnknownOperator(op))
  }

  // ---------- comparisons ----------

  function Compare(lib: Library, left: string, op: string, right: string, ctx: Object): Truth {
    match ResolveValue(lib, left, ctx)
    case Panics => Panics
    case Fails(e) => Fails(LeftSide(left, e))
    case Ok(l) =>
      match ResolveValue(lib, right, ctx)
      case Panics => Panics
      case Fails(e) => Fails(RightSide(right, e))
      case Ok(r) =>
        var a, b := ToFloat64(lib, l), ToFloat64(lib, r);
        if a.Some? && b.Some? then CompareNumbers(a.value, op, b.value)
        else if op == "==" then Ok(lib.format(l) == lib.format(r))
        else if op == "!=" then Ok(lib.format(l) != lib.format(r))
        else Fails(NeedsNumbers(op))
  }

  const TWO_CHAR_OPERATORS := [">=", "<=", "==", "!="]
  const ONE_CHAR_OPERATORS := [">", "<"]

  /** The first of `ops` that occurs past the start of e, with its place. */
  function FindOperator(e: string, ops: seq<string>): Option<(string, nat)> {
    if ops == [] then None
    else
      var i := Index(e, ops[0]);
      if i > 0 && !(|ops[0]| == 1 && i + 1 < |e| && e[i + 1] == '=') then Some((ops[0], i))
      else FindOperator(e, ops[1..])
  }

  lemma OperatorFits(e: string, ops: seq<string>)
    ensures var r := FindOperator(e, ops);
            r.Some? ==> OccursAt(e, r.value.0, r.value.1)
  {
  }

  /** A comparison, or a lone operand taken as a truth value. */
  datatype Atom = Binary(left: string, op: string, right: string) | Bare(operand: string)

  function ParseAtom(expr: string): Atom {
    var e := Trim(expr);
    OperatorFits(e, TWO_CHAR_OPERATORS);
    OperatorFits(e, ONE_CHAR_OPERATORS);
    var two := FindOperator(e, TWO_CHAR_OPERATORS);
    match if two.Some? then two else FindOperator(e, ONE_CHAR_OPERATORS)
    case Some((op, i)) => Binary(Trim(e[..i]), op, Trim(e[i + |op|..]))
    case None => Bare(e)
  }

  function EvaluateAtom(lib: Library, a: Atom, ctx: Object): Truth {
    match a
    case Binary(left, op, right) => Compare(lib, left, op, right, ctx)
    case Bare(e) =>
      match ResolveValue(lib, e, ctx)
      case Panics => Panics
      case Fails(err) => Fails(CannotEvaluate(e, err))
      case Ok(v) => Ok(ToBool(v))
  }

  function EvaluateComparison(lib: Library, expr: string, ctx: Object): Truth {
    EvaluateAtom(lib, ParseAtom(expr), ctx)
  }

  /** The numeric operators are one order: of two numbers exactly one is less, or they are the same;
      with NaN every comparison but != is false. */
  lemma ComparisonLaws(x: Float, y: Float)
    ensures CompareNumbers(x, ">", y) == CompareNumbers(y, "<", x)
    ensures CompareNumbers(x, ">=", y) == CompareNumbers(y, "<=", x)
    ensures CompareNumbers(x, "!=", y) == Ok(!CompareNumbers(x, "==", y).value)
    ensures CompareNumbers(x, "<=", y).value <==>
            CompareNumbers(x, "<", y).value || CompareNumbers(x, "==", y).value
    ensures x.NaN? || y.NaN? ==>
              forall op :: op in ["<", ">", "<=", ">=", "=="] ==> CompareNumbers(x, op, y) == Ok(false)
    ensures !x.NaN? && !y.NaN? ==>
              [CompareNumbers(x, "<", y).value, CompareNumbers(x, "==", y).value, CompareNumbers(x, ">", y).value]
              in [[true, false, false], [false, true, false], [false, false, true]]
    ensures x.Finite? && y.Finite? ==> CompareNumbers(x, "<", y) == Ok(x.r < y.r)
  {
    var r := [CompareNumbers(x, "<", y).value, CompareNumbers(x, "==", y).value, CompareNumbers(x, ">", y).value];
    var all := [[true, false, false], [false, true, false], [false, false, true]];
    if !x.NaN? && !y.NaN? {
      assert r == all[0] || r == all[1] || r == all[2];
    }
    assert CompareNumbers(x, "<", y).Ok? && CompareNumbers(x, "==", y).Ok?;
  }

  predicate OperatorChar(c: char) {
    c == '<' || c == '>' || c == '=' || c == '!'
  }

  predicate OperatorFree(s: string) {
    forall i :: 0 <= i < |s| ==> !OperatorChar(s[i])
  }

  predicate IsOperator(op: string) {
    op in TWO_CHAR_OPERATORS || op in ONE_CHAR_OPERATORS
  }

  function PrintComparison(left: string, op: string, right: string): string {
    left + " " + op + " " + right
  }

  /** In a printed comparison operator signs stand only in the printed operator. */
  lemma SignsInside(left: string, op: string, right: string, k: int)
    requires OperatorFree(left) && OperatorFree(right) && 0 <= k < |PrintComparison(left, op, right)|
    ensures var n := |left| + 1;
      OperatorChar(PrintComparison(left, op, right)[k]) ==> n <= k < n + |op|
  {
    var s, n := PrintComparison(left, op, right), |left| + 1;
    if k < |left| {
      assert s[k] == left[k];
    } else if k > n + |op| {
      assert s[k] == right[k - n - |op| - 1];
    }
  }

  lemma OperatorSigns(p: string)
    requires IsOperator(p)
    ensures 1 <= |p| <= 2 && OperatorChar(p[0]) && OperatorChar(p[|p| - 1])
  {
  }

  /** So an operator occurs only inside the printed one. */
  lemma OperatorsOccurOnce(left: string, op: string, right: string, p: string, i: int)
    requires OperatorFree(left) && OperatorFree(right) && IsOperator(p)
    requires OccursAt(PrintComparison(left, op, right), p, i)
    ensures OccursAt(op, p, i - |left| - 1)
  {
    var s, n := PrintComparison(left, op, right), |left| + 1;
    OperatorSigns(p);
    var here := s[i..i + |p|];
    assert here[0] == s[i] && here[|p| - 1] == s[i + |p| - 1];
    SignsInside(left, op, right, i);
    SignsInside(left, op, right, i + |p| - 1);
    assert s[n..n + |op|] == op;
    OccursInSlice(s, n, n + |op|, p, i - n);
  }

  lemma PrintedOperatorOccurs(left: string, op: string, right: string)
    ensures OccursAt(PrintComparison(left, op, right), op, |left| + 1)
  {
    var s, n := PrintComparison(left, op, right), |left| + 1;
    assert s[n..n + |op|] == op;
  }

  /** The index of an operator in a printed comparison; a longer or equally long one is not found. */
  lemma IndexPrinted(left: string, op: string, right: string, p: string)
    requires OperatorFree(left) && OperatorFree(right) && IsOperator(op) && IsOperator(p)
    requires p == op || |p| >= |op|
    ensures Index(PrintComparison(left, op, right), p) == if p == op then |left| + 1 else -1
  {
    var s := PrintComparison(left, op, right);
    var i := Index(s, p);
    PrintedOperatorOccurs(left, op, right);
    if i >= 0 {
      OperatorsOccurOnce(left, op, right, p, i);
      OnlyItself(op, p, i - |left| - 1);
    }
  }

  lemma OnlyItself(op: string, p: string, j: int)
    requires OccursAt(op, p, j) && |p| >= |op|
    ensures j == 0 && p == op
  {
    assert op[0..|op|] == op;
  }

  lemma {:induction false} FindPrinted(left: string, op: string, right: string, ops: seq<string>)
    requires left != "" && OperatorFree(left) && OperatorFree(right) && IsOperator(op)
    requires forall k :: 0 <= k < |ops| ==> IsOperator(ops[k]) && (ops[k] == op || |ops[k]| >= |op|)
    ensures FindOperator(PrintComparison(left, op, right), ops) ==
            if op in ops then Some((op, |left| + 1)) else None
    decreases |ops|
  {
    if ops == [] {
    } else {
      IndexPrinted(left, op, right, ops[0]);
      SpaceAfter(left, op, right);
      if ops[0] != op {
        FindPrinted(left, op, right, ops[1..]);
      }
    }
  }

  lemma SpaceAfter(left: string, op: string, right: string)
    ensures PrintComparison(left, op, right)[|left| + 1 + |op|] == ' '
  {
  }

  lemma TrimPadded(s: string)
    requires s != "" && Trimmed(s)
    ensures Trim(s + " ") == s && Trim(" " + s) == s
  {
    TrimFixedPoints(s);
    assert (s + " ")[..|s|] == s && (" " + s)[1..] == s;
    TrimRightOfTrimmed(s);
  }

  lemma TrimRightOfTrimmed(s: string)
    requires s != "" && Trimmed(s)
    ensures TrimRight(s) == s && TrimRight(s + " ") == s
  {
    assert (s + " ")[..|s|] == s;
  }

  lemma PrintedParts(left: string, op: string, right: string)
    requires left != "" && Trimmed(left) && right != "" && Trimmed(right)
    ensures var e, n := PrintComparison(left, op, right), |left| + 1;
      && Trim(e) == e && n + |op| <= |e|
      && Trim(e[..n]) == left && Trim(e[n + |op|..]) == right
  {
    var e, n := PrintComparison(left, op, right), |left| + 1;
    assert e[0] == left[0] && e[|e| - 1] == right[|right| - 1];
    TrimFixedPoints(e);
    assert e[..n] == left + " " && e[n + |op|..] == " " + right;
    TrimPadded(left);
    TrimPadded(right);
  }

  lemma PrintedOperatorFound(left: string, op: string, right: string)
    requires left != "" && OperatorFree(left) && OperatorFree(right) && IsOperator(op)
    ensures var e := PrintComparison(left, op, right);
      var two := FindOperator(e, TWO_CHAR_OPERATORS);
      (if two.Some? then two else FindOperator(e, ONE_CHAR_OPERATORS)) == Some((op, |left| + 1))
  {
    FindPrinted(left, op, right, TWO_CHAR_OPERATORS);
    if op !in TWO_CHAR_OPERATORS {
      FindPrinted(left, op, right, ONE_CHAR_OPERATORS);
    }
  }

  /** A printed comparison is read back: operator and operands, for operands without operator signs. */
  lemma ComparisonRoundTrip(left: string, op: string, right: string)
    requires left != "" && Trimmed(left) && OperatorFree(left)
    requires right != "" && Trimmed(right) && OperatorFree(right)
    requires IsOperator(op)
    ensures ParseAtom(PrintComparison(left, op, right)) == Binary(left, op, right)
  {
    PrintedParts(left, op, right);
    PrintedOperatorFound(left, op, right);
  }

  // ---------- logical operators ----------

  function Each<A, B>(s: seq<A>, f: A -> B): (r: seq<B>)
    ensures |r| == |s| && forall i :: 0 <= i < |s| ==> r[i] == f(s[i])
  {
    if s == [] then [] else [f(s[0])] + Each(s[1..], f)
  }

  /** Left to right, until one operand is `stop` or does not yield a truth value. */
  function ShortCircuit(operands: seq<Truth>, stop: bool): Truth {
    if operands == [] then Ok(!stop)
    else if operands[0] == Ok(!stop) then ShortCircuit(operands[1..], stop)
    else operands[0]
  }

  function SplitLogical(expr: string, op: string): (parts: seq<string>)
    requires op != ""
    ensures parts != []
  {
    TrimAll(Split(expr, op))
  }

  function TrimAll(parts: seq<string>): (r: seq<string>)
    ensures TrimmedFrom(r, parts)
  {
    if parts == [] then [] else [Trim(parts[0])] + TrimAll(parts[1..])
  }

  ghost predicate TrimmedFrom(parts: seq<string>, raw: seq<string>) {
    |parts| == |raw| && forall k :: 0 <= k < |raw| ==> parts[k] == Trim(raw[k])
  }

  function EvaluateAnd(lib: Library, expr: string, ctx: Object): Truth {
    ShortCircuit(Each(SplitLogical(expr, AND), (s: string) => EvaluateComparison(lib, s, ctx)), false)
  }

  function EvaluateOr(lib: Library, expr: string, ctx: Object): Truth {
    ShortCircuit(Each(SplitLogical(expr, OR), (s: string) => EvaluateAnd(lib, s, ctx)), true)
  }

  function Evaluate(lib: Library, expression: string, ctx: Object): Truth {
    var e := Trim(expression);
    if e == "" then Fails(EmptyExpression) else EvaluateOr(lib, e, ctx)
  }

  lemma CutOnce(cut: seq<string>, s: string, op: string)
    requires op != "" && Index(s, op) >= 0
    ensures var i := Index(s, op);
      cut + Split(s, op) == (cut + [s[..i]]) + Split(s[i + |op|..], op)
  {
  }

  lemma TrimmedFromIsSplit(parts: seq<string>, expr: string, op: string)
    requires op != "" && TrimmedFrom(parts, Split(expr, op))
    ensures parts == SplitLogical(expr, op)
  {
  }

  /** The splitter loop of the source, consuming `remaining`. */
  method SplitLogicalLoop(expr: string, op: string) returns (parts: seq<string>)
    requires op != ""
    ensures parts == SplitLogical(expr, op)
  {
    parts := [];
    var remaining := expr;
    ghost var cut := [];
    var i := Index(remaining, op);
    while i >= 0
      invariant i == Index(remaining, op)
      invariant Split(expr, op) == cut + Split(remaining, op)
      invariant TrimmedFrom(parts, cut)
      decreases |remaining|
    {
      CutOnce(cut, remaining, op);
      cut := cut + [remaining[..i]];
      parts := parts + [Trim(remaining[..i])];
      remaining := remaining[i + |op|..];
      i := Index(remaining, op);
    }
    parts := parts + [Trim(remaining)];
    TrimmedFromIsSplit(parts, expr, op);
  }

  method EvaluateAndLoop(lib: Library, expr: string, ctx: Object) returns (r: Truth)
    ensures r == EvaluateAnd(lib, expr, ctx)
  {
    var parts := SplitLogicalLoop(expr, AND);
    ghost var all := Each(parts, (s: string) => EvaluateComparison(lib, s, ctx));
    for i := 0 to |parts|
      invariant ShortCircuit(all, false) == ShortCircuit(all[i..], false)
    {
      var result := EvaluateComparison(lib, parts[i], ctx);
      if result != Ok(true) {
        return result;
      }
      assert all[i..][1..] == all[i + 1..];
    }
    return Ok(true);
  }

  method EvaluateOrLoop(lib: Library, expr: string, ctx: Object) returns (r: Truth)
    ensures r == EvaluateOr(lib, expr, ctx)
  {
    var parts := SplitLogicalLoop(expr, OR);
    ghost var all := Each(parts, (s: string) => EvaluateAnd(lib, s, ctx));
    for i := 0 to |parts|
      invariant ShortCircuit(all, true) == ShortCircuit(all[i..], true)
    {
      var result := EvaluateAndLoop(lib, parts[i], ctx);
      if result != Ok(false) {
        return result;
      }
      assert all[i..][1..] == all[i + 1..];
    }
    return Ok(false);
  }

  // ---------- short circuit, declaratively ----------

  ghost predicate SettledAt(operands: seq<Truth>, stop: bool, i: int) {
    0 <= i < |operands| && forall j :: 0 <= j < i ==> operands[j] == Ok(!stop)
  }

  /** The value is settled by the first operand that is not neutral, or by there being none. */
  lemma {:induction false} ShortCircuitMeaning(operands: seq<Truth>, stop: bool)
    ensures var r := ShortCircuit(operands, stop);
            || (r == Ok(!stop) && forall i :: 0 <= i < |operands| ==> operands[i] == Ok(!stop))
            || (r != Ok(!stop) && exists i :: SettledAt(operands, stop, i) && operands[i] == r)
    decreases |operands|
  {
    if operands == [] {
    } else if operands[0] != Ok(!stop) {
      assert SettledAt(operands, stop, 0);
    } else {
      var tail := operands[1..];
      ShortCircuitMeaning(tail, stop);
      var r := ShortCircuit(tail, stop);
      if r != Ok(!stop) {
        var i :| SettledAt(tail, stop, i) && tail[i] == r;
        assert forall j :: 0 < j < i + 1 ==> operands[j] == tail[j - 1];
        assert SettledAt(operands, stop, i + 1) && operands[i + 1] == r;
      } else {
        assert forall j :: 0 < j < |operands| ==> operands[j] == tail[j - 1];
      }
    }
  }

  // ---------- printing and parsing ----------

  /** An OR of ANDs of atoms. */
  type Formula = seq<seq<string>>

  ghost function GroupMeaning(lib: Library, g: seq<string>, ctx: Object): Truth {
    ShortCircuit(Each(g, (a: string) => EvaluateComparison(lib, a, ctx)), false)
  }

  /** Left-to-right short-circuit evaluation of a formula. */
  ghost function Meaning(lib: Library, f: Formula, ctx: Object): Truth {
    ShortCircuit(Each(f, (g: seq<string>) => GroupMeaning(lib, g, ctx)), true)
  }

  function Parse(expr: string): Formula {
    Each(SplitLogical(Trim(expr), OR), (s: string) => SplitLogical(s, AND))
  }

  lemma EvaluateIsMeaningOfParse(lib: Library, expr: string, ctx: Object)
    requires Trim(expr) != ""
    ensures Evaluate(lib, expr, ctx) == Meaning(lib, Parse(expr), ctx)
  {
    var parts := SplitLogical(Trim(expr), OR);
    assert Each(parts, (s: string) => EvaluateAnd(lib, s, ctx))
        == Each(Parse(expr), (g: seq<string>) => GroupMeaning(lib, g, ctx));
  }

  ghost predicate Solid(s: string) {
    s != "" && Trimmed(s)
  }

  ghost predicate SolidParts(parts: seq<string>) {
    parts != [] && forall i :: 0 <= i < |parts| ==> Solid(parts[i])
  }

  ghost predicate SolidFormula(f: Formula) {
    f != [] && forall i :: 0 <= i < |f| ==> SolidParts(f[i])
  }

  ghost function GroupTexts(f: Formula): (r: seq<string>)
    requires forall i :: 0 <= i < |f| ==> f[i] != []
    ensures |r| == |f| && forall i :: 0 <= i < |f| ==> r[i] == Join(f[i], AND)
  {
    if f == [] then [] else [Join(f[0], AND)] + GroupTexts(f[1..])
  }

  ghost function Print(f: Formula): string
    requires SolidFormula(f)
  {
    Join(GroupTexts(f), OR)
  }

  lemma {:induction false} JoinIsSolid(parts: seq<string>, sep: string)
    requires SolidParts(parts)
    ensures Solid(Join(parts, sep))
    decreases |parts|
  {
    if |parts| == 1 {
    } else {
      JoinIsSolid(parts[1..], sep);
      var rest := Join(parts[1..], sep);
      var s := Join(parts, sep);
      assert s == parts[0] + sep + rest;
      assert s[|s| - 1] == rest[|rest| - 1];
    }
  }

  /** Splitting a join of separable, trimmed parts gives back the parts. */
  lemma SplitLogicalOfJoin(parts: seq<string>, op: string)
    requires op != "" && SolidParts(parts) && Separable(parts, op)
    ensures SplitLogical(Join(parts, op), op) == parts
  {
    JoinThenSplit(parts, op);
    forall i | 0 <= i < |parts| ensures Trim(parts[i]) == parts[i] {
      TrimFixedPoints(parts[i]);
    }
  }

  /** No operator can be mistaken: neither inside a group nor between groups. */
  ghost predicate Unambiguous(f: Formula)
    requires SolidFormula(f)
  {
    && Separable(GroupTexts(f), OR)
    && forall i :: 0 <= i < |f| ==> Separable(f[i], AND)
  }

  lemma UnambiguousIsRecovered(f: Formula)
    requires SolidFormula(f) && Unambiguous(f)
    ensures Parse(Print(f)) == f && Trim(Print(f)) == Print(f) != ""
  {
    var texts := GroupTexts(f);
    forall i | 0 <= i < |f| ensures Solid(texts[i]) && SplitLogical(texts[i], AND) == f[i] {
      JoinIsSolid(f[i], AND);
      SplitLogicalOfJoin(f[i], AND);
    }
    SplitLogicalOfJoin(texts, OR);
    JoinIsSolid(texts, OR);
    TrimFixedPoints(Print(f));
  }

  /** Longer parts with a join that is no longer are equally long parts. */
  lemma {:induction false} JoinLengths(long: seq<string>, short: seq<string>, sep: string)
    requires |long| == |short| > 0
    requires forall i :: 0 <= i < |long| ==> |long[i]| >= |short[i]|
    ensures |Join(long, sep)| >= |Join(short, sep)|
    ensures |Join(long, sep)| == |Join(short, sep)|
        ==> forall i :: 0 <= i < |long| ==> |long[i]| == |short[i]|
    decreases |long|
  {
    if |long| == 1 {
    } else {
      JoinLengths(long[1..], short[1..], sep);
      if |Join(long, sep)| == |Join(short, sep)| {
        forall i | 1 <= i < |long| ensures |long[i]| == |short[i]| {
          assert |long[1..][i - 1]| == |short[1..][i - 1]|;
        }
      }
    }
  }

  lemma TrimLength(s: string)
    ensures |Trim(s)| <= |s| && (|Trim(s)| == |s| ==> Trim(s) == s)
  {
    TrimLeftShortens(s);
    TrimRightShortens(TrimLeft(s));
  }

  /** If the trimmed pieces of s are `parts`, s is at least as long as their join, and equal
      to it (with nothing trimmed) when it is no longer. */
  lemma {:induction false} PiecesOf(s: string, op: string, parts: seq<string>)
    requires op != "" && parts != [] && SplitLogical(s, op) == parts
    ensures |s| >= |Join(parts, op)|
    ensures |s| == |Join(parts, op)| ==> s == Join(parts, op) && Split(s, op) == parts
  {
    var raw := Split(s, op);
    SplitThenJoin(s, op);
    TrimmedLengths(raw, parts);
    JoinLengths(raw, parts, op);
    if |s| == |Join(parts, op)| { assert raw == parts; }
  }

  lemma TrimmedLengths(raw: seq<string>, parts: seq<string>)
    requires TrimmedFrom(parts, raw)
    ensures forall i :: 0 <= i < |raw| ==>
              |raw[i]| >= |parts[i]| && (|raw[i]| == |parts[i]| ==> raw[i] == parts[i])
  {
    forall i | 0 <= i < |raw|
      ensures |raw[i]| >= |parts[i]| && (|raw[i]| == |parts[i]| ==> raw[i] == parts[i])
    {
      TrimLength(raw[i]);
    }
  }

  lemma RecoveredIsUnambiguous(f: Formula)
    requires SolidFormula(f) && Parse(Print(f)) == f
    ensures Unambiguous(f)
  {
    var texts, s := GroupTexts(f), Print(f);
    forall i | 0 <= i < |f| ensures Solid(texts[i]) { JoinIsSolid(f[i], AND); }
    JoinIsSolid(texts, OR);
    TrimFixedPoints(s);
    var parts := SplitLogical(s, OR);
    forall i | 0 <= i < |f|
      ensures |parts[i]| >= |texts[i]|
      ensures |parts[i]| == |texts[i]| ==> parts[i] == texts[i] && Split(parts[i], AND) == f[i]
    {
      PiecesOf(parts[i], AND, f[i]);
    }
    PiecesOf(s, OR, parts);
    JoinLengths(parts, texts, OR);
    assert parts == texts;
    JoinThenSplit(texts, OR);
    forall i | 0 <= i < |f| ensures Separable(f[i], AND) { JoinThenSplit(f[i], AND); }
  }

  /** Reading a printed formula gives the formula back exactly when it is unambiguous. */
  lemma PrintThenParse(f: Formula)
    requires SolidFormula(f)
    ensures Parse(Print(f)) == f <==> Unambiguous(f)
  {
    if Unambiguous(f) { UnambiguousIsRecovered(f); }
    if Parse(Print(f)) == f { RecoveredIsUnambiguous(f); }
  }

  /** Evaluating a printed unambiguous formula is its left-to-right short-circuit meaning,
      errors and panics included. */
  lemma {:induction false} PrintThenEvaluate(lib: Library, f: Formula, ctx: Object)
    requires SolidFormula(f) && Unambiguous(f)
    ensures Evaluate(lib, Print(f), ctx) == Meaning(lib, f, ctx)
  {
    UnambiguousIsRecovered(f);
    EvaluateIsMeaningOfParse(lib, Print(f), ctx);
  }

  ghost predicate WordFree(parts: seq<string>, w: string) {
    forall i :: 0 <= i < |parts| ==> !HasWord(parts[i], w)
  }

  lemma WordFreeIsSeparable(parts: seq<string>, w: string)
    requires parts != [] && IsWord(w) && WordFree(parts, w)
    ensures Separable(parts, " " + w + " ")
  {
    forall i | 0 <= i < |parts|
      ensures Clear(parts[i], " " + w + " ") && !Contains(parts[i], " " + w + " ")
    {
      NoWordIsClear(parts[i], w);
    }
  }

  /** Atoms in which neither AND nor OR is a word make an unambiguous formula. */
  lemma WordFreeIsUnambiguous(f: Formula)
    requires SolidFormula(f)
    requires forall i :: 0 <= i < |f| ==> WordFree(f[i], "AND") && WordFree(f[i], "OR")
    ensures Unambiguous(f)
  {
    assert AND == " " + "AND" + " " && OR == " " + "OR" + " ";
    var texts := GroupTexts(f);
    forall i | 0 <= i < |f| ensures Separable(f[i], AND) && !HasWord(texts[i], "OR") {
      WordFreeIsSeparable(f[i], "AND");
      WordsOfJoin(f[i], "AND", "OR");
    }
    WordFreeIsSeparable(texts, "OR");
  }

  /** Quotes do not protect an operator: a quoted text with the word AND splits its atom. */
  lemma QuotedOperatorSplits()
    ensures var f := [["x == 'a AND b'"]];
            SolidFormula(f) && !Unambiguous(f) && Parse(Print(f)) != f
  {
    var a := "x == 'a AND b'";
    var f := [[a]];
    assert OccursAt(a, AND, 7);
    assert Contains(a, AND);
    assert !Separable(f[0], AND);
    PrintThenParse(f);
  }

  // ---------- growing contexts ----------

  lemma ResolveGrows(lib: Library, operand: string, ctx: Object, bigger: Object)
    requires Extends(bigger, ctx) && ResolveValue(lib, operand, ctx).Ok?
    ensures ResolveValue(lib, operand, bigger) == ResolveValue(lib, operand, ctx)
  {
  }

  lemma {:induction false} ComparisonGrows(lib: Library, expr: string, ctx: Object, bigger: Object)
    requires Extends(bigger, ctx) && EvaluateComparison(lib, expr, ctx).Ok?
    ensures EvaluateComparison(lib, expr, bigger) == EvaluateComparison(lib, expr, ctx)
  {
    match ParseAtom(expr)
    case Binary(left, _, right) =>
      ResolveGrows(lib, left, ctx, bigger);
      ResolveGrows(lib, right, ctx, bigger);
    case Bare(e) =>
      ResolveGrows(lib, e, ctx, bigger);
  }

  /** A later operand list that agrees wherever the earlier one was Ok has the same Ok result. */
  lemma {:induction false} ShortCircuitGrows(before: seq<Truth>, after: seq<Truth>, stop: bool)
    requires |before| == |after|
    requires forall i :: 0 <= i < |before| ==> before[i].Ok? ==> after[i] == before[i]
    requires ShortCircuit(before, stop).Ok?
    ensures ShortCircuit(after, stop) == ShortCircuit(before, stop)
    decreases |before|
  {
    if before == [] || before[0] != Ok(!stop) {
    } else {
      ShortCircuitGrows(before[1..], after[1..], stop);
    }
  }

  lemma {:induction false} AndGrows(lib: Library, expr: string, ctx: Object, bigger: Object)
    requires Extends(bigger, ctx) && EvaluateAnd(lib, expr, ctx).Ok?
    ensures EvaluateAnd(lib, expr, bigger) == EvaluateAnd(lib, expr, ctx)
  {
    var parts := SplitLogical(expr, AND);
    var before := Each(parts, (s: string) => EvaluateComparison(lib, s, ctx));
    var after := Each(parts, (s: string) => EvaluateComparison(lib, s, bigger));
    forall i | 0 <= i < |parts| && before[i].Ok? ensures after[i] == before[i] {
      ComparisonGrows(lib, parts[i], ctx, bigger);
    }
    ShortCircuitGrows(before, after, false);
  }

  /** A decided condition stays decided, the same way, when the context gains keys. */
  lemma {:induction false} StableUnderGrowth(lib: Library, expression: string, ctx: Object, bigger: Object)
    requires Extends(bigger, ctx) && Evaluate(lib, expression, ctx).Ok?
    ensures Evaluate(lib, expression, bigger) == Evaluate(lib, expression, ctx)
  {
    var parts := SplitLogical(Trim(expression), OR);
    var before := Each(parts, (s: string) => EvaluateAnd(lib, s, ctx));
    var after := Each(parts, (s: string) => EvaluateAnd(lib, s, bigger));
    forall i | 0 <= i < |parts| && before[i].Ok? ensures after[i] == before[i] {
      AndGrows(lib, parts[i], ctx, bigger);
    }
    ShortCircuitGrows(before, after, true);
  }
}
