/** What conditions answer: operands, comparisons, and the two logical operators, on the text itself. */
module Comparisons {
  import opened Values
  import opened Strings
  import opened Condition

  // ---------- operands ----------

  predicate AnyCase(c: char, lower: char, upper: char) {
    c == lower || c == upper
  }

  /** The spellings of true; folding adds no foreign letter to it. */
  predicate SpellsTrue(s: string) {
    && |s| == 4 && AnyCase(s[0], 't', 'T') && AnyCase(s[1], 'r', 'R')
    && AnyCase(s[2], 'u', 'U') && AnyCase(s[3], 'e', 'E')
  }

  /** The spellings of false; the long s folds to an s. */
  predicate SpellsFalse(s: string) {
    && |s| == 5 && AnyCase(s[0], 'f', 'F') && AnyCase(s[1], 'a', 'A') && AnyCase(s[2], 'l', 'L')
    && (AnyCase(s[3], 's', 'S') || s[3] == '\U{17F}') && AnyCase(s[4], 'e', 'E')
  }

  lemma Spellings(s: string)
    ensures EqualFold(s, "true") <==> SpellsTrue(s)
    ensures EqualFold(s, "false") <==> SpellsFalse(s)
  {
    if |s| == 4 {
      assert EqualFold(s, "true") <==> forall i :: 0 <= i < 4 ==> FoldChar(s[i]) == "true"[i];
      assert SpellsTrue(s) ==> forall i :: 0 <= i < 4 ==> FoldChar(s[i]) == "true"[i];
    }
    if |s| == 5 {
      assert EqualFold(s, "false") <==> forall i :: 0 <= i < 5 ==> FoldChar(s[i]) == "false"[i];
      assert SpellsFalse(s) ==> forall i :: 0 <= i < 5 ==> FoldChar(s[i]) == "false"[i];
    }
  }

  /** A text in quotes stands for itself, whatever it looks like. */
  lemma QuotedText(lib: Library, t: string, ctx: Object)
    ensures ResolveValue(lib, "'" + t + "'", ctx) == Ok(Str(t))
    ensures ResolveValue(lib, "\"" + t + "\"", ctx) == Ok(Str(t))
  {
    var a, b := "'" + t + "'", "\"" + t + "\"";
    assert Trimmed(a) && Trimmed(b);
    TrimFixedPoints(a);
    TrimFixedPoints(b);
    assert a[1..|a| - 1] == t && b[1..|b| - 1] == t;
  }

  /** Neither quoted nor a truth value. */
  ghost predicate Unquoted(e: string) {
    && !(e != "" && e[0] == '\'' && e[|e| - 1] == '\'') && !(e != "" && e[0] == '"' && e[|e| - 1] == '"')
    && !SpellsTrue(e) && !SpellsFalse(e)
  }

  /** What an operand without quotes stands for: a truth value; else the number it parses to; else, with a
      dot, what the dotted path leads to; else the entry of the context under it. */
  lemma OperandMeaning(lib: Library, operand: string, ctx: Object)
    ensures var e, r := Trim(operand), ResolveValue(lib, operand, ctx);
      && (SpellsTrue(e) ==> r == Ok(Bool(true)))
      && (SpellsFalse(e) ==> r == Ok(Bool(false)))
      && (Unquoted(e) ==>
            && (forall x :: lib.parseFloat(e) == Some(x) ==> r == Ok(Float64(x)))
            && (lib.parseFloat(e) == None && '.' in e ==>
                  && (forall v :: Lookup(Obj(ctx), Split(e, ".")) == Some(v) ==> r == Ok(v))
                  && (Lookup(Obj(ctx), Split(e, ".")) == None ==> r == Fails(FieldNotFound(e))))
            && (lib.parseFloat(e) == None && '.' !in e ==>
                  && (e in ctx ==> r == Ok(ctx[e]))
                  && (e !in ctx ==> r == Fails(CannotResolve(e)))))
  {
    Spellings(Trim(operand));
  }

  lemma FirstChar(s: string, p: string, i: int)
    requires p != "" && OccursAt(s, p, i)
    ensures s[i] == p[0]
  {
    assert s[i..i + |p|][0] == s[i];
  }

  lemma NoDot(s: string)
    requires '.' !in s
    ensures !Contains(s, ".")
  {
    forall i ensures !OccursAt(s, ".", i) {
      if OccursAt(s, ".", i) { FirstChar(s, ".", i); }
    }
  }

  /** A dotted path walks from key to key. */
  lemma PathOfTwo(ctx: Object, a: string, b: string, inner: Object)
    requires a in ctx && ctx[a] == Obj(inner) && '.' !in a && '.' !in b
    ensures Lookup(Obj(ctx), Split(a + "." + b, ".")) == if b in inner then Some(inner[b]) else None
  {
    assert Separable([a, b], ".") by {
      assert "."[..0] == "" && a + "" == a;
      NoDot(a);
      NoDot(b);
    }
    JoinThenSplit([a, b], ".");
    assert [a, b][1..] == [b] && [b][1..] == [];
    assert Join([a, b], ".") == a + "." + b;
    assert Lookup(Obj(ctx), [a, b]) == Lookup(Obj(inner), [b]);
    if b in inner { assert Lookup(Obj(inner), [b]) == Lookup(inner[b], []); }
  }

  // ---------- whole texts ----------

  /** A text that no logical operator cuts. */
  ghost predicate Uncut(s: string) {
    Solid(s) && !HasWord(s, "AND") && !HasWord(s, "OR")
  }

  lemma UncutIsAlone(lib: Library, s: string, ctx: Object)
    requires Uncut(s)
    ensures Evaluate(lib, s, ctx) == EvaluateComparison(lib, s, ctx)
  {
    var f := [[s]];
    WordFreeIsUnambiguous(f);
    PrintThenEvaluate(lib, f, ctx);
    assert Print(f) == s;
    OneGroup(lib, [s], ctx);
    OneTruth(EvaluateComparison(lib, s, ctx), false);
    assert GroupMeaning(lib, [s], ctx) == EvaluateComparison(lib, s, ctx);
  }

  lemma OneTruth(t: Truth, stop: bool)
    ensures ShortCircuit([t], stop) == t
  {
    assert [t][1..] == [];
  }

  lemma OneGroup(lib: Library, g: seq<string>, ctx: Object)
    ensures Meaning(lib, [g], ctx) == GroupMeaning(lib, g, ctx)
  {
    OneTruth(GroupMeaning(lib, g, ctx), true);
    assert Each([g], (h: seq<string>) => GroupMeaning(lib, h, ctx)) == [GroupMeaning(lib, g, ctx)];
  }

  /** AND of two: the second counts only when the first is true. */
  function Both(a: Truth, b: Truth): Truth {
    if a == Ok(true) then b else a
  }

  /** OR of two: the second counts only when the first is false. */
  function Either(a: Truth, b: Truth): Truth {
    if a == Ok(false) then b else a
  }

  lemma TwoTruths(a: Truth, b: Truth)
    ensures ShortCircuit([a, b], false) == Both(a, b)
    ensures ShortCircuit([a, b], true) == Either(a, b)
  {
    assert [a, b][1..] == [b];
    OneTruth(b, false);
    OneTruth(b, true);
  }

  lemma PairMeaning(lib: Library, a: string, b: string, ctx: Object)
    requires Uncut(a) && Uncut(b)
    ensures GroupMeaning(lib, [a, b], ctx) == Both(Evaluate(lib, a, ctx), Evaluate(lib, b, ctx))
  {
    UncutIsAlone(lib, a, ctx);
    UncutIsAlone(lib, b, ctx);
    var x, y := EvaluateComparison(lib, a, ctx), EvaluateComparison(lib, b, ctx);
    assert Each([a, b], (s: string) => EvaluateComparison(lib, s, ctx)) == [x, y];
    TwoTruths(x, y);
  }

  /** The word AND joins by short circuit, the word OR as well, and AND binds more tightly. */
  lemma Precedence(lib: Library, a: string, b: string, c: string, ctx: Object)
    requires Uncut(a) && Uncut(b) && Uncut(c)
    ensures var x, y, z := Evaluate(lib, a, ctx), Evaluate(lib, b, ctx), Evaluate(lib, c, ctx);
      && Evaluate(lib, a + " AND " + b, ctx) == Both(x, y)
      && Evaluate(lib, a + " OR " + b + " AND " + c, ctx) == Either(x, Both(y, z))
      && Evaluate(lib, a + " AND " + b + " OR " + c, ctx) == Either(Both(x, y), z)
  {
    AndText(lib, a, b, ctx);
    OrThenAnd(lib, a, b, c, ctx);
    AndThenOr(lib, a, b, c, ctx);
  }

  lemma JoinOfTwo(a: string, b: string, sep: string)
    ensures Join([a, b], sep) == a + sep + b
  {
    assert [a, b][1..] == [b];
  }

  lemma AndText(lib: Library, a: string, b: string, ctx: Object)
    requires Uncut(a) && Uncut(b)
    ensures Evaluate(lib, a + " AND " + b, ctx) == Both(Evaluate(lib, a, ctx), Evaluate(lib, b, ctx))
  {
    var f := [[a, b]];
    WordFreeIsUnambiguous(f);
    PrintThenEvaluate(lib, f, ctx);
    JoinOfTwo(a, b, " AND ");
    assert Print(f) == a + " AND " + b;
    OneGroup(lib, [a, b], ctx);
    PairMeaning(lib, a, b, ctx);
  }

  lemma TwoGroups(lib: Library, g: seq<string>, h: seq<string>, ctx: Object)
    ensures Meaning(lib, [g, h], ctx) == Either(GroupMeaning(lib, g, ctx), GroupMeaning(lib, h, ctx))
  {
    var x, y := GroupMeaning(lib, g, ctx), GroupMeaning(lib, h, ctx);
    assert Each([g, h], (k: seq<string>) => GroupMeaning(lib, k, ctx)) == [x, y];
    TwoTruths(x, y);
  }

  lemma LoneGroup(lib: Library, a: string, ctx: Object)
    requires Uncut(a)
    ensures GroupMeaning(lib, [a], ctx) == Evaluate(lib, a, ctx)
  {
    UncutIsAlone(lib, a, ctx);
    OneTruth(EvaluateComparison(lib, a, ctx), false);
    assert Each([a], (s: string) => EvaluateComparison(lib, s, ctx)) == [EvaluateComparison(lib, a, ctx)];
  }

  lemma TwoGroupTexts(g: seq<string>, h: seq<string>)
    requires SolidParts(g) && SolidParts(h)
    ensures Print([g, h]) == Join(g, " AND ") + " OR " + Join(h, " AND ")
  {
    assert GroupTexts([g, h]) == [Join(g, " AND "), Join(h, " AND ")];
    JoinOfTwo(Join(g, " AND "), Join(h, " AND "), " OR ");
  }

  lemma EitherGroup(lib: Library, g: seq<string>, h: seq<string>, ctx: Object)
    requires SolidParts(g) && SolidParts(h)
    requires WordFree(g, "AND") && WordFree(g, "OR") && WordFree(h, "AND") && WordFree(h, "OR")
    ensures Evaluate(lib, Join(g, " AND ") + " OR " + Join(h, " AND "), ctx) ==
            Either(GroupMeaning(lib, g, ctx), GroupMeaning(lib, h, ctx))
  {
    assert SolidFormula([g, h]);
    WordFreeIsUnambiguous([g, h]);
    PrintThenEvaluate(lib, [g, h], ctx);
    TwoGroupTexts(g, h);
    TwoGroups(lib, g, h, ctx);
  }

  lemma Regroup(a: string, b: string, c: string)
    ensures a + " OR " + (b + " AND " + c) == a + " OR " + b + " AND " + c
  {
  }

  lemma OrThenAnd(lib: Library, a: string, b: string, c: string, ctx: Object)
    requires Uncut(a) && Uncut(b) && Uncut(c)
    ensures Evaluate(lib, a + " OR " + b + " AND " + c, ctx) ==
            Either(Evaluate(lib, a, ctx), Both(Evaluate(lib, b, ctx), Evaluate(lib, c, ctx)))
  {
    EitherGroup(lib, [a], [b, c], ctx);
    JoinOfTwo(b, c, " AND ");
    Regroup(a, b, c);
    LoneGroup(lib, a, ctx);
    PairMeaning(lib, b, c, ctx);
  }

  lemma AndThenOr(lib: Library, a: string, b: string, c: string, ctx: Object)
    requires Uncut(a) && Uncut(b) && Uncut(c)
    ensures Evaluate(lib, a + " AND " + b + " OR " + c, ctx) ==
            Either(Both(Evaluate(lib, a, ctx), Evaluate(lib, b, ctx)), Evaluate(lib, c, ctx))
  {
    EitherGroup(lib, [a, b], [c], ctx);
    JoinOfTwo(a, b, " AND ");
    PairMeaning(lib, a, b, ctx);
    LoneGroup(lib, c, ctx);
  }

  // ---------- comparisons ----------

  /** A value counts as the number x: a float of either width, an integer rounded, or a text that parses. */
  ghost predicate IsNumber(lib: Library, v: Value, x: Float) {
    || v == Float64(x)
    || v == Float32(x)
    || (exists i, kind :: v == Integer(i, kind) && x == lib.round(i))
    || (exists s :: v == Str(s) && lib.parseFloat(s) == Some(x))
  }

  ghost predicate NoNumber(lib: Library, v: Value) {
    forall x :: !IsNumber(lib, v, x)
  }

  lemma NumberOf(lib: Library, v: Value)
    ensures forall x :: IsNumber(lib, v, x) <==> ToFloat64(lib, v) == Some(x)
  {
  }

  /** An operand of a printed comparison: it contains no operator sign and no logical operator. */
  ghost predicate Operand(s: string) {
    Uncut(s) && OperatorFree(s)
  }

  lemma PrintedIsUncut(l: string, op: string, r: string)
    requires Operand(l) && Operand(r) && IsOperator(op)
    ensures Uncut(PrintComparison(l, op, r))
  {
    var e := PrintComparison(l, op, r);
    assert e[0] == l[0] && e[|e| - 1] == r[|r| - 1];
    assert e == l + " " + (op + " " + r);
    OperatorsAreNoWords(op);
    WordsOfSpaced(op, r, "AND");
    WordsOfSpaced(op, r, "OR");
    WordsOfSpaced(l, op + " " + r, "AND");
    WordsOfSpaced(l, op + " " + r, "OR");
  }

  lemma OperatorsAreNoWords(op: string)
    requires IsOperator(op)
    ensures !HasWord(op, "AND") && !HasWord(op, "OR")
  {
    OperatorSigns(op);
    if i :| WordAt(op, "AND", i) { FirstChar(op, "AND", i); }
    if i :| WordAt(op, "OR", i) { FirstChar(op, "OR", i); }
  }

  lemma PrintedComparison(lib: Library, l: string, op: string, r: string, ctx: Object)
    requires Operand(l) && Operand(r) && IsOperator(op)
    ensures Evaluate(lib, l + " " + op + " " + r, ctx) == Compare(lib, l, op, r, ctx)
  {
    PrintedIsUncut(l, op, r);
    UncutIsAlone(lib, PrintComparison(l, op, r), ctx);
    ComparisonRoundTrip(l, op, r);
  }

  /** The operands are resolved from left to right: the first that fails is the error, on its side. */
  lemma OperandErrors(lib: Library, l: string, op: string, r: string, ctx: Object)
    requires Operand(l) && Operand(r) && op in ["<", ">", "<=", ">=", "==", "!="]
    ensures var a, b := ResolveValue(lib, l, ctx), ResolveValue(lib, r, ctx);
      var t := Evaluate(lib, l + " " + op + " " + r, ctx);
      && (forall e :: a == Fails(e) ==> t == Fails(LeftSide(l, e)))
      && (forall v, e :: a == Ok(v) && b == Fails(e) ==> t == Fails(RightSide(r, e)))
      && (a == Panics ==> t == Panics)
      && (forall v :: a == Ok(v) && b == Panics ==> t == Panics)
  {
    SixOperators(op);
    PrintedComparison(lib, l, op, r, ctx);
  }

  lemma SixOperators(op: string)
    ensures op in ["<", ">", "<=", ">=", "==", "!="] <==> IsOperator(op)
  {
  }

  /** What t answers when x and y are compared by op. */
  predicate Answers(t: Truth, x: real, op: string, y: real) {
    && (op == "<" ==> t == Ok(x < y))
    && (op == ">" ==> t == Ok(x > y))
    && (op == "<=" ==> t == Ok(x <= y))
    && (op == ">=" ==> t == Ok(x >= y))
    && (op == "==" ==> t == Ok(x == y))
    && (op == "!=" ==> t == Ok(x != y))
  }

  /** What t answers when the numbers x and y are compared by op: any NaN makes all but != false, and the
      infinities lie on either side of all other numbers. */
  predicate AnswersNumbers(t: Truth, x: Float, op: string, y: Float) {
    && (x.Finite? && y.Finite? ==> Answers(t, x.r, op, y.r))
    && (x == NaN || y == NaN ==> t == Ok(op == "!="))
    && (x == Inf(true) && (y.Finite? || y == Inf(false)) ==> Answers(t, 0.0, op, 1.0))
    && (x == Inf(false) && (y.Finite? || y == Inf(true)) ==> Answers(t, 1.0, op, 0.0))
    && (x.Finite? && y == Inf(false) ==> Answers(t, 0.0, op, 1.0))
    && (x.Finite? && y == Inf(true) ==> Answers(t, 1.0, op, 0.0))
    && (x.Inf? && x == y ==> Answers(t, 0.0, op, 0.0))
  }

  lemma NumbersCompared(x: Float, op: string, y: Float)
    requires IsOperator(op)
    ensures AnswersNumbers(CompareNumbers(x, op, y), x, op, y)
  {
    SixOperators(op);
  }

  /** Between numbers, a comparison says how the left one stands to the right one. */
  lemma NumericAnswer(lib: Library, l: string, op: string, r: string, ctx: Object,
                      v: Value, u: Value, x: Float, y: Float)
    requires Operand(l) && Operand(r) && op in ["<", ">", "<=", ">=", "==", "!="]
    requires ResolveValue(lib, l, ctx) == Ok(v) && ResolveValue(lib, r, ctx) == Ok(u)
    requires IsNumber(lib, v, x) && IsNumber(lib, u, y)
    ensures AnswersNumbers(Evaluate(lib, l + " " + op + " " + r, ctx), x, op, y)
  {
    SixOperators(op);
    PrintedComparison(lib, l, op, r, ctx);
    NumberOf(lib, v);
    NumberOf(lib, u);
    NumbersCompared(x, op, y);
  }

  /** Where one side is no number, == and != compare the printed values, and the other operators fail. */
  lemma TextAnswer(lib: Library, l: string, op: string, r: string, ctx: Object, v: Value, u: Value)
    requires Operand(l) && Operand(r) && op in ["<", ">", "<=", ">=", "==", "!="]
    requires ResolveValue(lib, l, ctx) == Ok(v) && ResolveValue(lib, r, ctx) == Ok(u)
    requires NoNumber(lib, v) || NoNumber(lib, u)
    ensures var t := Evaluate(lib, l + " " + op + " " + r, ctx);
      && (op == "==" ==> t == Ok(lib.format(v) == lib.format(u)))
      && (op == "!=" ==> t == Ok(lib.format(v) != lib.format(u)))
      && (op in ["<", ">", "<=", ">="] ==> t == Fails(NeedsNumbers(op)))
  {
    SixOperators(op);
    PrintedComparison(lib, l, op, r, ctx);
    NumberOf(lib, v);
    NumberOf(lib, u);
  }

  /** A lone operand answers by the value it stands for: a truth value as itself, a text unless it is empty or
      spells false, a float or an int unless it is zero, null not at all, and anything else always. */
  lemma LoneOperand(lib: Library, l: string, ctx: Object)
    requires Operand(l)
    ensures var a, t := ResolveValue(lib, l, ctx), Evaluate(lib, l, ctx);
      && (forall b :: a == Ok(Bool(b)) ==> t == Ok(b))
      && (forall s :: a == Ok(Str(s)) ==> t == Ok(s != "" && !SpellsFalse(s)))
      && (forall f :: a == Ok(Float64(f)) ==> t == Ok(f != Finite(0.0)))
      && (forall i :: a == Ok(Integer(i, GoInt)) ==> t == Ok(i != 0))
      && (a == Ok(Null) ==> t == Ok(false))
      && (a.Ok? && (a.value.Obj? || a.value.Arr? || a.value.Float32?) ==> t == Ok(true))
      && (forall i, kind :: a == Ok(Integer(i, kind)) && kind != GoInt ==> t == Ok(true))
      && (forall e :: a == Fails(e) ==> t == Fails(CannotEvaluate(l, e)))
      && (a == Panics ==> t == Panics)
  {
    UncutIsAlone(lib, l, ctx);
    TrimFixedPoints(l);
    NoOperatorIn(l, TWO_CHAR_OPERATORS);
    NoOperatorIn(l, ONE_CHAR_OPERATORS);
    if ResolveValue(lib, l, ctx).Ok? && ResolveValue(lib, l, ctx).value.Str? {
      Spellings(ResolveValue(lib, l, ctx).value.s);
    }
  }

  lemma {:induction false} NoOperatorIn(l: string, ops: seq<string>)
    requires OperatorFree(l) && forall k :: 0 <= k < |ops| ==> IsOperator(ops[k])
    ensures FindOperator(l, ops) == None
    decreases |ops|
  {
    if ops == [] {
    } else {
      OperatorSigns(ops[0]);
      var i := Index(l, ops[0]);
      if i >= 0 { FirstChar(l, ops[0], i); }
      NoOperatorIn(l, ops[1..]);
    }
  }

  // ---------- which operator ----------

  const OPERATORS := [">=", "<=", "==", "!=", ">", "<"]

  /** The operator p splits e at i: its first occurrence, past the start and, for a sign of its own, not before
      an equality sign. */
  ghost predicate SplitsAt(e: string, p: string, i: int) {
    && i > 0 && OccursAt(e, p, i) && (forall j :: 0 <= j < i ==> !OccursAt(e, p, j))
    && (|p| == 1 && i + 1 < |e| ==> e[i + 1] != '=')
  }

  /** None of the first k operators splits e. */
  ghost predicate NoneSplits(e: string, ops: seq<string>, k: nat)
    requires k <= |ops|
  {
    forall j, n :: 0 <= j < k ==> !SplitsAt(e, ops[j], n)
  }

  lemma FirstSplits(e: string, p: string)
    requires p != ""
    ensures var i := Index(e, p);
      if i > 0 && !(|p| == 1 && i + 1 < |e| && e[i + 1] == '=') then SplitsAt(e, p, i)
      else forall n :: !SplitsAt(e, p, n)
  {
  }

  lemma NoneOfMore(e: string, ops: seq<string>, k: nat)
    requires ops != [] && k <= |ops[1..]| && NoneSplits(e, ops[1..], k) && forall n :: !SplitsAt(e, ops[0], n)
    ensures NoneSplits(e, ops, k + 1)
  {
    forall j, n | 0 <= j < k + 1 ensures !SplitsAt(e, ops[j], n) {
      if j > 0 { assert ops[j] == ops[1..][j - 1]; }
    }
  }

  lemma {:induction false} FoundAt(e: string, ops: seq<string>) returns (k: nat, i: nat)
    requires forall j :: 0 <= j < |ops| ==> ops[j] != ""
    ensures k <= |ops| && NoneSplits(e, ops, k)
    ensures k == |ops| ==> FindOperator(e, ops) == None
    ensures k < |ops| ==> FindOperator(e, ops) == Some((ops[k], i)) && SplitsAt(e, ops[k], i)
    decreases |ops|
  {
    if ops == [] { return 0, 0; }
    FirstSplits(e, ops[0]);
    var at := Index(e, ops[0]);
    if at > 0 && !(|ops[0]| == 1 && at + 1 < |e| && e[at + 1] == '=') { return 0, at; }
    k, i := FoundAt(e, ops[1..]);
    NoneOfMore(e, ops, k);
    k := k + 1;
  }

  lemma NoneOfBoth(e: string, k: nat)
    requires k <= 2 && NoneSplits(e, TWO_CHAR_OPERATORS, 4) && NoneSplits(e, ONE_CHAR_OPERATORS, k)
    ensures NoneSplits(e, OPERATORS, 4 + k)
  {
    forall j, n | 0 <= j < 4 + k ensures !SplitsAt(e, OPERATORS[j], n) {
      if j < 4 {
        assert OPERATORS[j] == TWO_CHAR_OPERATORS[j];
      } else {
        assert OPERATORS[j] == ONE_CHAR_OPERATORS[j - 4];
      }
    }
  }

  lemma NoneOfFirst(e: string, k: nat)
    requires k <= 4 && NoneSplits(e, TWO_CHAR_OPERATORS, k)
    ensures NoneSplits(e, OPERATORS, k)
  {
    forall j, n | 0 <= j < k ensures !SplitsAt(e, OPERATORS[j], n) {
      assert OPERATORS[j] == TWO_CHAR_OPERATORS[j];
    }
  }

  /** The text is cut at place i by the operator p. */
  ghost predicate CutAt(expr: string, p: string, i: nat) {
    var e := Trim(expr);
    SplitsAt(e, p, i) && ParseAtom(expr) == Binary(Trim(e[..i]), p, Trim(e[i + |p|..]))
  }

  lemma CutByTwo(expr: string, k: nat, i: nat)
    requires k < 4 && SplitsAt(Trim(expr), TWO_CHAR_OPERATORS[k], i)
    requires FindOperator(Trim(expr), TWO_CHAR_OPERATORS) == Some((TWO_CHAR_OPERATORS[k], i))
    ensures CutAt(expr, OPERATORS[k], i)
  {
    assert OPERATORS[k] == TWO_CHAR_OPERATORS[k];
  }

  lemma CutByOne(expr: string, k: nat, i: nat)
    requires k < 2 && SplitsAt(Trim(expr), ONE_CHAR_OPERATORS[k], i)
    requires FindOperator(Trim(expr), TWO_CHAR_OPERATORS) == None
    requires FindOperator(Trim(expr), ONE_CHAR_OPERATORS) == Some((ONE_CHAR_OPERATORS[k], i))
    ensures CutAt(expr, OPERATORS[4 + k], i)
  {
    assert OPERATORS[4 + k] == ONE_CHAR_OPERATORS[k];
  }

  /** A text is cut at the first operator, in this order of preference, that splits it; without one it is a
      lone operand. */
  lemma OperatorPriority(expr: string) returns (k: nat, i: nat)
    ensures k <= 6 && NoneSplits(Trim(expr), OPERATORS, k)
    ensures if k == 6 then ParseAtom(expr) == Bare(Trim(expr)) else CutAt(expr, OPERATORS[k], i)
  {
    var e := Trim(expr);
    k, i := FoundAt(e, TWO_CHAR_OPERATORS);
    if k < 4 {
      NoneOfFirst(e, k);
      CutByTwo(expr, k, i);
    } else {
      var one;
      one, i := FoundAt(e, ONE_CHAR_OPERATORS);
      NoneOfBoth(e, one);
      if one < 2 { CutByOne(expr, one, i); }
      k := 4 + one;
    }
  }
}
