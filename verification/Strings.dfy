/** The string operations the engine relies on, with the laws of splitting and joining. */
module Strings {

  // ---------- white space ----------

  predicate IsSpace(c: char) {
    || c == ' ' || '\t' <= c <= '\r' || c == '\U{85}' || c == '\U{A0}' || c == '\U{1680}'
    || '\U{2000}' <= c <= '\U{200A}' || c == '\U{2028}' || c == '\U{2029}'
    || c == '\U{202F}' || c == '\U{205F}' || c == '\U{3000}'
  }

  /** The characters with the White_Space property of Unicode, by code point. */
  lemma WhiteSpaceTable(c: char)
    ensures IsSpace(c) <==>
      c as int in {9, 10, 11, 12, 13, 32, 133, 160, 5760, 8192, 8193, 8194, 8195, 8196, 8197, 8198, 8199, 8200,
                   8201, 8202, 8232, 8233, 8239, 8287, 12288}
  {
  }

  function TrimLeft(s: string): string {
    if |s| > 0 && IsSpace(s[0]) then TrimLeft(s[1..]) else s
  }

  function TrimRight(s: string): string {
    if |s| > 0 && IsSpace(s[|s| - 1]) then TrimRight(s[..|s| - 1]) else s
  }

  function Trim(s: string): string {
    TrimRight(TrimLeft(s))
  }

  predicate Trimmed(s: string) {
    s == "" || (!IsSpace(s[0]) && !IsSpace(s[|s| - 1]))
  }

  lemma TrimLeftShortens(s: string)
    ensures |TrimLeft(s)| <= |s|
    ensures |TrimLeft(s)| == |s| ==> TrimLeft(s) == s
    ensures TrimLeft(s) == "" || !IsSpace(TrimLeft(s)[0])
    ensures TrimLeft(s) != "" ==> TrimLeft(s)[|TrimLeft(s)| - 1] == s[|s| - 1]
  {
  }

  lemma TrimRightShortens(s: string)
    ensures |TrimRight(s)| <= |s|
    ensures |TrimRight(s)| == |s| ==> TrimRight(s) == s
    ensures TrimRight(s) == "" || !IsSpace(TrimRight(s)[|TrimRight(s)| - 1])
    ensures TrimRight(s) != "" ==> TrimRight(s)[0] == s[0]
  {
  }

  /** Trimming yields a trimmed string, and the trimmed strings are its fixed points. */
  lemma TrimFixedPoints(s: string)
    ensures Trimmed(Trim(s))
    ensures Trim(s) == s <==> Trimmed(s)
  {
    TrimLeftShortens(s);
    TrimRightShortens(TrimLeft(s));
  }

  // ---------- occurrences ----------

  predicate OccursAt(s: string, p: string, i: int) {
    0 <= i <= |s| - |p| && s[i..i + |p|] == p
  }

  ghost predicate Contains(s: string, p: string) {
    exists i :: OccursAt(s, p, i)
  }

  /** The index of the first occurrence of p in s at or after `from`, or -1. */
  function IndexFrom(s: string, p: string, from: nat): (r: int)
    requires from <= |s|
    ensures r == -1 || (from <= r && OccursAt(s, p, r))
    ensures forall i :: from <= i && (r == -1 || i < r) ==> !OccursAt(s, p, i)
    decreases |s| - from
  {
    if from + |p| > |s| then -1
    else if s[from..from + |p|] == p then from
    else if from == |s| then -1
    else IndexFrom(s, p, from + 1)
  }

  function Index(s: string, p: string): (r: int)
    ensures r == -1 <==> !Contains(s, p)
    ensures r != -1 ==> OccursAt(s, p, r)
    ensures forall i :: 0 <= i && (r == -1 || i < r) ==> !OccursAt(s, p, i)
  {
    IndexFrom(s, p, 0)
  }

  // ---------- splitting and joining ----------

  function Split(s: string, sep: string): (parts: seq<string>)
    requires sep != ""
    ensures parts != []
    decreases |s|
  {
    var i := Index(s, sep);
    if i < 0 then [s] else [s[..i]] + Split(s[i + |sep|..], sep)
  }

  function Join(parts: seq<string>, sep: string): string
    requires parts != []
  {
    if |parts| == 1 then parts[0] else parts[0] + sep + Join(parts[1..], sep)
  }

  lemma OccursInSlice(s: string, lo: nat, hi: nat, p: string, k: int)
    requires lo <= hi <= |s|
    ensures OccursAt(s[lo..hi], p, k) <==> 0 <= k <= hi - lo - |p| && OccursAt(s, p, lo + k)
  {
    if 0 <= k <= hi - lo - |p| {
      var t, u := s[lo..hi][k..k + |p|], s[lo + k..lo + k + |p|];
      assert forall j :: 0 <= j < |p| ==> t[j] == s[lo + k + j] == u[j];
      assert t == u;
    }
  }

  lemma JoinCons(p: string, parts: seq<string>, sep: string)
    requires parts != []
    ensures Join([p] + parts, sep) == p + sep + Join(parts, sep)
  {
    assert ([p] + parts)[1..] == parts;
  }

  lemma NothingBeforeIndex(s: string, sep: string)
    requires sep != "" && Index(s, sep) >= 0
    ensures !Contains(s[..Index(s, sep)], sep)
  {
    var i := Index(s, sep);
    forall k ensures !OccursAt(s[..i], sep, k) {
      OccursInSlice(s, 0, i, sep, k);
    }
  }

  /** Splitting loses nothing, and leaves no separator inside a part. */
  lemma {:induction false} SplitThenJoin(s: string, sep: string)
    requires sep != ""
    ensures Join(Split(s, sep), sep) == s
    ensures forall i :: 0 <= i < |Split(s, sep)| ==> !Contains(Split(s, sep)[i], sep)
    decreases |s|
  {
    var i := Index(s, sep);
    if i < 0 {
    } else {
      var rest := s[i + |sep|..];
      SplitThenJoin(rest, sep);
      JoinCons(s[..i], Split(rest, sep), sep);
      assert s == s[..i] + sep + rest;
      NothingBeforeIndex(s, sep);
    }
  }

  /** No separator starts inside p when p is followed by a separator. */
  ghost predicate Clear(p: string, sep: string)
    requires sep != ""
  {
    !Contains(p + sep[..|sep| - 1], sep)
  }

  ghost predicate Separable(parts: seq<string>, sep: string)
    requires sep != ""
  {
    && parts != []
    && (forall i :: 0 <= i < |parts| - 1 ==> Clear(parts[i], sep))
    && !Contains(parts[|parts| - 1], sep)
  }

  lemma FirstSeparator(p: string, sep: string, rest: string)
    requires sep != ""
    ensures Index(p + sep + rest, sep) == |p| <==> Clear(p, sep)
    ensures 0 <= Index(p + sep + rest, sep) <= |p|
  {
    var s := p + sep + rest;
    var hi := |p| + |sep| - 1;
    assert s[|p|..|p| + |sep|] == sep;
    assert OccursAt(s, sep, |p|);
    assert p + sep[..|sep| - 1] == s[..hi];
    forall k ensures OccursAt(s[..hi], sep, k) <==> 0 <= k < |p| && OccursAt(s, sep, k) {
      OccursInSlice(s, 0, hi, sep, k);
    }
  }

  lemma SplitCons(p: string, sep: string, rest: string)
    requires sep != ""
    ensures Clear(p, sep) ==> Split(p + sep + rest, sep) == [p] + Split(rest, sep)
    ensures !Clear(p, sep) ==> |Split(p + sep + rest, sep)[0]| < |p|
  {
    FirstSeparator(p, sep, rest);
    var s := p + sep + rest;
    if Clear(p, sep) {
      assert s[..|p|] == p && s[|p| + |sep|..] == rest;
    }
  }

  lemma SeparableCons(p: string, parts: seq<string>, sep: string)
    requires sep != "" && parts != []
    ensures Separable([p] + parts, sep) <==> Clear(p, sep) && Separable(parts, sep)
  {
    var all := [p] + parts;
    assert forall i :: 0 < i < |all| ==> all[i] == parts[i - 1];
    if Separable(all, sep) {
      forall i | 0 <= i < |parts| - 1 ensures Clear(parts[i], sep) { assert Clear(all[i + 1], sep); }
      assert Clear(all[0], sep);
    }
  }

  /** Joining and splitting again gives back the parts exactly when the parts are separable. */
  lemma {:induction false} JoinThenSplit(parts: seq<string>, sep: string)
    requires parts != [] && sep != ""
    ensures Split(Join(parts, sep), sep) == parts <==> Separable(parts, sep)
    decreases |parts|
  {
    if |parts| == 1 {
      assert Contains(parts[0], sep) ==> |Split(parts[0], sep)| > 1;
    } else {
      var p, tail := parts[0], parts[1..];
      assert parts == [p] + tail;
      JoinThenSplit(tail, sep);
      JoinCons(p, tail, sep);
      SplitCons(p, sep, Join(tail, sep));
      SeparableCons(p, tail, sep);
      SameHead(p, Split(Join(tail, sep), sep), tail);
    }
  }

  lemma SameHead(p: string, a: seq<string>, b: seq<string>)
    ensures [p] + a == [p] + b <==> a == b
  {
    assert ([p] + a)[1..] == a && ([p] + b)[1..] == b;
  }

  // ---------- words ----------

  /** w stands in s as a whole word: bounded on both sides by a space or an end of s. */
  predicate WordAt(s: string, w: string, i: int) {
    && OccursAt(s, w, i)
    && (i == 0 || s[i - 1] == ' ')
    && (i + |w| == |s| || s[i + |w|] == ' ')
  }

  ghost predicate HasWord(s: string, w: string) {
    exists i :: WordAt(s, w, i)
  }

  predicate IsWord(w: string) {
    w != "" && forall i :: 0 <= i < |w| ==> w[i] != ' '
  }

  lemma PatternIsWord(s: string, w: string, i: int)
    requires OccursAt(s, " " + w + " ", i)
    ensures WordAt(s, w, i + 1)
  {
    var p := " " + w + " ";
    assert forall k :: 0 <= k < |p| ==> s[i + k] == s[i..i + |p|][k] == p[k];
    assert s[i] == p[0] == ' ' && s[i + 1 + |w|] == p[1 + |w|] == ' ';
    var word := s[i + 1..i + 1 + |w|];
    forall k | 0 <= k < |w| ensures word[k] == w[k] {
      assert word[k] == s[i + (1 + k)] == p[1 + k];
    }
    assert word == w;
  }

  /** A word of the first part of a text is a word of that part when it ends there. */
  lemma WordInPrefix(a: string, c: string, w: string, i: int)
    requires WordAt(a + c, w, i) && i + |w| <= |a|
    ensures WordAt(a, w, i)
  {
    assert (a + c)[..|a|] == a;
    OccursInSlice(a + c, 0, |a|, w, i);
  }

  /** A string without the word w is clear of the operator pattern " w ", also at its right end. */
  lemma NoWordIsClear(s: string, w: string)
    requires IsWord(w) && !HasWord(s, w)
    ensures Clear(s, " " + w + " ") && !Contains(s, " " + w + " ")
  {
    var p := " " + w + " ";
    forall i ensures !OccursAt(s, p, i) {
      if OccursAt(s, p, i) { PatternIsWord(s, w, i); }
    }
    var t := s + (" " + w);
    assert t == s + p[..|p| - 1];
    assert forall k :: |s| < k < |t| ==> t[k] == w[k - |s| - 1];
    forall i ensures !OccursAt(t, p, i) {
      if OccursAt(t, p, i) {
        PatternIsWord(t, w, i);
        assert t[i + 1 + |w|] == ' ';
        WordInPrefix(s, " " + w, w, i + 1);
      }
    }
  }

  lemma WordEndsBefore(s: string, w: string, i: int, n: nat)
    requires IsWord(w) && OccursAt(s, w, i) && i <= n < |s| && s[n] == ' '
    ensures i + |w| <= n
  {
    var word := s[i..i + |w|];
    assert forall k :: 0 <= k < |w| ==> word[k] == s[i + k];
  }

  lemma WordBeforeSpace(a: string, b: string, w: string, i: int)
    requires IsWord(w) && WordAt(a + " " + b, w, i) && i <= |a|
    ensures WordAt(a, w, i)
  {
    var s := a + " " + b;
    assert s == a + (" " + b);
    WordEndsBefore(s, w, i, |a|);
    WordInPrefix(a, " " + b, w, i);
  }

  lemma WordAfterSpace(a: string, b: string, w: string, i: int)
    requires IsWord(w) && WordAt(a + " " + b, w, i) && i > |a|
    ensures WordAt(b, w, i - |a| - 1)
  {
    var s, n := a + " " + b, |a| + 1;
    assert s[n..] == b;
    OccursInSlice(s, n, |s|, w, i - n);
  }

  lemma WordOfEither(a: string, b: string, w: string, i: int)
    requires IsWord(w) && WordAt(a + " " + b, w, i)
    ensures WordAt(a, w, i) || WordAt(b, w, i - |a| - 1)
  {
    if i <= |a| {
      WordBeforeSpace(a, b, w, i);
    } else {
      WordAfterSpace(a, b, w, i);
    }
  }

  lemma WordOfFirst(a: string, b: string, w: string, i: int)
    requires WordAt(a, w, i)
    ensures WordAt(a + " " + b, w, i)
  {
    var s := a + " " + b;
    assert s[..|a|] == a;
    OccursInSlice(s, 0, |a|, w, i);
  }

  lemma WordOfSecond(a: string, b: string, w: string, i: int)
    requires WordAt(b, w, i)
    ensures WordAt(a + " " + b, w, i + |a| + 1)
  {
    var s := a + " " + b;
    assert s[|a| + 1..] == b;
    OccursInSlice(s, |a| + 1, |s|, w, i);
  }

  /** The words of `a b` are the words of a and the words of b. */
  lemma WordsOfSpaced(a: string, b: string, w: string)
    requires IsWord(w)
    ensures HasWord(a + " " + b, w) <==> HasWord(a, w) || HasWord(b, w)
  {
    if i :| WordAt(a + " " + b, w, i) { WordOfEither(a, b, w, i); }
    if i :| WordAt(a, w, i) { WordOfFirst(a, b, w, i); }
    if i :| WordAt(b, w, i) { WordOfSecond(a, b, w, i); }
  }

  lemma {:induction false} WordsOfJoin(parts: seq<string>, op: string, w: string)
    requires parts != [] && IsWord(w) && IsWord(op) && op != w
    requires forall p :: p in parts ==> !HasWord(p, w)
    ensures !HasWord(Join(parts, " " + op + " "), w)
    decreases |parts|
  {
    if |parts| == 1 {
    } else {
      var rest := Join(parts[1..], " " + op + " ");
      WordsOfJoin(parts[1..], op, w);
      assert !HasWord(op, w) by {
        assert forall i :: WordAt(op, w, i) ==> i == 0 && |w| == |op|;
      }
      WordsOfSpaced(op, rest, w);
      WordsOfSpaced(parts[0], op + " " + rest, w);
      assert Join(parts, " " + op + " ") == parts[0] + " " + (op + " " + rest);
    }
  }
}
