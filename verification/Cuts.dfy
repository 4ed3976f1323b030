/**
 Where a message is cut: after the stops, and within a long sentence after the last break of every window.
 The positions are described by the text alone, and the splitter is shown to cut there and nowhere else.
 */
module Cuts {
  import opened SplitText

  const STOPS: Text := "。！？!?\n"
  const BREAKS: Text := "、，,・;:：；"

  lemma StopsAndBreaks(c: char)
    ensures IsStop(c) <==> c in STOPS
    ensures IsBreak(c) <==> c in BREAKS
  {
  }

  /** Among the ASCII characters, whitespace is the blank and the five controls from tab to return. */
  lemma AsciiSpaces(c: char)
    requires c < 128 as char
    ensures IsSpace(c) <==> c == ' ' || '\t' <= c <= '\r'
  {
  }

  /** Trimming cuts off the whitespace at both ends and nothing else. */
  lemma TrimCutsWhitespace(s: Text) returns (i: nat, j: nat)
    ensures i <= j <= |s| && Trim(s) == s[i..j]
    ensures forall k :: 0 <= k < i || j <= k < |s| ==> IsSpace(s[k])
    ensures i < j ==> !IsSpace(s[i]) && !IsSpace(s[j - 1])
  {
    i := LeftWhitespace(s);
    var k := RightWhitespace(s[i..]);
    j := i + k;
    assert s[i..][..k] == s[i..j];
    assert forall n :: j <= n < |s| ==> s[n] == s[i..][n - i];
  }

  lemma {:induction false} LeftWhitespace(s: Text) returns (i: nat)
    ensures i <= |s| && TrimLeft(s) == s[i..]
    ensures forall k :: 0 <= k < i ==> IsSpace(s[k])
    ensures i < |s| ==> !IsSpace(s[i])
  {
    i := 0;
    if s != [] && IsSpace(s[0]) {
      var k := LeftWhitespace(s[1..]);
      assert forall n :: 1 <= n < |s| ==> s[n] == s[1..][n - 1];
      assert s[1..][k..] == s[1 + k..];
      i := 1 + k;
    }
  }

  lemma {:induction false} RightWhitespace(s: Text) returns (j: nat)
    ensures j <= |s| && TrimRight(s) == s[..j]
    ensures forall k :: j <= k < |s| ==> IsSpace(s[k])
    ensures 0 < j ==> !IsSpace(s[j - 1])
  {
    j := |s|;
    if s != [] && IsSpace(s[|s| - 1]) {
      j := RightWhitespace(s[..|s| - 1]);
      assert s[..|s| - 1][..j] == s[..j];
    }
  }

  predicate Trimmed(s: Text) {
    s != [] ==> !IsSpace(s[0]) && !IsSpace(s[|s| - 1])
  }

  lemma TrimIsTrimmed(s: Text)
    ensures Trimmed(Trim(s))
  {
    var i, j := TrimCutsWhitespace(s);
  }

  lemma {:induction false} GreedyIsTrimmed(s: Text, start: nat)
    requires start <= |s|
    ensures forall p :: p in Greedy(s, start) ==> Trimmed(p)
    decreases |s| - start
  {
    TrimIsTrimmed(s[start..]);
    if start + MAX_PART_RUNES <= |s| {
      TrimIsTrimmed(s[start..CutEnd(s, start)]);
      GreedyIsTrimmed(s, CutEnd(s, start));
    }
  }

  lemma {:induction false} SplitFromIsTrimmed(s: Text, from: nat)
    requires from <= |s|
    ensures forall p :: p in SplitFrom(s, from) ==> Trimmed(p)
    decreases |s| - from
  {
    if from < |s| {
      var sentence := s[from..SentenceEnd(s, from)];
      TrimIsTrimmed(sentence);
      GreedyIsTrimmed(Trim(sentence), 0);
      SplitFromIsTrimmed(s, SentenceEnd(s, from));
    }
  }

  /** No part begins or ends with whitespace. */
  lemma PartsAreTrimmed(s: Text)
    ensures forall p :: p in Split(s) ==> Trimmed(p)
  {
    SplitFromIsTrimmed(s, 0);
  }

  /** A text without a stop before its last rune is one sentence: one part if it fits, none if it is blank. */
  lemma OneSentence(s: Text)
    requires forall j :: 0 <= j < |s| - 1 ==> s[j] !in STOPS
    ensures Split(s) == SentenceParts(s)
    ensures Trim(s) == [] ==> Split(s) == []
    ensures 0 < |Trim(s)| <= 100 ==> Split(s) == [Trim(s)]
  {
    if s != [] {
      assert forall j :: 0 <= j < |s| - 1 ==> !IsStop(s[j]);
      SentenceEndsAtFirstStop(s, 0, |s| - 1);
      assert s[0..|s|] == s;
      assert SplitFrom(s, |s|) == [];
    }
  }

  /** `b` is what `whole` holds from `n` on. */
  ghost predicate EndsIn(whole: Text, n: nat, b: Text) {
    n + |b| == |whole| && forall j :: 0 <= j < |b| ==> whole[n + j] == b[j]
  }

  lemma {:induction false} SentenceEndShifts(whole: Text, n: nat, b: Text, from: nat)
    requires EndsIn(whole, n, b) && from < |b|
    ensures SentenceEnd(whole, n + from) == n + SentenceEnd(b, from)
    decreases |b| - from
  {
    if !IsStop(b[from]) && from + 1 < |b| {
      SentenceEndShifts(whole, n, b, from + 1);
    }
  }

  /** What `parts` makes of every sentence from `from` on. */
  function Each(parts: Text -> seq<Text>, s: Text, from: nat): seq<Text>
    requires from <= |s|
    decreases |s| - from
  {
    if from == |s| then [] else parts(s[from..SentenceEnd(s, from)]) + Each(parts, s, SentenceEnd(s, from))
  }

  lemma {:induction false} SplitIsEach(s: Text, from: nat)
    requires from <= |s|
    ensures SplitFrom(s, from) == Each(SentenceParts, s, from)
    decreases |s| - from
  {
    if from < |s| {
      SplitIsEach(s, SentenceEnd(s, from));
    }
  }

  lemma SliceOfRest(whole: Text, n: nat, b: Text, from: nat, k: nat)
    requires EndsIn(whole, n, b) && from <= k <= |b|
    ensures whole[n + from..n + k] == b[from..k]
  {
  }

  lemma {:induction false} EachShifts(parts: Text -> seq<Text>, whole: Text, n: nat, b: Text, from: nat)
    requires EndsIn(whole, n, b) && from <= |b|
    ensures Each(parts, whole, n + from) == Each(parts, b, from)
    decreases |b| - from
  {
    if from < |b| {
      var k := SentenceEnd(b, from);
      SentenceEndShifts(whole, n, b, from);
      SliceOfRest(whole, n, b, from, k);
      EachShifts(parts, whole, n, b, k);
    }
  }

  lemma {:induction false} SentenceEndStays(a: Text, b: Text, from: nat)
    requires from < |a| && IsStop(a[|a| - 1])
    ensures SentenceEnd(a + b, from) == SentenceEnd(a, from)
    decreases |a| - from
  {
    if !IsStop(a[from]) {
      SentenceEndStays(a, b, from + 1);
    }
  }

  lemma SliceOfFirst(a: Text, b: Text, from: nat, k: nat)
    requires from <= k <= |a|
    ensures (a + b)[from..k] == a[from..k]
  {
  }

  lemma {:induction false} EachAppends(parts: Text -> seq<Text>, a: Text, b: Text, from: nat)
    requires from <= |a| && (a != [] ==> IsStop(a[|a| - 1]))
    ensures Each(parts, a + b, from) == Each(parts, a, from) + Each(parts, b, 0)
    decreases |a| - from
  {
    if from == |a| {
      EachShifts(parts, a + b, |a|, b, 0);
    } else {
      var k := SentenceEnd(a, from);
      SentenceEndStays(a, b, from);
      SliceOfFirst(a, b, from, k);
      EachAppends(parts, a, b, k);
      AppendAssociates(parts(a[from..k]), Each(parts, a, k), Each(parts, b, 0));
    }
  }

  /** After a stop a new sentence begins: what follows is split as if it stood alone. */
  lemma SplitAppend(a: Text, b: Text)
    requires a != [] ==> a[|a| - 1] in STOPS
    ensures Split(a + b) == Split(a) + Split(b)
  {
    EachAppends(SentenceParts, a, b, 0);
    SplitIsEach(a + b, 0);
    SplitIsEach(a, 0);
    SplitIsEach(b, 0);
  }

  /** Where a window of 100 runes from `b` is cut: after its last break, or at its end when it has none. */
  predicate CutsAt(s: Text, b: nat, e: nat) {
    && b < e <= |s|
    && if |s| < b + 100 then e == |s| else CutsWindow(s, b, e)
  }

  predicate CutsWindow(s: Text, b: nat, e: nat)
    requires b < e <= |s| && b + 100 <= |s|
  {
    && e <= b + 100 && Unbroken(s, e, b + 100)
    && (s[e - 1] in BREAKS || (e == b + 100 && Unbroken(s, b, e)))
  }

  predicate Unbroken(s: Text, b: nat, e: nat)
    requires e <= |s|
  {
    forall j :: b <= j < e ==> s[j] !in BREAKS
  }

  lemma CutEndCuts(s: Text, start: nat)
    requires start + MAX_PART_RUNES <= |s|
    ensures CutsAt(s, start, CutEnd(s, start))
  {
    LastBreakEndIsLast(s, start, start + MAX_PART_RUNES);
  }

  /** The positions at which `s` is cut, from `start` to its end. */
  ghost predicate Cutting(s: Text, start: nat, at: seq<nat>) {
    && |at| >= 1 && at[0] == start && at[|at| - 1] == |s|
    && forall i :: 0 <= i < |at| - 1 ==> CutsAt(s, at[i], at[i + 1])
  }

  ghost predicate CutUp(s: Text, at: seq<nat>, parts: seq<Text>) {
    && |parts| == |at| - 1
    && forall i :: 0 <= i < |parts| ==> IsPart(s, at[i], at[i + 1], parts[i])
  }

  predicate IsPart(s: Text, b: nat, e: nat, part: Text) {
    b <= e <= |s| && part == Trim(s[b..e])
  }

  lemma {:induction false} GreedyIsCutUp(s: Text, start: nat) returns (at: seq<nat>)
    requires start <= |s|
    ensures Cutting(s, start, at) && CutUp(s, at, Greedy(s, start))
    decreases |s| - start
  {
    if start == |s| {
      at := [start];
    } else if start + MAX_PART_RUNES > |s| {
      at := [start, |s|];
      assert s[start..|s|] == s[start..];
    } else {
      var k := CutEnd(s, start);
      CutEndCuts(s, start);
      var rest := GreedyIsCutUp(s, k);
      CuttingGrows(s, start, k, rest, Greedy(s, k));
      at := [start] + rest;
    }
  }

  lemma CuttingGrows(s: Text, start: nat, k: nat, at: seq<nat>, parts: seq<Text>)
    requires CutsAt(s, start, k) && Cutting(s, k, at) && CutUp(s, at, parts)
    ensures Cutting(s, start, [start] + at) && CutUp(s, [start] + at, [Trim(s[start..k])] + parts)
  {
    var (at', parts') := ([start] + at, [Trim(s[start..k])] + parts);
    forall i | 0 <= i < |at'| - 1 ensures CutsAt(s, at'[i], at'[i + 1]) {
      assert i > 0 ==> CutsAt(s, at[i - 1], at[i]);
    }
    forall i | 0 <= i < |parts'| ensures IsPart(s, at'[i], at'[i + 1], parts'[i]) {
      assert i > 0 ==> IsPart(s, at[i - 1], at[i], parts[i - 1]);
    }
  }

  /** A sentence that does not fit is cut at these positions, and every part is the trimmed text between two. */
  lemma LongSentenceIsCutUp(s: Text) returns (at: seq<nat>)
    requires (forall j :: 0 <= j < |s| - 1 ==> s[j] !in STOPS) && |Trim(s)| > 100
    ensures Cutting(Trim(s), 0, at) && CutUp(Trim(s), at, Split(s))
  {
    OneSentence(s);
    at := GreedyIsCutUp(Trim(s), 0);
  }

  lemma NextCutIsUnique(s: Text, b: nat, e: nat, e': nat)
    requires CutsAt(s, b, e) && CutsAt(s, b, e')
    ensures e == e'
  {
  }

  /** There is one way to cut. */
  lemma {:induction false} CuttingIsUnique(s: Text, start: nat, at: seq<nat>, at': seq<nat>)
    requires Cutting(s, start, at) && Cutting(s, start, at')
    ensures at == at'
    decreases |at|
  {
    CuttingEnds(s, start, at);
    CuttingEnds(s, start, at');
    if |at| > 1 {
      NextCutIsUnique(s, start, at[1], at'[1]);
      RestCuts(s, start, at);
      RestCuts(s, start, at');
      CuttingIsUnique(s, at[1], at[1..], at'[1..]);
      assert at == [start] + at[1..] && at' == [start] + at'[1..];
    } else {
      assert at == [start] && at' == [start];
    }
  }

  lemma CuttingEnds(s: Text, start: nat, at: seq<nat>)
    requires Cutting(s, start, at)
    ensures start < |s| <==> |at| > 1
  {
    if |at| > 1 {
      assert CutsAt(s, at[0], at[1]);
    }
  }

  lemma RestCuts(s: Text, start: nat, at: seq<nat>)
    requires Cutting(s, start, at) && |at| > 1
    ensures Cutting(s, at[1], at[1..])
  {
    forall i | 0 <= i < |at[1..]| - 1 ensures CutsAt(s, at[1..][i], at[1..][i + 1]) {
      assert CutsAt(s, at[i + 1], at[i + 2]);
    }
  }
}
