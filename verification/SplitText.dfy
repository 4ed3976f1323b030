/**
 Splitting a message into speakable parts. The one-pass splitter keeps scanning forward after cutting
 back to the last break; it computes what a recursive greedy splitter computes.
 */
module SplitText {

  type Text = seq<char>

  const MAX_PART_RUNES: nat := 100

  /** unicode.IsSpace. */
  predicate IsSpace(c: char) {
    var code := c as int;
    || 0x09 <= code <= 0x0D || code == 0x20 || code == 0x85 || code == 0xA0
    || code == 0x1680 || 0x2000 <= code <= 0x200A || code == 0x2028 || code == 0x2029
    || code == 0x202F || code == 0x205F || code == 0x3000
  }

  /** Breaks inside a sentence. */
  predicate IsBreak(c: char) {
    c == '、' || c == '，' || c == ',' || c == '・' || c == ';' || c == ':' || c == '：' || c == '；'
  }

  /** Ends of a sentence. */
  predicate IsStop(c: char) {
    c == '。' || c == '！' || c == '？' || c == '!' || c == '?' || c == '\n'
  }

  function TrimLeft(s: Text): Text {
    if s != [] && IsSpace(s[0]) then TrimLeft(s[1..]) else s
  }

  function TrimRight(s: Text): Text {
    if s != [] && IsSpace(s[|s| - 1]) then TrimRight(s[..|s| - 1]) else s
  }

  function Trim(s: Text): Text {
    TrimRight(TrimLeft(s))
  }

  // ---- the reference: greedy and recursive ---------------------------------------------------

  /** The position after the last break in `s[start..end]`, or `start` if it has none. */
  function LastBreakEnd(s: Text, start: nat, end: nat): (k: nat)
    requires start <= end <= |s|
    ensures start <= k <= end
  {
    if start == end then start else if IsBreak(s[end - 1]) then end else LastBreakEnd(s, start, end - 1)
  }

  /** What it means: a break stands just before it, and none between it and `end`. */
  lemma {:induction false} LastBreakEndIsLast(s: Text, start: nat, end: nat)
    requires start <= end <= |s|
    ensures var k := LastBreakEnd(s, start, end);
            && (k > start ==> IsBreak(s[k - 1]))
            && (forall j :: k <= j < end ==> !IsBreak(s[j]))
  {
    if start < end && !IsBreak(s[end - 1]) {
      LastBreakEndIsLast(s, start, end - 1);
    }
  }

  /** Where the window of 100 runes from `start` is cut: after its last break, or at its end. */
  function CutEnd(s: Text, start: nat): (k: nat)
    requires start + MAX_PART_RUNES <= |s|
    ensures start < k <= start + MAX_PART_RUNES
  {
    var k := LastBreakEnd(s, start, start + MAX_PART_RUNES);
    if k > start then k else start + MAX_PART_RUNES
  }

  /** Cut every window from `start` on; what does not fill a window is the last part. */
  function Greedy(s: Text, start: nat): seq<Text>
    requires start <= |s|
    decreases |s| - start
  {
    if start == |s| then []
    else if start + MAX_PART_RUNES > |s| then [Trim(s[start..])]
    else [Trim(s[start..CutEnd(s, start)])] + Greedy(s, CutEnd(s, start))
  }

  /** A text that fits in one part is left as it is. */
  function SplitLong(s: Text): seq<Text> {
    if |s| <= MAX_PART_RUNES then [s] else Greedy(s, 0)
  }

  /** The position after the first stop from `from` on, or the end of the text. */
  function SentenceEnd(s: Text, from: nat): (k: nat)
    requires from < |s|
    ensures from < k <= |s|
    decreases |s| - from
  {
    if IsStop(s[from]) || from + 1 == |s| then from + 1 else SentenceEnd(s, from + 1)
  }

  function SentenceParts(sentence: Text): seq<Text> {
    var s := Trim(sentence);
    if s == [] then [] else SplitLong(s)
  }

  /** Split every sentence from `from` on. */
  function SplitFrom(s: Text, from: nat): seq<Text>
    requires from <= |s|
    decreases |s| - from
  {
    if from == |s| then []
    else SentenceParts(s[from..SentenceEnd(s, from)]) + SplitFrom(s, SentenceEnd(s, from))
  }

  function Split(s: Text): seq<Text> {
    SplitFrom(s, 0)
  }

  lemma Regroup<T>(done: seq<T>, open: seq<T>, first: seq<T>, rest: seq<T>, whole: seq<T>)
    requires done + open == whole && open == first + rest
    ensures (done + first) + rest == whole
  {
    AppendAssociates(done, first, rest);
  }

  lemma AppendAssociates<T>(a: seq<T>, b: seq<T>, c: seq<T>)
    ensures a + (b + c) == (a + b) + c
  {
  }

  // ---- the one-pass splitter -------------------------------------------------------------------

  /** What has been cut off, followed by the greedy cut of the rest, is the greedy cut of the whole. */
  ghost predicate CutSoFar(text: Text, parts: seq<Text>, start: nat) {
    start <= |text| && parts + Greedy(text, start) == Greedy(text, 0)
  }

  lemma CutSoFarGrows(text: Text, parts: seq<Text>, start: nat)
    requires CutSoFar(text, parts, start) && start + MAX_PART_RUNES <= |text|
    ensures CutSoFar(text, parts + [Trim(text[start..CutEnd(text, start)])], CutEnd(text, start))
  {
    var end := CutEnd(text, start);
    AppendAssociates(parts, [Trim(text[start..end])], Greedy(text, end));
  }

  method SplitLongPart(text: Text) returns (parts: seq<Text>)
    ensures parts == SplitLong(text)
  {
    if |text| <= MAX_PART_RUNES {
      return [text];
    }
    parts := [];
    var start, lastBreak := 0, -1;
    for i := 0 to |text|
      invariant start <= i < start + MAX_PART_RUNES
      invariant LastBreakEnd(text, start, i) == if lastBreak == -1 then start else lastBreak
      invariant lastBreak == -1 || lastBreak > start
      invariant CutSoFar(text, parts, start)
    {
      if IsBreak(text[i]) {
        lastBreak := i + 1;
      }
      if i - start + 1 >= MAX_PART_RUNES {
        var end := i + 1;
        if lastBreak > start {
          end := lastBreak;
        }
        CutSoFarGrows(text, parts, start);
        NoBreakAfterLast(text, start, i + 1, end);
        parts := parts + [Trim(text[start..end])];
        start := end;
        lastBreak := -1;
      }
    }
    if start < |text| {
      parts := parts + [Trim(text[start..])];
    }
  }

  /** Cutting back to the last break leaves nothing to break at in what was already scanned. */
  lemma {:induction false} NoBreakAfterLast(text: Text, start: nat, i: nat, end: nat)
    requires start <= i <= |text| && LastBreakEnd(text, start, i) <= end <= i
    ensures LastBreakEnd(text, end, i) == end
  {
    LastBreakEndIsLast(text, start, i);
    if end < i {
      NoBreakAfterLast(text, start, i - 1, end);
    }
  }

  // ---- sentences -------------------------------------------------------------------------------

  /** What has been flushed, followed by the split of everything from `from`, is the split of the whole. */
  ghost predicate Flushed(text: Text, from: nat, parts: seq<Text>) {
    from <= |text| && parts + SplitFrom(text, from) == Split(text)
  }

  /** No stop in `text[from..i]`. */
  ghost predicate Unstopped(text: Text, from: nat, i: nat) {
    from <= i <= |text| && forall j :: from <= j < i ==> !IsStop(text[j])
  }

  lemma {:induction false} SentenceEndsAtFirstStop(text: Text, from: nat, i: nat)
    requires from <= i < |text| && (IsStop(text[i]) || i + 1 == |text|)
    requires forall j :: from <= j < i ==> !IsStop(text[j])
    ensures SentenceEnd(text, from) == i + 1
    decreases i - from
  {
    if from < i {
      SentenceEndsAtFirstStop(text, from + 1, i);
    }
  }

  lemma FlushedAtStart(text: Text)
    ensures Flushed(text, 0, [])
  {
  }

  lemma FlushedAtStop(text: Text, from: nat, i: nat, parts: seq<Text>, current: Text, flushed: seq<Text>)
    requires Flushed(text, from, parts) && Unstopped(text, from, i) && i < |text| && IsStop(text[i])
    requires current == text[from..i + 1] && flushed == parts + SentenceParts(current)
    ensures Flushed(text, i + 1, flushed)
  {
    SentenceEndsAtFirstStop(text, from, i);
    var (first, rest) := (SentenceParts(text[from..i + 1]), SplitFrom(text, i + 1));
    assert SplitFrom(text, from) == first + rest;
    Regroup(parts, SplitFrom(text, from), first, rest, Split(text));
  }

  lemma FlushedAtEnd(text: Text, from: nat, parts: seq<Text>)
    requires Flushed(text, from, parts) && Unstopped(text, from, |text|)
    ensures Split(text) == parts + SentenceParts(text[from..])
  {
    if from < |text| {
      SentenceEndsAtFirstStop(text, from, |text| - 1);
      assert text[from..|text|] == text[from..];
      assert SplitFrom(text, from) == SentenceParts(text[from..]) + SplitFrom(text, |text|);
    } else {
      assert text[from..] == [] && Trim([]) == [];
    }
  }

  lemma SliceGrows(text: Text, from: nat, i: nat)
    requires from <= i < |text|
    ensures text[from..i] + [text[i]] == text[from..i + 1]
  {
  }

  /** The scan stands at `i`: `current` is the sentence begun at `from`, everything before is flushed. */
  ghost predicate Scanning(text: Text, from: nat, i: nat, current: Text, parts: seq<Text>) {
    Unstopped(text, from, i) && current == text[from..i] && Flushed(text, from, parts)
  }

  method SplitMessage(text: Text) returns (parts: seq<Text>)
    ensures parts == Split(text)
  {
    parts := [];
    var current: Text := [];
    ghost var from := 0;
    FlushedAtStart(text);
    for i := 0 to |text|
      invariant Scanning(text, from, i, current, parts)
    {
      parts, current, from := Feed(parts, current, text, from, i);
    }
    FlushedAtEnd(text, from, parts);
    assert current == text[from..];
    parts := Flush(parts, current);
  }

  /** One rune of the scan: it extends the open sentence and, if it is a stop, flushes it. */
  method Feed(parts: seq<Text>, current: Text, text: Text, ghost from: nat, i: nat)
    returns (parts': seq<Text>, current': Text, ghost from': nat)
    requires i < |text| && Scanning(text, from, i, current, parts)
    ensures Scanning(text, from', i + 1, current', parts')
    ensures from' == if IsStop(text[i]) then i + 1 else from
  {
    SliceGrows(text, from, i);
    parts', current', from' := parts, current + [text[i]], from;
    if IsStop(text[i]) {
      parts' := Flush(parts, current');
      FlushedAtStop(text, from, i, parts, current', parts');
      current', from' := [], i + 1;
    }
  }

  /** The flush closure: the trimmed sentence is split and appended; a blank one adds nothing. */
  method Flush(parts: seq<Text>, current: Text) returns (flushed: seq<Text>)
    ensures flushed == parts + SentenceParts(current)
  {
    var s := Trim(current);
    flushed := parts;
    if s != [] {
      var more := SplitLongPart(s);
      flushed := flushed + more;
    }
  }

  // ---- what splitting preserves ----------------------------------------------------------------

  /** The text without its whitespace. */
  function Ink(s: Text): Text {
    if s == [] then [] else (if IsSpace(s[0]) then [] else [s[0]]) + Ink(s[1..])
  }

  function Concat(parts: seq<Text>): Text {
    if parts == [] then [] else parts[0] + Concat(parts[1..])
  }

  lemma {:induction false} InkAppend(a: Text, b: Text)
    ensures Ink(a + b) == Ink(a) + Ink(b)
  {
    if a == [] {
      assert a + b == b;
    } else {
      assert (a + b)[1..] == a[1..] + b;
      InkAppend(a[1..], b);
    }
  }

  lemma {:induction false} ConcatAppend(a: seq<Text>, b: seq<Text>)
    ensures Concat(a + b) == Concat(a) + Concat(b)
  {
    if a == [] {
      assert a + b == b;
    } else {
      assert (a + b)[1..] == a[1..] + b;
      ConcatAppend(a[1..], b);
    }
  }

  lemma ConcatOne(part: Text)
    ensures Concat([part]) == part
  {
    assert [part][1..] == [];
  }

  lemma {:induction false} TrimLeftKeepsInk(s: Text)
    ensures Ink(TrimLeft(s)) == Ink(s) && |TrimLeft(s)| <= |s|
  {
    if s != [] && IsSpace(s[0]) {
      TrimLeftKeepsInk(s[1..]);
    }
  }

  lemma {:induction false} TrimRightKeepsInk(s: Text)
    ensures Ink(TrimRight(s)) == Ink(s) && |TrimRight(s)| <= |s|
  {
    if s != [] && IsSpace(s[|s| - 1]) {
      var k := |s| - 1;
      TrimRightKeepsInk(s[..k]);
      InkAppend(s[..k], [s[k]]);
      assert s == s[..k] + [s[k]];
    }
  }

  lemma TrimKeepsInk(s: Text)
    ensures Ink(Trim(s)) == Ink(s) && |Trim(s)| <= |s|
  {
    TrimLeftKeepsInk(s);
    TrimRightKeepsInk(TrimLeft(s));
  }

  predicate AllFit(parts: seq<Text>) {
    forall p :: p in parts ==> |p| <= MAX_PART_RUNES
  }

  lemma SliceSplits(s: Text, from: nat, k: nat)
    requires from <= k <= |s|
    ensures s[from..] == s[from..k] + s[k..]
  {
  }

  lemma {:induction false} GreedyKeepsInk(s: Text, start: nat)
    requires start <= |s|
    ensures Ink(Concat(Greedy(s, start))) == Ink(s[start..]) && AllFit(Greedy(s, start))
    decreases |s| - start
  {
    if start == |s| {
    } else if start + MAX_PART_RUNES > |s| {
      TrimKeepsInk(s[start..]);
      ConcatOne(Trim(s[start..]));
    } else {
      var k := CutEnd(s, start);
      TrimKeepsInk(s[start..k]);
      GreedyKeepsInk(s, k);
      PrependKeepsInk(s, start, k, [Trim(s[start..k])], Greedy(s, k));
      ConcatOne(Trim(s[start..k]));
    }
  }

  /** Parts that keep the ink of two neighbouring slices together keep the ink of both. */
  lemma PrependKeepsInk(s: Text, from: nat, k: nat, first: seq<Text>, rest: seq<Text>)
    requires from <= k <= |s| && Ink(Concat(rest)) == Ink(s[k..])
    ensures Ink(Concat(first)) == Ink(s[from..k]) ==> Ink(Concat(first + rest)) == Ink(s[from..])
  {
    ConcatAppend(first, rest);
    InkAppend(Concat(first), Concat(rest));
    InkAppend(s[from..k], s[k..]);
    SliceSplits(s, from, k);
  }

  lemma SentenceKeepsInk(s: Text)
    ensures Ink(Concat(SentenceParts(s))) == Ink(s) && AllFit(SentenceParts(s))
  {
    TrimKeepsInk(s);
    var t := Trim(s);
    if t != [] && |t| <= MAX_PART_RUNES {
      ConcatOne(t);
    } else if t != [] {
      GreedyKeepsInk(t, 0);
      assert t[0..] == t;
    }
  }

  lemma {:induction false} SplitFromKeepsInk(s: Text, from: nat)
    requires from <= |s|
    ensures Ink(Concat(SplitFrom(s, from))) == Ink(s[from..]) && AllFit(SplitFrom(s, from))
    decreases |s| - from
  {
    if from < |s| {
      var k := SentenceEnd(s, from);
      SentenceKeepsInk(s[from..k]);
      SplitFromKeepsInk(s, k);
      PrependKeepsInk(s, from, k, SentenceParts(s[from..k]), SplitFrom(s, k));
    }
  }

  /** Every part fits, and the parts together say exactly what the message says, in its order. */
  lemma SplitKeepsInk(s: Text)
    ensures Ink(Concat(Split(s))) == Ink(s) && AllFit(Split(s))
  {
    SplitFromKeepsInk(s, 0);
    assert s[0..] == s;
  }

  // ---- when a part can be empty ----------------------------------------------------------------

  /** No 100 whitespace runes in a row. */
  predicate NoBlankWindow(s: Text) {
    forall i: nat :: i + MAX_PART_RUNES <= |s| ==> WindowHasInk(s, i)
  }

  predicate WindowHasInk(s: Text, i: nat)
    requires i + MAX_PART_RUNES <= |s|
  {
    exists j :: i <= j < i + MAX_PART_RUNES && !IsSpace(s[j])
  }

  lemma {:induction false} TrimIsSlice(s: Text)
    ensures exists i, j :: 0 <= i <= j <= |s| && Trim(s) == s[i..j]
  {
    var i := LeftEdge(s);
    var j := RightEdge(s[i..]);
    assert s[i..][..j] == s[i..i + j];
  }

  lemma {:induction false} LeftEdge(s: Text) returns (i: nat)
    ensures i <= |s| && TrimLeft(s) == s[i..]
  {
    i := 0;
    if s != [] && IsSpace(s[0]) {
      i := LeftEdge(s[1..]);
      assert s[1..][i..] == s[1 + i..];
      i := 1 + i;
    }
  }

  lemma {:induction false} RightEdge(s: Text) returns (j: nat)
    ensures j <= |s| && TrimRight(s) == s[..j]
  {
    j := |s|;
    if s != [] && IsSpace(s[|s| - 1]) {
      j := RightEdge(s[..|s| - 1]);
      assert s[..|s| - 1][..j] == s[..j];
    }
  }

  lemma SliceKeepsNoBlankWindow(s: Text, i: nat, j: nat)
    requires i <= j <= |s| && NoBlankWindow(s)
    ensures NoBlankWindow(s[i..j])
  {
    var t := s[i..j];
    forall a: nat | a + MAX_PART_RUNES <= |t| ensures WindowHasInk(t, a) {
      assert WindowHasInk(s, i + a);
      var b :| i + a <= b < i + a + MAX_PART_RUNES && !IsSpace(s[b]);
      assert t[b - i] == s[b];
    }
  }

  lemma {:induction false} InkyIsNotBlank(s: Text, j: nat)
    requires j < |s| && !IsSpace(s[j])
    ensures Ink(s) != []
  {
    if j > 0 {
      InkyIsNotBlank(s[1..], j - 1);
    }
  }

  lemma {:induction false} TrimmedEndsInInk(s: Text)
    ensures TrimRight(s) != [] ==> !IsSpace(TrimRight(s)[|TrimRight(s)| - 1])
  {
    if s != [] && IsSpace(s[|s| - 1]) {
      TrimmedEndsInInk(s[..|s| - 1]);
    }
  }

  lemma InkySurvivesTrim(s: Text, j: nat)
    requires j < |s| && !IsSpace(s[j])
    ensures Trim(s) != []
  {
    TrimKeepsInk(s);
    InkyIsNotBlank(s, j);
  }

  lemma {:induction false} GreedyPartsAreNonEmpty(s: Text, start: nat)
    requires start <= |s| && (s != [] ==> !IsSpace(s[|s| - 1])) && NoBlankWindow(s)
    ensures forall p :: p in Greedy(s, start) ==> p != []
    decreases |s| - start
  {
    if start == |s| {
    } else if start + MAX_PART_RUNES > |s| {
      InkySurvivesTrim(s[start..], |s| - 1 - start);
    } else {
      CutPartHasInk(s, start);
      GreedyPartsAreNonEmpty(s, CutEnd(s, start));
    }
  }

  /** A cut part is empty exactly when its whole window is whitespace: a break is not whitespace. */
  lemma CutPartEmptyIff(s: Text, start: nat)
    requires start + MAX_PART_RUNES <= |s|
    ensures Trim(s[start..CutEnd(s, start)]) == [] <==> !WindowHasInk(s, start)
  {
    var k := CutEnd(s, start);
    var part := s[start..k];
    LastBreakEndIsLast(s, start, start + MAX_PART_RUNES);
    if WindowHasInk(s, start) {
      var j :| start <= j < start + MAX_PART_RUNES && !IsSpace(s[j]);
      var inky := if IsBreak(s[k - 1]) then k - 1 else j;
      assert part[inky - start] == s[inky];
      InkySurvivesTrim(part, inky - start);
    } else {
      assert forall j :: 0 <= j < |part| ==> part[j] == s[start + j];
      BlankTrimsAway(part);
    }
  }

  lemma {:induction false} BlankTrimsAway(s: Text)
    requires forall j :: 0 <= j < |s| ==> IsSpace(s[j])
    ensures Trim(s) == []
  {
    if s != [] {
      assert forall j :: 0 <= j < |s[1..]| ==> s[1..][j] == s[j + 1];
      BlankTrimsAway(s[1..]);
    }
  }

  lemma CutPartHasInk(s: Text, start: nat)
    requires start + MAX_PART_RUNES <= |s| && NoBlankWindow(s)
    ensures Trim(s[start..CutEnd(s, start)]) != []
  {
    assert WindowHasInk(s, start);
    CutPartEmptyIff(s, start);
  }

  /** None of the windows that get cut is all whitespace. */
  predicate CutWindowsHaveInk(s: Text, start: nat)
    decreases |s| - start
  {
    start + MAX_PART_RUNES <= |s| ==> WindowHasInk(s, start) && CutWindowsHaveInk(s, CutEnd(s, start))
  }

  /** For a trimmed text, exactly when the splitter yields no empty part. */
  lemma {:induction false} GreedyNonEmptyIff(s: Text, start: nat)
    requires start <= |s| && (s != [] ==> !IsSpace(s[|s| - 1]))
    ensures [] !in Greedy(s, start) <==> CutWindowsHaveInk(s, start)
    decreases |s| - start
  {
    if start == |s| {
    } else if start + MAX_PART_RUNES > |s| {
      InkySurvivesTrim(s[start..], |s| - 1 - start);
    } else {
      CutPartEmptyIff(s, start);
      GreedyNonEmptyIff(s, CutEnd(s, start));
    }
  }

  /** No sentence from `from` on is so long that it is cut and has a cut window of nothing but whitespace. */
  predicate SentencesHaveInk(s: Text, from: nat)
    requires from <= |s|
    decreases |s| - from
  {
    from < |s| ==>
      var k := SentenceEnd(s, from);
      var sentence := Trim(s[from..k]);
      (|sentence| > MAX_PART_RUNES ==> CutWindowsHaveInk(sentence, 0)) && SentencesHaveInk(s, k)
  }

  lemma SentenceNonEmptyIff(s: Text)
    ensures [] !in SentenceParts(s) <==> (|Trim(s)| > MAX_PART_RUNES ==> CutWindowsHaveInk(Trim(s), 0))
  {
    TrimmedEndsInInk(TrimLeft(s));
    GreedyNonEmptyIff(Trim(s), 0);
  }

  lemma {:induction false} SplitFromNonEmptyIff(s: Text, from: nat)
    requires from <= |s|
    ensures [] !in SplitFrom(s, from) <==> SentencesHaveInk(s, from)
    decreases |s| - from
  {
    if from < |s| {
      SentenceNonEmptyIff(s[from..SentenceEnd(s, from)]);
      SplitFromNonEmptyIff(s, SentenceEnd(s, from));
    }
  }

  /** For every message, exactly when the splitter yields no empty part. */
  lemma SplitNonEmptyIff(s: Text)
    ensures [] !in Split(s) <==> SentencesHaveInk(s, 0)
  {
    SplitFromNonEmptyIff(s, 0);
  }

  /** A comma, a hundred ideographic spaces and a letter. */
  function WideGap(): Text {
    ['、'] + seq(MAX_PART_RUNES, _ => '\U{3000}') + ['a']
  }

  /**
   A message with an empty part: the cut after the comma leaves a blank window. The spaces are U+3000, which
   normalisation does not collapse before the text is split.
   */
  lemma EmptyPartHappens()
    ensures [] in Split(WideGap())
  {
    var s := WideGap();
    assert s[0] == '、' && s[|s| - 1] == 'a' && forall j :: 1 <= j < |s| - 1 ==> s[j] == '\U{3000}';
    assert !IsBreak('\U{3000}') && IsSpace('\U{3000}') && !IsSpace('、') && !IsSpace('a');
    OnlyBreakCuts(s);
    assert !WindowHasInk(s, 1);
    assert !CutWindowsHaveInk(s, 0);
    assert Trim(s) == s;
    EndsWithoutStop(s, 0);
    assert s[0..|s|] == s;
    SplitNonEmptyIff(s);
  }

  lemma {:induction false} EndsWithoutStop(s: Text, from: nat)
    requires from < |s| && forall j :: from <= j < |s| ==> !IsStop(s[j])
    ensures SentenceEnd(s, from) == |s|
    decreases |s| - from
  {
    if from + 1 < |s| {
      EndsWithoutStop(s, from + 1);
    }
  }

  lemma OnlyBreakCuts(s: Text)
    requires |s| >= MAX_PART_RUNES && IsBreak(s[0]) && forall j :: 1 <= j < MAX_PART_RUNES ==> !IsBreak(s[j])
    ensures CutEnd(s, 0) == 1
  {
    LastBreakEndIsLast(s, 0, MAX_PART_RUNES);
    HasBreakIn(s, 0, MAX_PART_RUNES);
  }

  lemma {:induction false} HasBreakIn(s: Text, j: nat, end: nat)
    requires j < end <= |s| && IsBreak(s[j])
    ensures LastBreakEnd(s, 0, end) > j
  {
    if j < end - 1 && !IsBreak(s[end - 1]) {
      HasBreakIn(s, j, end - 1);
    }
  }

  lemma SentencePartsAreNonEmpty(s: Text)
    requires NoBlankWindow(s)
    ensures forall p :: p in SentenceParts(s) ==> p != []
  {
    TrimIsSlice(s);
    var i, j :| 0 <= i <= j <= |s| && Trim(s) == s[i..j];
    SliceKeepsNoBlankWindow(s, i, j);
    TrimmedEndsInInk(TrimLeft(s));
    GreedyPartsAreNonEmpty(Trim(s), 0);
  }

  lemma {:induction false} SplitFromPartsAreNonEmpty(s: Text, from: nat)
    requires from <= |s| && NoBlankWindow(s)
    ensures forall p :: p in SplitFrom(s, from) ==> p != []
    decreases |s| - from
  {
    if from < |s| {
      var k := SentenceEnd(s, from);
      SliceKeepsNoBlankWindow(s, from, k);
      SentencePartsAreNonEmpty(s[from..k]);
      SplitFromPartsAreNonEmpty(s, k);
    }
  }

  /** Without 100 whitespace runes in a row, no part is empty. */
  lemma PartsAreNonEmpty(s: Text)
    requires NoBlankWindow(s)
    ensures forall p :: p in Split(s) ==> p != []
  {
    SplitFromPartsAreNonEmpty(s, 0);
  }
}
