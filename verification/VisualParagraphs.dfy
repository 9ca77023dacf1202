// Splitting a block into visual paragraphs (scripts/render_bilingual_subset.py:259-289).
module VisualParagraphs {
  import opened PyText
  import R = Reflow
  import L = ReflowLaws
  import G = GroupingLaws

  // The stripped lines that are not blank.
  function RealLines(lines: seq<string>): seq<string> {
    if lines == [] then []
    else if IsBlank(lines[0]) then RealLines(lines[1..])
    else [Strip(lines[0])] + RealLines(lines[1..])
  }

  function Lengths(lines: seq<string>): (r: seq<nat>)
    ensures |r| == |lines|
  {
    if lines == [] then [] else [|lines[0]|] + Lengths(lines[1..])
  }

  // max(20, int(median * 0.55))
  function ShortThreshold(lines: seq<string>): nat
    requires lines != []
  {
    SortedLength(Lengths(lines));
    var median := R.Sorted(Lengths(lines))[|lines| / 2];
    if median * 55 / 100 > 20 then median * 55 / 100 else 20
  }

  lemma {:induction false} SortedLength(s: seq<nat>)
    ensures |R.Sorted(s)| == |s|
  {
    R.SortedSorts(s);
    assert |R.Sorted(s)| == |multiset(R.Sorted(s))|;
  }

  predicate EndsWith(s: string, suffix: string) {
    |suffix| <= |s| && s[|s| - |suffix|..] == suffix
  }

  predicate EndsTerminal(line: string) {
    || EndsWith(line, ".") || EndsWith(line, "!") || EndsWith(line, "?")
    || EndsWith(line, ".\U{201D}") || EndsWith(line, ".\"") || EndsWith(line, ".)")
  }

  // The line is the short tail of a paragraph.
  predicate IsTail(line: string, threshold: nat) {
    EndsTerminal(line) && |line| <= threshold
  }

  // The chunks after n lines; the last one may still be empty.
  function After(lines: seq<string>, threshold: nat, n: nat): (g: seq<seq<string>>)
    requires n <= |lines|
    ensures g != []
  {
    if n == 0 then [[]]
    else
      var g := After(lines, threshold, n - 1);
      var grown := g[|g| - 1 := g[|g| - 1] + [lines[n - 1]]];
      if n < |lines| && IsTail(lines[n - 1], threshold) then grown + [[]] else grown
  }

  function Texts(chunks: seq<seq<string>>): (r: seq<string>)
    ensures |r| == |chunks|
    ensures forall k :: 0 <= k < |chunks| ==> r[k] == Join(chunks[k], " ")
  {
    if chunks == [] then [] else [Join(chunks[0], " ")] + Texts(chunks[1..])
  }

  function Split(source: string): seq<string> {
    var lines := RealLines(PyText.Split(source));
    if |lines| <= 1 then if IsBlank(source) then [] else [Strip(source)]
    else Texts(After(lines, ShortThreshold(lines), |lines|))
  }

  method ChunkLines(lines: seq<string>, threshold: nat) returns (chunks: seq<seq<string>>)
    ensures chunks == After(lines, threshold, |lines|)
  {
    chunks := [[]];
    for i := 0 to |lines|
      invariant chunks == After(lines, threshold, i)
    {
      chunks := chunks[|chunks| - 1 := chunks[|chunks| - 1] + [lines[i]]];
      if i == |lines| - 1 {
        continue;
      }
      if EndsTerminal(lines[i]) && |lines[i]| <= threshold {
        chunks := chunks + [[]];
      }
    }
  }

  // " ".join(c).strip() for the chunks that have lines; both tests change nothing.
  method JoinChunks(chunks: seq<seq<string>>) returns (paragraphs: seq<string>)
    requires AreParagraphs(chunks)
    ensures paragraphs == Texts(chunks)
  {
    paragraphs := [];
    for i := 0 to |chunks|
      invariant |paragraphs| == i && forall k :: 0 <= k < i ==> paragraphs[k] == Join(chunks[k], " ")
    {
      ParagraphText(chunks[i]);
      var text := Strip(Join(chunks[i], " "));
      if chunks[i] != [] && text != "" {
        paragraphs := paragraphs + [text];
      }
    }
  }

  lemma ParagraphText(chunk: seq<string>)
    requires IsParagraph(chunk)
    ensures chunk != [] && Strip(Join(chunk, " ")) == Join(chunk, " ") && Join(chunk, " ") != ""
  {
    JoinIsInk(chunk);
  }

  method SplitIntoVisualParagraphs(source: string) returns (paragraphs: seq<string>)
    ensures paragraphs == Split(source)
  {
    if source == "" {
      return [];
    }
    var lines := RealLines(PyText.Split(source));
    StripTrims(source);
    if |lines| <= 1 {
      return if Strip(source) != "" then [Strip(source)] else [];
    }
    RealLinesAreInk(PyText.Split(source));
    ChunksAreParagraphs(lines, ShortThreshold(lines));
    var chunks := ChunkLines(lines, ShortThreshold(lines));
    paragraphs := JoinChunks(chunks);
  }

  // Neither blank nor with whitespace at the ends.
  predicate IsTrimmed(line: string) {
    line != [] && !IsSpace(line[0]) && !IsSpace(line[|line| - 1])
  }

  ghost predicate IsInk(lines: seq<string>) {
    forall i :: 0 <= i < |lines| ==> IsTrimmed(lines[i])
  }

  ghost predicate IsParagraph(lines: seq<string>) {
    lines != [] && IsInk(lines)
  }

  ghost predicate AreParagraphs(chunks: seq<seq<string>>) {
    forall k: nat :: k < |chunks| ==> IsParagraph(chunks[k])
  }

  lemma StripTrims(s: string)
    ensures Strip(s) == [] <==> IsBlank(s)
    ensures !IsBlank(s) ==> IsTrimmed(Strip(s))
  {
    RStripFirst(LStrip(s));
  }

  lemma {:induction false} RStripFirst(s: string)
    requires s != [] ==> !IsSpace(s[0])
    ensures RStrip(s) == [] <==> s == []
    ensures s != [] ==> RStrip(s)[0] == s[0]
  {
    if s != [] && IsSpace(s[|s| - 1]) {
      RStripFirst(s[..|s| - 1]);
    }
  }

  lemma {:induction false} RealLinesAreInk(lines: seq<string>)
    ensures IsInk(RealLines(lines))
  {
    if lines != [] {
      RealLinesAreInk(lines[1..]);
      StripTrims(lines[0]);
    }
  }

  lemma {:induction false} JoinIsInk(lines: seq<string>)
    requires lines != [] && IsInk(lines)
    ensures IsTrimmed(Join(lines, " ")) && Strip(Join(lines, " ")) == Join(lines, " ")
  {
    if |lines| > 1 {
      JoinIsInk(lines[1..]);
      var s := Join(lines, " ");
      assert s[|s| - 1] == Join(lines[1..], " ")[|Join(lines[1..], " ")| - 1];
      assert s[0] == lines[0][0];
    }
  }

  lemma GrowLast(g: seq<seq<string>>, line: string)
    requires g != []
    ensures G.Concat(g[|g| - 1 := g[|g| - 1] + [line]]) == G.Concat(g) + [line]
  {
    var grown := g[|g| - 1 := g[|g| - 1] + [line]];
    assert grown[..|g| - 1] == g[..|g| - 1];
  }

  lemma OpenNew(g: seq<seq<string>>)
    ensures G.Concat(g + [[]]) == G.Concat(g)
  {
    assert (g + [[]])[..|g|] == g;
  }

  lemma LineAdded(g: seq<seq<string>>, line: string)
    requires g != []
    ensures var grown := g[|g| - 1 := g[|g| - 1] + [line]];
            G.Concat(grown) == G.Concat(g) + [line] && G.Concat(grown + [[]]) == G.Concat(g) + [line]
  {
    GrowLast(g, line);
    OpenNew(g[|g| - 1 := g[|g| - 1] + [line]]);
  }

  // Every line is in exactly one chunk, in order.
  lemma {:induction false} ChunksHoldLines(lines: seq<string>, threshold: nat, n: nat)
    requires n <= |lines|
    ensures G.Concat(After(lines, threshold, n)) == lines[..n]
  {
    if n > 0 {
      ChunksHoldLines(lines, threshold, n - 1);
      LineAdded(After(lines, threshold, n - 1), lines[n - 1]);
      assert lines[..n] == lines[..n - 1] + [lines[n - 1]];
    }
  }

  // Only the last chunk may be empty, and only if it is open.
  ghost predicate Filled(g: seq<seq<string>>, open: bool) {
    forall k: nat :: k < |g| ==> g[k] != [] || (open && k == |g| - 1)
  }

  lemma FillLast(g: seq<seq<string>>, line: string)
    requires g != [] && Filled(g, true)
    ensures var grown := g[|g| - 1 := g[|g| - 1] + [line]];
            Filled(grown, false) && Filled(grown + [[]], true)
  {
  }

  lemma {:induction false} ChunksAreFilled(lines: seq<string>, threshold: nat, n: nat)
    requires n <= |lines|
    ensures Filled(After(lines, threshold, n), n == 0 || n < |lines|)
  {
    if n > 0 {
      var g := After(lines, threshold, n - 1);
      ChunksAreFilled(lines, threshold, n - 1);
      FillLast(g, lines[n - 1]);
      StaysFilled(g[|g| - 1 := g[|g| - 1] + [lines[n - 1]]]);
    }
  }

  lemma StaysFilled(g: seq<seq<string>>)
    requires Filled(g, false)
    ensures Filled(g, true)
  {
  }

  // The chunk ends with a short tail line, and has no other.
  ghost predicate EndsAtTail(chunk: seq<string>, threshold: nat) {
    && chunk != [] && IsTail(chunk[|chunk| - 1], threshold)
    && NoTailBefore(chunk, threshold)
  }

  ghost predicate NoTailBefore(chunk: seq<string>, threshold: nat) {
    forall j: nat :: j + 1 < |chunk| ==> !IsTail(chunk[j], threshold)
  }

  ghost predicate BrokenAtTails(g: seq<seq<string>>, threshold: nat) {
    && g != []
    && (forall k: nat :: k + 1 < |g| ==> EndsAtTail(g[k], threshold))
    && NoTailBefore(g[|g| - 1], threshold)
  }

  lemma OneMoreLine(g: seq<seq<string>>, threshold: nat, line: string)
    requires BrokenAtTails(g, threshold)
    requires g[|g| - 1] != [] ==> !IsTail(g[|g| - 1][|g[|g| - 1]| - 1], threshold)
    ensures var grown := g[|g| - 1 := g[|g| - 1] + [line]];
            BrokenAtTails(grown, threshold) && (IsTail(line, threshold) ==> BrokenAtTails(grown + [[]], threshold))
  {
    assert NoTailBefore(g[|g| - 1] + [line], threshold);
  }

  // Paragraphs break behind every short tail line but the last, and nowhere else.
  lemma {:induction false} BreaksAreTails(lines: seq<string>, threshold: nat, n: nat)
    requires n <= |lines|
    ensures var g := After(lines, threshold, n);
            && BrokenAtTails(g, threshold)
            && (n < |lines| && g[|g| - 1] != [] ==> !IsTail(g[|g| - 1][|g[|g| - 1]| - 1], threshold))
  {
    if n > 0 {
      BreaksAreTails(lines, threshold, n - 1);
      OneMoreLine(After(lines, threshold, n - 1), threshold, lines[n - 1]);
    }
  }

  lemma {:induction false} InkOfParts(g: seq<seq<string>>)
    requires IsInk(G.Concat(g))
    ensures forall k: nat :: k < |g| ==> IsInk(g[k])
  {
    if g != [] {
      var front, last := G.Concat(g[..|g| - 1]), g[|g| - 1];
      assert forall i: nat :: i < |front| ==> front[i] == (front + last)[i];
      assert forall i: nat :: i < |last| ==> last[i] == (front + last)[|front| + i];
      InkOfParts(g[..|g| - 1]);
    }
  }

  lemma ChunksAreParagraphs(lines: seq<string>, threshold: nat)
    requires lines != [] && IsInk(lines)
    ensures AreParagraphs(After(lines, threshold, |lines|))
  {
    ChunksHoldLines(lines, threshold, |lines|);
    assert lines[..|lines|] == lines;
    ChunksAreFilled(lines, threshold, |lines|);
    InkOfParts(After(lines, threshold, |lines|));
  }

  // ----- What the split promises -----

  lemma TextsAreTrimmed(g: seq<seq<string>>)
    requires AreParagraphs(g)
    ensures IsInk(Texts(g))
  {
    forall k: nat | k < |g| ensures IsTrimmed(Texts(g)[k]) {
      assert IsParagraph(g[k]);
      JoinIsInk(g[k]);
    }
  }

  // No paragraph is blank or has whitespace at its ends.
  lemma ParagraphsAreTrimmed(source: string)
    ensures IsInk(Split(source))
    ensures Split(source) == [] <==> IsBlank(source)
  {
    var lines := RealLines(PyText.Split(source));
    StripTrims(source);
    RealLinesAreInk(PyText.Split(source));
    if |lines| > 1 {
      ChunksAreParagraphs(lines, ShortThreshold(lines));
      TextsAreTrimmed(After(lines, ShortThreshold(lines), |lines|));
      NotAllBlank(source);
    }
  }

  lemma {:induction false} BlankLines(lines: seq<string>)
    requires forall i: nat :: i < |lines| ==> IsBlank(lines[i])
    ensures RealLines(lines) == []
  {
    if lines != [] {
      BlankLines(lines[1..]);
    }
  }

  lemma {:induction false} SplitBlank(s: string)
    requires IsBlank(s)
    ensures forall i: nat :: i < |PyText.Split(s)| ==> IsBlank(PyText.Split(s)[i])
  {
    if s != [] {
      SplitBlank(s[1..]);
    }
  }

  lemma NotAllBlank(source: string)
    requires RealLines(PyText.Split(source)) != []
    ensures !IsBlank(source)
  {
    if IsBlank(source) {
      SplitBlank(source);
      BlankLines(PyText.Split(source));
    }
  }

  lemma {:induction false} InkOfRealLines(lines: seq<string>)
    ensures L.InkOfLines(RealLines(lines)) == L.InkOfLines(lines)
  {
    if lines != [] {
      InkOfRealLines(lines[1..]);
      InkOfBlankLine(lines[0]);
      InkLStrip(lines[0]);
      InkRStrip(LStrip(lines[0]));
    }
  }

  lemma InkOfBlankLine(line: string)
    ensures IsBlank(line) ==> Ink(line) == []
  {
    if IsBlank(line) {
      InkOfBlank(line);
    }
  }

  lemma {:induction false} InkOfTexts(g: seq<seq<string>>)
    ensures L.InkOfLines(Texts(g)) == L.InkOfLines(G.Concat(g))
  {
    if g != [] {
      var front := g[..|g| - 1];
      InkOfTexts(front);
      assert Texts(g) == Texts(front) + [Join(g[|g| - 1], " ")];
      L.InkOfLinesConcat(Texts(front), [Join(g[|g| - 1], " ")]);
      L.InkOfLinesConcat(G.Concat(front), g[|g| - 1]);
      L.InkOfJoin(g[|g| - 1], " ");
    }
  }

  // No content is lost or moved.
  lemma OneParagraphKeepsInk(source: string)
    ensures L.InkOfLines(if IsBlank(source) then [] else [Strip(source)]) == Ink(source)
  {
    InkLStrip(source);
    InkRStrip(LStrip(source));
    InkOfBlankLine(source);
    assert [Strip(source)][1..] == [];
  }

  lemma ParagraphsKeepInk(source: string)
    ensures L.InkOfLines(Split(source)) == Ink(source)
  {
    var lines := RealLines(PyText.Split(source));
    if |lines| <= 1 {
      OneParagraphKeepsInk(source);
    } else {
      InkOfTexts(After(lines, ShortThreshold(lines), |lines|));
      ChunksHoldLines(lines, ShortThreshold(lines), |lines|);
      assert lines[..|lines|] == lines;
      InkOfRealLines(PyText.Split(source));
      SplitJoin(source);
      L.InkOfJoin(PyText.Split(source), "\n");
    }
  }
}
