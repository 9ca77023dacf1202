// How far the two paragraph heuristics agree.
module BreakLaws {
  // On counts, and on text that has not been repaired
  // (scripts/export_chapter_zh_html.py:857-899, 2196-2273).

  import opened PyText
  import opened Reflow
  import opened ReflowLaws
  import opened ParagraphBreaks

  // ----- Counts -----

  // A slice of the detector begins with this line.
  predicate Starts(lines: seq<string>, width: nat, i: nat)
    requires i < |lines|
  {
    i == 0 || (Breaks(lines[i - 1], width) && !(i == |lines| - 1 && lines[i] == ""))
  }

  // The blank lines that a slice begins with; `begun` says that one begins with
  // the first line.
  function BlankStarts(lines: seq<string>, width: nat, begun: bool): nat {
    if lines == [] then 0
    else
      (if begun && IsBlank(lines[0]) then 1 else 0)
      + BlankStarts(lines[1..], width, Breaks(lines[0], width) && lines[1..] != [""])
  }

  lemma {:induction false} OneGroupPerOffset(lines: seq<string>, width: nat, cursor: nat, total: nat)
    requires lines != [] && total == cursor + |Join(lines, "\n")|
    ensures |LineGroups(lines, width)| == 1 + |Offsets(lines, width, cursor, total)|
    decreases lines
  {
    if |lines| > 1 {
      var after := cursor + |lines[0]| + 1;
      assert total == after + |Join(lines[1..], "\n")|;
      OneGroupPerOffset(lines[1..], width, after, total);
      EmptyTail(lines[1..]);
    }
  }

  // A group without content begins with a blank line.
  lemma FirstGroup(lines: seq<string>, width: nat)
    requires lines != []
    ensures NonBlank(LineGroups(lines, width)[0]) == [] <==> IsBlank(lines[0])
  {
    if IsBlank(lines[0]) {
      BlankGroup(lines, width);
    } else {
      var group := LineGroups(lines, width)[0];
      NonBlankCons(group[0], group[1..]);
      assert group == [group[0]] + group[1..];
    }
  }

  lemma {:induction false} GroupsLost(lines: seq<string>, width: nat)
    requires lines != []
    ensures var g := LineGroups(lines, width);
            |g[1..]| == |Compact(g[1..])| + BlankStarts(lines, width, false)
    decreases lines
  {
    var line, rest := lines[0], lines[1..];
    if rest != [] {
      var g := LineGroups(rest, width);
      GroupsLost(rest, width);
      if Breaks(line, width) && rest != [""] {
        FirstGroup(rest, width);
        CompactCons(g[0], g[1..]);
        assert g == [g[0]] + g[1..];
        assert LineGroups(lines, width)[1..] == g;
      } else {
        assert LineGroups(lines, width)[1..] == g[1..];
      }
    }
  }

  // The detector finds one offset for each paragraph, and one for each blank line
  // that a slice begins with.
  lemma CountsDiffer(u: string)
    ensures |Detected(u)| == |Paragraphs(u)| + BlankStarts(Split(u), Width(Split(u)), true)
  {
    var lines, width := Split(u), Width(Split(u));
    var g := LineGroups(lines, width);
    SplitJoin(u);
    OneGroupPerOffset(lines, width, 0, |u|);
    GroupsAgree(lines, width, true);
    GroupsLost(lines, width);
    FirstGroup(lines, width);
    CompactCons(g[0], g[1..]);
    assert g == [g[0]] + g[1..];
  }

  lemma {:induction false} NoBlankStartsIff(lines: seq<string>, width: nat, begun: bool)
    ensures BlankStarts(lines, width, begun) == 0 <==>
              forall i: nat :: i < |lines| && IsBlank(lines[i]) ==> if i == 0 then !begun else !Starts(lines, width, i)
  {
    if lines != [] {
      var rest := lines[1..];
      var next := Breaks(lines[0], width) && rest != [""];
      NoBlankStartsIff(rest, width, next);
      forall i: nat | 1 <= i < |lines|
        ensures lines[i] == rest[i - 1]
        ensures Starts(lines, width, i) <==> if i == 1 then next else Starts(rest, width, i - 1)
      {
        StartsShift(lines, width, i);
      }
      forall i: nat | i < |rest| ensures lines[i + 1] == rest[i] {
      }
    }
  }

  lemma StartsShift(lines: seq<string>, width: nat, i: nat)
    requires 1 <= i < |lines|
    ensures Starts(lines, width, i) <==>
              if i == 1 then Breaks(lines[0], width) && lines[1..] != [""] else Starts(lines[1..], width, i - 1)
  {
    if i == 1 {
      assert lines[1..] == [""] <==> (|lines| == 2 && lines[1] == "");
    }
  }

  lemma CountsAgreeIff(u: string)
    ensures var lines := Split(u);
            |Paragraphs(u)| == |Detected(u)| <==>
              forall i: nat :: i < |lines| && IsBlank(lines[i]) ==> !Starts(lines, Width(lines), i)
  {
    CountsDiffer(u);
    NoBlankStartsIff(Split(u), Width(Split(u)), true);
  }

  // Without blank lines there is one paragraph per offset.
  lemma CountsAgree(u: string)
    requires forall i :: 0 <= i < |Split(u)| ==> !IsBlank(Split(u)[i])
    ensures |Paragraphs(u)| == |Detected(u)|
  {
    CountsAgreeIff(u);
  }

  // With a blank line after a short sentence the bare counts differ: the detector
  // also counts the blank line.
  lemma CountsCanDiffer()
    ensures |Detected("a.\n\nb")| == 3 && |Paragraphs("a.\n\nb")| == 2
  {
    ExampleLines();
    ExampleMarks();
    TwoParagraphs("a.\n\nb", "a.", "b");
  }

  lemma ExampleLines()
    ensures Split("a.\n\nb") == ["a.", "", "b"] && Width(["a.", "", "b"]) == 80
  {
    SplitAtNewline("a.", "\nb");
    SplitAtNewline("", "b");
    SplitWithoutNewline("b");
    assert "" + ("\n" + "b") == "\nb";
    assert "a.\n\nb" == "a." + ("\n" + "\nb");
    var lines := ["a.", "", "b"];
    StripShortens("a.");
    StripShortens("");
    StripShortens("b");
    assert lines[1..] == ["", "b"] && ["", "b"][1..] == ["b"] && ["b"][1..] == [];
    assert Lengths(["b"]) == [];
    assert Lengths(["", "b"]) == [];
    assert Lengths(lines) == [];
  }

  lemma {:induction false} StripShortens(s: string)
    ensures |Strip(s)| <= |s|
  {
    LStripShortens(s);
    RStripShortens(LStrip(s));
  }

  lemma {:induction false} LStripShortens(s: string)
    ensures |LStrip(s)| <= |s|
  {
    if s != [] && IsSpace(s[0]) {
      LStripShortens(s[1..]);
    }
  }

  lemma {:induction false} RStripShortens(s: string)
    ensures |RStrip(s)| <= |s|
  {
    if s != [] && IsSpace(s[|s| - 1]) {
      RStripShortens(s[..|s| - 1]);
    }
  }

  lemma ExampleMarks()
    ensures Marked(["a.", "", "b"], 80, true) == [Mark("a.", true), Mark("b", true)]
    ensures Offsets(["a.", "", "b"], 80, 0, 5) == [3, 4]
  {
    var lines := ["a.", "", "b"];
    assert lines[1..] == ["", "b"] && ["", "b"][1..] == ["b"] && ["b"][1..] == [];
    assert RStrip("a.") == "a." && ShortEnd("a.", 80);
    assert "b"[0] == 'b' && !IsBlank("b") && "a."[0] == 'a' && !IsBlank("a.");
    assert Marked([], 80, ShortEnd("b", 80)) == [];
    assert Marked(["b"], 80, true) == [Mark("b", true)] + [];
    assert Marked(["", "b"], 80, true) == [Mark("b", true)];
    assert Offsets(["b"], 80, 4, 5) == [];
    assert Offsets(["", "b"], 80, 3, 5) == [4];
  }

  // ----- Text that has not been repaired -----

  lemma {:induction false} NewlinesKeepInk(s: string)
    ensures Ink(Newlines(s)) == Ink(s)
    decreases |s|
  {
    if s != [] {
      if s[0] == '\r' && |s| > 1 && s[1] == '\n' {
        NewlinesKeepInk(s[2..]);
        assert s[1..][1..] == s[2..];
      } else {
        NewlinesKeepInk(s[1..]);
      }
    }
  }

  // Each repair drops a hyphen.
  lemma {:induction false} RepairDropsInk(s: string)
    ensures |Ink(RepairWraps(s))| <= |Ink(s)|
    ensures !NoWraps(s) ==> |Ink(RepairWraps(s))| < |Ink(s)|
    decreases |s|
  {
    if s != [] {
      if WrapAt(s) {
        RepairDropsInk(s[4..]);
        InkConcat([s[0], s[3]], RepairWraps(s[4..]));
        InkConcat(s[..4], s[4..]);
        assert s == s[..4] + s[4..];
        InkOfWrap(s[..4]);
      } else {
        RepairDropsInk(s[1..]);
      }
    }
  }

  lemma InkOfWrap(s: string)
    requires |s| == 4 && WrapAt(s)
    ensures |Ink(s)| == 3 && |Ink([s[0], s[3]])| == 2
  {
    assert s == [s[0]] + ([s[1]] + ([s[2]] + [s[3]]));
    InkConcat([s[0]], [s[1]] + ([s[2]] + [s[3]]));
    InkConcat([s[1]], [s[2]] + [s[3]]);
    InkConcat([s[2]], [s[3]]);
    InkConcat([s[0]], [s[3]]);
    assert [s[0], s[3]] == [s[0]] + [s[3]];
  }

  // Equal ink before and after the repair: there was nothing to repair.
  lemma SameInkNoWraps(text: string)
    requires Ink(Clean(text)) == Ink(text)
    ensures NoWraps(Newlines(text))
  {
    NewlinesKeepInk(text);
    RepairDropsInk(Newlines(text));
  }

  // Carriage returns stand on blank lines only.
  predicate ReturnsOnBlanks(lines: seq<string>) {
    forall i :: 0 <= i < |lines| && '\r' in lines[i] ==> IsBlank(lines[i])
  }

  lemma {:induction false} MarkedLines(lines: seq<string>, width: nat, ended: bool)
    ensures LinesOf(Marked(lines, width, ended)) == NonBlank(lines)
  {
    if lines != [] {
      MarkedLines(lines[1..], width, Breaks(lines[0], width));
      if !IsBlank(lines[0]) {
        var rest := Marked(lines[1..], width, ShortEnd(lines[0], width));
        assert ([Mark(lines[0], ended)] + rest)[1..] == rest;
      }
    }
  }

  lemma {:induction false} NonBlankHolds(lines: seq<string>, i: nat)
    requires i < |lines| && !IsBlank(lines[i])
    ensures lines[i] in NonBlank(lines)
  {
    if i > 0 {
      NonBlankHolds(lines[1..], i - 1);
    }
  }

  lemma {:induction false} ProperFlatten(paras: seq<seq<string>>, line: string)
    requires Proper(paras) && line in Flatten(paras)
    ensures ProperLine(line)
  {
    assert ProperPara(paras[0]);
    if line !in paras[0] {
      ProperFlatten(paras[1..], line);
    }
  }

  // Then no content line of the raw text holds a carriage return.
  lemma AgreementNeeds(raw: string)
    requires Paragraphs(raw) == Paragraphs(Clean(raw))
    ensures NoWraps(Newlines(raw)) && ReturnsOnBlanks(Split(raw))
  {
    InkOfText(raw);
    InkOfText(Clean(raw));
    SameInkNoWraps(raw);
    var lines := Split(raw);
    ParagraphsAreProper(raw);
    GroupKeepsLines(Marked(lines, Width(lines), true));
    MarkedLines(lines, Width(lines), true);
    forall i | 0 <= i < |lines| && !IsBlank(lines[i]) ensures '\r' !in lines[i] {
      NonBlankHolds(lines, i);
      ProperFlatten(Paragraphs(raw), lines[i]);
    }
  }

  // ----- Normalising line ends on blank lines -----

  lemma {:induction false} NewlinesPass(line: string, x: string)
    requires '\r' !in line
    ensures Newlines(line + x) == line + Newlines(x)
  {
    if line == [] {
      assert line + x == x;
    } else {
      assert (line + x)[1..] == line[1..] + x;
      NewlinesPass(line[1..], x);
    }
  }

  lemma NewlinesCons(c: char, y: string)
    requires !(c == '\r' && y != [] && y[0] == '\n')
    ensures Newlines([c] + y) == [if c == '\r' then '\n' else c] + Newlines(y)
  {
    assert ([c] + y)[1..] == y;
  }

  lemma NewlinesOfReturn(x: string)
    ensures Newlines("\r" + ("\n" + x)) == "" + ("\n" + Newlines(x))
  {
    var s := "\r" + ("\n" + x);
    assert s[2..] == x;
    assert "" + ("\n" + Newlines(x)) == "\n" + Newlines(x);
  }

  // A blank line becomes one or more blank lines.
  lemma {:induction false} NewlinesOfBlank(line: string, x: string) returns (p: string)
    requires IsBlank(line) && '\n' !in line
    ensures IsBlank(p) && Newlines(line + ("\n" + x)) == p + ("\n" + Newlines(x))
    decreases |line|
  {
    var end := "\n" + x;
    if line == [] {
      p := [];
      NewlinesCons('\n', x);
      assert line + end == end && p + ("\n" + Newlines(x)) == "\n" + Newlines(x);
    } else if line == "\r" {
      p := "";
      NewlinesOfReturn(x);
    } else {
      var q := NewlinesOfBlank(line[1..], x);
      p := [if line[0] == '\r' then '\n' else line[0]] + q;
      BlankConsNormalised(line[0], line[1..], end);
      assert line == [line[0]] + line[1..];
      Assoc([if line[0] == '\r' then '\n' else line[0]], q, "\n" + Newlines(x));
    }
  }

  lemma BlankConsNormalised(c: char, line: string, end: string)
    requires '\n' !in line && (line == [] ==> c != '\r')
    ensures Newlines([c] + line + end) == [if c == '\r' then '\n' else c] + Newlines(line + end)
  {
    assert [c] + line + end == [c] + (line + end);
    if line != [] {
      assert (line + end)[0] == line[0];
    }
    NewlinesCons(c, line + end);
  }

  lemma {:induction false} BlankStays(line: string)
    requires IsBlank(line)
    ensures IsBlank(Newlines(line))
    decreases |line|
  {
    if line != [] {
      if line[0] == '\r' && |line| > 1 && line[1] == '\n' {
        BlankStays(line[2..]);
      } else {
        BlankStays(line[1..]);
      }
    }
  }

  lemma SplitCons(c: char, y: string)
    ensures Split([c] + y) == if c == '\n' then [[]] + Split(y) else [[c] + Split(y)[0]] + Split(y)[1..]
  {
    assert ([c] + y)[1..] == y;
  }

  lemma PrependConcat(c: char, a: seq<string>, b: seq<string>)
    requires a != []
    ensures [[]] + (a + b) == ([[]] + a) + b
    ensures [[c] + (a + b)[0]] + (a + b)[1..] == ([[c] + a[0]] + a[1..]) + b
  {
    assert (a + b)[1..] == a[1..] + b;
  }

  lemma SplitConcatStep(c: char, a: string, b: string, more: seq<string>)
    requires Split(a + b) == Split(a) + more
    ensures Split([c] + a + b) == Split([c] + a) + more
  {
    SplitCons(c, a);
    SplitCons(c, a + b);
    PrependConcat(c, Split(a), more);
    Assoc([c], a, b);
  }

  lemma {:induction false} SplitConcat(p: string, y: string)
    ensures Split(p + ("\n" + y)) == Split(p) + Split(y)
  {
    if p == [] {
      SplitCons('\n', y);
      assert p + ("\n" + y) == "\n" + y;
    } else {
      SplitConcat(p[1..], y);
      SplitConcatStep(p[0], p[1..], "\n" + y, Split(y));
      assert p == [p[0]] + p[1..];
    }
  }

  ghost predicate AllBlank(lines: seq<string>) {
    forall i :: 0 <= i < |lines| ==> IsBlank(lines[i])
  }

  lemma {:induction false} SplitOfBlank(p: string)
    requires IsBlank(p)
    ensures AllBlank(Split(p))
  {
    if p != [] {
      SplitOfBlank(p[1..]);
    }
  }

  lemma {:induction false} BlanksPass(blanks: seq<string>, rest: seq<string>, width: nat, ended: bool)
    requires AllBlank(blanks)
    ensures Marked(blanks + rest, width, ended) == Marked(rest, width, ended || blanks != [])
    ensures Lengths(blanks + rest) == Lengths(rest)
  {
    if blanks == [] {
      assert blanks + rest == rest;
    } else {
      assert (blanks + rest)[1..] == blanks[1..] + rest;
      assert Strip(blanks[0]) == [];
      BlanksPass(blanks[1..], rest, width, true);
    }
  }

  // `after` reads like `lines`.
  ghost predicate SameReading(after: seq<string>, lines: seq<string>, width: nat, ended: bool) {
    Lengths(after) == Lengths(lines) && Marked(after, width, ended) == Marked(lines, width, ended)
  }

  lemma {:induction false} NormalisedLines(lines: seq<string>, width: nat, ended: bool)
    requires lines != [] && ReturnsOnBlanks(lines)
    requires forall i :: 0 <= i < |lines| ==> '\n' !in lines[i]
    ensures SameReading(Split(Newlines(Join(lines, "\n"))), lines, width, ended)
    decreases lines
  {
    var line, rest := lines[0], lines[1..];
    if rest == [] {
      LastNormalised(line, width, ended);
      assert lines == [line];
    } else {
      NormalisedLines(rest, width, Breaks(line, width));
      Assoc(line, "\n", Join(rest, "\n"));
      assert ReturnsOnBlanks(lines) && ('\r' in lines[0] ==> IsBlank(lines[0]));
      if IsBlank(line) {
        BlankNormalised(line, rest, Join(rest, "\n"), width, ended);
      } else {
        ContentNormalised(line, rest, Join(rest, "\n"), width, ended);
      }
      assert lines == [line] + rest;
    }
  }

  lemma LastNormalised(line: string, width: nat, ended: bool)
    requires '\n' !in line && ('\r' in line ==> IsBlank(line))
    ensures SameReading(Split(Newlines(line)), [line], width, ended)
  {
    if IsBlank(line) {
      BlankStays(line);
      SplitOfBlank(Newlines(line));
      BlanksPass(Split(Newlines(line)), [], width, ended);
      BlanksPass([line], [], width, ended);
      assert Split(Newlines(line)) + [] == Split(Newlines(line)) && [line] + [] == [line];
      assert Marked([], width, true) == [];
    } else {
      NewlinesKeep(line);
      SplitWithoutNewline(line);
    }
  }

  lemma BlankNormalised(line: string, rest: seq<string>, x: string, width: nat, ended: bool)
    requires IsBlank(line) && '\n' !in line
    requires SameReading(Split(Newlines(x)), rest, width, true)
    ensures SameReading(Split(Newlines(line + ("\n" + x))), [line] + rest, width, ended)
  {
    var p := NewlinesOfBlank(line, x);
    SplitConcat(p, Newlines(x));
    SplitOfBlank(p);
    BlanksPass(Split(p), Split(Newlines(x)), width, ended);
    BlanksPass([line], rest, width, ended);
  }

  lemma ContentNormalised(line: string, rest: seq<string>, x: string, width: nat, ended: bool)
    requires !IsBlank(line) && '\r' !in line && '\n' !in line
    requires SameReading(Split(Newlines(x)), rest, width, ShortEnd(line, width))
    ensures SameReading(Split(Newlines(line + ("\n" + x))), [line] + rest, width, ended)
  {
    var after := Split(Newlines(x));
    NewlinesPass(line, "\n" + x);
    assert ("\n" + x)[1..] == x;
    SplitAtNewline(line, Newlines(x));
    assert ([line] + after)[1..] == after && ([line] + rest)[1..] == rest;
  }

  lemma NormalisedParagraphs(raw: string)
    requires ReturnsOnBlanks(Split(raw))
    ensures Paragraphs(Newlines(raw)) == Paragraphs(raw)
  {
    var lines := Split(raw);
    SplitJoin(raw);
    NormalisedLines(lines, Width(lines), true);
  }

  // Cut at its own offsets, the raw text falls into the paragraphs that the
  // reflow prints exactly if the repair has nothing to do on its content lines.
  lemma RawAgreesIff(raw: string)
    ensures Detected(raw) != [] && Ascend(Detected(raw)[0], Detected(raw)[1..], |raw|)
    ensures SliceParagraphs(raw, Detected(raw)) == Paragraphs(Clean(raw)) <==>
              NoWraps(Newlines(raw)) && ReturnsOnBlanks(Split(raw))
  {
    HeuristicsAgree(raw);
    if Paragraphs(raw) == Paragraphs(Clean(raw)) {
      AgreementNeeds(raw);
    }
    if NoWraps(Newlines(raw)) && ReturnsOnBlanks(Split(raw)) {
      RepairKeeps(Newlines(raw));
      NormalisedParagraphs(raw);
    }
  }

  // On the printed text, for a raw text with nothing but line feeds.
  lemma ReflowFollowsRawIff(raw: string)
    requires '\r' !in raw
    ensures Detected(raw) != [] && Ascend(Detected(raw)[0], Detected(raw)[1..], |raw|)
    ensures Reflowed(raw) == TextOf(SliceParagraphs(raw, Detected(raw))) <==> NoWraps(raw)
  {
    HeuristicsAgree(raw);
    NewlinesKeep(raw);
    if NoWraps(raw) {
      NothingToRepair(raw);
    } else if Reflowed(raw) == TextOf(Paragraphs(raw)) {
      InkOfText(raw);
      InkOfText(Clean(raw));
      SameInkNoWraps(raw);
    }
  }

  // Where a line ends in a carriage return alone, the detector sees one line.
  lemma ReturnDisagrees()
    ensures Detected("a.\rb") == [0] && |Paragraphs(Clean("a.\rb"))| == 2
  {
    DetectedInLine("a.\rb");
    ReturnRepaired();
    RepairedLines();
    RepairedMarks();
    TwoParagraphs(Clean("a.\rb"), "a.", "b");
  }

  lemma DetectedInLine(s: string)
    requires '\n' !in s
    ensures Detected(s) == [0]
  {
    SplitWithoutNewline(s);
    assert Offsets([s], Width([s]), 0, |s|) == [];
  }

  lemma TwoParagraphs(u: string, a: string, b: string)
    requires Marked(Split(u), Width(Split(u)), true) == [Mark(a, true), Mark(b, true)]
    ensures |Paragraphs(u)| == 2
  {
    GroupCons(Mark(a, true), [Mark(b, true)]);
    GroupSingle(b, true);
  }

  lemma RepairedLines()
    ensures Split("a." + ("\n" + "b")) == ["a.", "b"] && Width(["a.", "b"]) == 80
  {
    SplitAtNewline("a.", "b");
    SplitWithoutNewline("b");
    StripShortens("a.");
    StripShortens("b");
    var lines := ["a.", "b"];
    assert lines[1..] == ["b"] && ["b"][1..] == [];
    assert Lengths(["b"]) == [];
    assert Lengths(lines) == [];
  }

  lemma RepairedMarks()
    ensures Marked(["a.", "b"], 80, true) == [Mark("a.", true), Mark("b", true)]
  {
    assert ["a.", "b"][1..] == ["b"] && ["b"][1..] == [];
    assert RStrip("a.") == "a." && ShortEnd("a.", 80);
    assert "b"[0] == 'b' && !IsBlank("b") && "a."[0] == 'a' && !IsBlank("a.");
    assert Marked([], 80, ShortEnd("b", 80)) == [];
    assert Marked(["b"], 80, true) == [Mark("b", true)] + [];
  }

  lemma ReturnRepaired()
    ensures Clean("a.\rb") == "a." + ("\n" + "b")
  {
    NewlinesPass("a.", "\rb");
    assert "a.\rb" == "a." + "\rb";
    assert "\rb"[1..] == "b" && "b"[1..] == "";
    assert Newlines("b") == "b" + Newlines("");
    assert Newlines("\rb") == "\n" + "b";
    NoWrapsAcross("a", []);
    var s := "a.\nb";
    assert s == "a." + ("\n" + "b");
    assert s[1..] == ".\nb" && ".\nb"[1..] == "\nb" && "\nb"[1..] == "b";
    assert NoWraps("") && NoWraps("b") && NoWraps("\nb") && NoWraps(".\nb") && NoWraps(s);
    RepairKeeps(s);
  }
}
