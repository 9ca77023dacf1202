// Undoing PDF column wraps (scripts/export_chapter_zh_html.py:2196-2273).
//
// The declarative reading of a text is a list of paragraphs, each a list of lines;
// the loop's output is shown to be the text of those paragraphs. The second,
// separately written paragraph detector uses the same notion of a line that ends
// a paragraph.
module Reflow {
  import opened PyText

  // ----- Normalisation -----

  // replace("\r\n", "\n").replace("\r", "\n")
  function Newlines(s: string): string {
    if s == [] then []
    else if s[0] != '\r' then [s[0]] + Newlines(s[1..])
    else if |s| > 1 && s[1] == '\n' then ['\n'] + Newlines(s[2..])
    else ['\n'] + Newlines(s[1..])
  }

  predicate IsLow(c: char) {
    'a' <= c <= 'z'
  }

  // A soft hyphen: lower-case letter, hyphen, line break, lower-case letter.
  predicate WrapAt(s: string) {
    |s| >= 4 && IsLow(s[0]) && s[1] == '-' && s[2] == '\n' && IsLow(s[3])
  }

  // Leftmost, non-overlapping repair of soft hyphens.
  function RepairWraps(s: string): string {
    if s == [] then []
    else if WrapAt(s) then [s[0], s[3]] + RepairWraps(s[4..])
    else [s[0]] + RepairWraps(s[1..])
  }

  function Clean(text: string): string {
    RepairWraps(Newlines(text))
  }

  // ----- The column-wrap heuristic -----

  predicate IsTerminator(c: char) {
    c in ".?!。？！"
  }

  predicate IsCloser(c: char) {
    c in "\"”’')）]"
  }

  // A sentence end, optionally followed by one closing quote or bracket.
  predicate EndsSentence(s: string) {
    && s != []
    && (IsTerminator(s[|s| - 1]) || (|s| > 1 && IsCloser(s[|s| - 1]) && IsTerminator(s[|s| - 2])))
  }

  // Lengths of the lines that carry more than 25 characters.
  function Lengths(lines: seq<string>): seq<nat> {
    if lines == [] then []
    else (if |Strip(lines[0])| > 25 then [|lines[0]|] else []) + Lengths(lines[1..])
  }

  function Insert(x: nat, s: seq<nat>): seq<nat> {
    if s == [] || x <= s[0] then [x] + s else [s[0]] + Insert(x, s[1..])
  }

  function Sorted(s: seq<nat>): seq<nat> {
    if s == [] then [] else Insert(s[0], Sorted(s[1..]))
  }

  ghost predicate Ascending(s: seq<nat>) {
    forall i, j :: 0 <= i < j < |s| ==> s[i] <= s[j]
  }

  lemma {:induction false} InsertKeeps(x: nat, s: seq<nat>)
    ensures multiset(Insert(x, s)) == multiset([x]) + multiset(s)
  {
    if s != [] && x > s[0] {
      InsertKeeps(x, s[1..]);
      assert s == [s[0]] + s[1..];
      assert multiset(s) == multiset([s[0]]) + multiset(s[1..]);
    }
  }

  lemma {:induction false} InsertSorts(x: nat, s: seq<nat>)
    requires Ascending(s)
    ensures Ascending(Insert(x, s))
    ensures Insert(x, s)[0] == if s == [] || x <= s[0] then x else s[0]
  {
    if s != [] && x > s[0] {
      InsertSorts(x, s[1..]);
    }
  }

  lemma {:induction false} SortedSorts(s: seq<nat>)
    ensures multiset(Sorted(s)) == multiset(s) && Ascending(Sorted(s))
  {
    if s != [] {
      SortedSorts(s[1..]);
      InsertSorts(s[0], Sorted(s[1..]));
      InsertKeeps(s[0], Sorted(s[1..]));
      assert s == [s[0]] + s[1..];
    }
  }

  // Typical column width: the 90th percentile of those lengths, 80 without any.
  function Width(lines: seq<string>): nat {
    var sorted := Sorted(Lengths(lines));
    var n := |sorted|;
    if n == 0 then 80 else sorted[if n * 9 / 10 > 0 then n * 9 / 10 - 1 else 0]
  }

  // The line stops short of 65% of the column and ends a sentence.
  predicate ShortEnd(line: string, width: nat) {
    20 * |RStrip(line)| < 13 * width && EndsSentence(RStrip(line))
  }

  // A paragraph may not run on after this line.
  predicate Breaks(line: string, width: nat) {
    IsBlank(line) || ShortEnd(line, width)
  }

  // ----- What a paragraph is -----

  datatype Mark = Mark(line: string, opens: bool)

  // The non-blank lines, each with whether it opens a paragraph; `ended` says
  // that the text so far ends one.
  function Marked(lines: seq<string>, width: nat, ended: bool): seq<Mark> {
    if lines == [] then []
    else if IsBlank(lines[0]) then Marked(lines[1..], width, true)
    else [Mark(lines[0], ended)] + Marked(lines[1..], width, ShortEnd(lines[0], width))
  }

  function Group(marks: seq<Mark>): (g: seq<seq<string>>)
    ensures g == [] <==> marks == []
    ensures forall i :: 0 <= i < |g| ==> g[i] != []
  {
    if marks == [] then []
    else
      var g := Group(marks[1..]);
      if g != [] && !marks[1].opens then [[marks[0].line] + g[0]] + g[1..] else [[marks[0].line]] + g
  }

  // The paragraphs of a text, as the lines they are made of.
  function Paragraphs(u: string): seq<seq<string>> {
    var lines := Split(u);
    Group(Marked(lines, Width(lines), true))
  }

  function Stripped(lines: seq<string>): (r: seq<string>)
    ensures |r| == |lines| && forall i :: 0 <= i < |r| ==> r[i] == LStrip(lines[i])
  {
    seq(|lines|, i requires 0 <= i < |lines| => LStrip(lines[i]))
  }

  // One paragraph on one line.
  function ParaText(lines: seq<string>): string {
    Squeeze(Join(Stripped(lines), " "), ' ', 1)
  }

  function ParaTexts(paras: seq<seq<string>>): (r: seq<string>)
    ensures |r| == |paras| && forall i :: 0 <= i < |r| ==> r[i] == ParaText(paras[i])
  {
    seq(|paras|, i requires 0 <= i < |paras| => ParaText(paras[i]))
  }

  // Paragraphs separated by one empty line.
  function TextOf(paras: seq<seq<string>>): string {
    RStrip(Join(ParaTexts(paras), "\n\n"))
  }

  // What reflowing means.
  function Reflowed(text: string): string {
    TextOf(Paragraphs(Clean(text)))
  }

  // ----- The exporter's reflow -----

  // What the loop still has to append for the marked lines to come.
  function Tail(marks: seq<Mark>): string {
    if marks == [] then []
    else (if marks[0].opens then "\n\n" else " ") + LStrip(marks[0].line) + Tail(marks[1..])
  }

  method ReflowPdfSource(text: string) returns (r: string)
    ensures r == Reflowed(text)
  {
    if text == [] {
      return text;
    }
    var s := RepairWraps(Newlines(text));
    s := Squeeze(s, '\n', 2);
    var lines := Split(s);
    if |lines| <= 1 {
      r := Strip(Squeeze(s, ' ', 1));
      OneLineReflow(text);
      return;
    }
    var width := Width(lines);
    var out := lines[0];
    ghost var goal := lines[0] + Tail(Marked(lines[1..], width, Breaks(lines[0], width)));
    for i := 1 to |lines|
      invariant out + Tail(Marked(lines[i..], width, Breaks(lines[i - 1], width))) == goal
    {
      var prev := RStrip(lines[i - 1]);
      var cur := LStrip(lines[i]);
      ghost var before := out;
      if prev == "" || cur == "" {
        if cur != "" {
          out := out + "\n\n" + cur;
        }
      } else if 20 * |prev| < 13 * width && EndsSentence(prev) {
        out := out + "\n\n" + cur;
      } else {
        out := out + " " + cur;
      }
      TailStep(before, out, lines, width, i);
    }
    assert lines[|lines|..] == [];
    assert out == goal;
    var joined := Squeeze(out, ' ', 1);
    joined := Squeeze(joined, '\n', 2);
    r := Strip(joined);
    LongReflow(text);
  }

  // One round of the loop.
  lemma TailStep(before: string, after: string, lines: seq<string>, width: nat, i: nat)
    requires 1 <= i < |lines|
    requires if IsBlank(lines[i]) then after == before
             else after == before + (if Breaks(lines[i - 1], width) then "\n\n" else " ") + LStrip(lines[i])
    ensures before + Tail(Marked(lines[i..], width, Breaks(lines[i - 1], width)))
         == after + Tail(Marked(lines[i + 1..], width, Breaks(lines[i], width)))
  {
    var rest := Marked(lines[i + 1..], width, Breaks(lines[i], width));
    assert lines[i..][1..] == lines[i + 1..];
    if !IsBlank(lines[i]) {
      TailCons(lines[i], Breaks(lines[i - 1], width), rest);
      Assoc4(before, if Breaks(lines[i - 1], width) then "\n\n" else " ", LStrip(lines[i]), Tail(rest));
    }
  }

  lemma TailCons(line: string, opens: bool, rest: seq<Mark>)
    ensures Tail([Mark(line, opens)] + rest) == (if opens then "\n\n" else " ") + LStrip(line) + Tail(rest)
  {
    assert ([Mark(line, opens)] + rest)[1..] == rest;
  }

  // Newline runs of three or more add nothing but blank lines.
  function DropExtra(lines: seq<string>, run: nat): seq<string> {
    if |lines| <= 1 then lines
    else if lines[0] == [] && run >= 2 then DropExtra(lines[1..], run + 1)
    else [lines[0]] + DropExtra(lines[1..], if lines[0] == [] then run + 1 else 1)
  }

  lemma {:induction false} SplitSqueezed(s: string, run: nat)
    ensures Split(SqueezeFrom(s, '\n', 2, run)) == DropExtra(Split(s), run)
  {
    if s != [] {
      if s[0] == '\n' {
        SplitSqueezed(s[1..], run + 1);
        assert Split(s)[1..] == Split(s[1..]);
        if run < 2 {
          assert (['\n'] + SqueezeFrom(s[1..], '\n', 2, run + 1))[1..] == SqueezeFrom(s[1..], '\n', 2, run + 1);
        } else {
          assert [] + SqueezeFrom(s[1..], '\n', 2, run + 1) == SqueezeFrom(s[1..], '\n', 2, run + 1);
        }
      } else {
        SplitSqueezed(s[1..], 0);
        assert Split(s)[1..] == Split(s[1..])[1..];
        assert ([s[0]] + SqueezeFrom(s[1..], '\n', 2, 0))[1..] == SqueezeFrom(s[1..], '\n', 2, 0);
      }
    }
  }

  lemma {:induction false} DroppingKeepsMarks(lines: seq<string>, width: nat, run: nat, ended: bool)
    requires run >= 2 ==> ended
    ensures Marked(DropExtra(lines, run), width, ended) == Marked(lines, width, ended)
  {
    if |lines| > 1 {
      var run' := if lines[0] == [] then run + 1 else 1;
      var rest := DropExtra(lines[1..], run');
      DroppingKeepsMarks(lines[1..], width, run', Breaks(lines[0], width));
      assert ([lines[0]] + rest)[1..] == rest;
    }
  }

  lemma {:induction false} DroppingKeepsLengths(lines: seq<string>, run: nat)
    ensures Lengths(DropExtra(lines, run)) == Lengths(lines)
  {
    if |lines| > 1 {
      var run' := if lines[0] == [] then run + 1 else 1;
      var rest := DropExtra(lines[1..], run');
      DroppingKeepsLengths(lines[1..], run');
      assert ([lines[0]] + rest)[1..] == rest;
    }
  }

  lemma SqueezedParagraphs(u: string)
    ensures var lines := Split(Squeeze(u, '\n', 2));
            Width(lines) == Width(Split(u)) && Group(Marked(lines, Width(lines), true)) == Paragraphs(u)
  {
    SplitSqueezed(u, 0);
    DroppingKeepsMarks(Split(u), Width(Split(u)), 0, true);
    DroppingKeepsLengths(Split(u), 0);
  }

  // ----- Stripping and collapsing the loop's output -----

  // The loop's output as paragraphs: each preceded by an empty line.
  function Spread(paras: seq<seq<string>>): string {
    if paras == [] then [] else "\n\n" + Join(Stripped(paras[0]), " ") + Spread(paras[1..])
  }

  lemma {:induction false} TailIsSpread(marks: seq<Mark>)
    requires marks != [] ==> marks[0].opens
    ensures Tail(marks) == Spread(Group(marks))
  {
    if marks != [] {
      TailOpensParagraph(marks);
    }
  }

  // The first paragraph of a group, and what follows it.
  lemma {:induction false} TailOpensParagraph(marks: seq<Mark>)
    requires marks != []
    ensures var g := Group(marks);
            Tail(marks) == (if marks[0].opens then "\n\n" else " ") + Join(Stripped(g[0]), " ") + Spread(g[1..])
  {
    var g, rest := Group(marks), Group(marks[1..]);
    var sep, line := if marks[0].opens then "\n\n" else " ", LStrip(marks[0].line);
    if rest == [] {
      assert Stripped(g[0]) == [line];
    } else {
      TailOpensParagraph(marks[1..]);
      var head, spread := Join(Stripped(rest[0]), " "), Spread(rest[1..]);
      if marks[1].opens {
        assert g[1..] == rest && Stripped(g[0]) == [line];
      } else {
        assert g[0] == [marks[0].line] + rest[0] && g[1..] == rest[1..];
        StrippedCons(marks[0].line, rest[0]);
        JoinCons(line, Stripped(rest[0]), " ");
        Regroup(sep, line, " ", head, spread);
      }
    }
  }

  lemma Regroup(a: string, b: string, c: string, d: string, e: string)
    ensures a + b + (c + d + e) == a + (b + c + d) + e
  {
  }

  lemma StrippedCons(line: string, rest: seq<string>)
    ensures Stripped([line] + rest) == [LStrip(line)] + Stripped(rest)
  {
  }

  lemma LeadOf(s: string) returns (w: string)
    ensures IsBlank(w) && s == w + LStrip(s) && forall c :: c in w ==> c in s
  {
    var n := LStripIsSlice(s);
    w := s[..n];
  }

  lemma SqueezedBlank(w: string)
    requires IsBlank(w)
    ensures IsBlank(Squeeze(w, ' ', 1))
  {
    SqueezeMembers(w, ' ', 1, 0);
    forall i | 0 <= i < |Squeeze(w, ' ', 1)| ensures IsSpace(Squeeze(w, ' ', 1)[i]) {
      assert Squeeze(w, ' ', 1)[i] in w;
    }
  }

  // Leading white space disappears in the final strip.
  lemma LeadIsStripped(lead: string, x: string)
    requires IsBlank(lead) && (x == [] || x[0] != ' ')
    ensures Squeeze(lead + x, ' ', 1) == Squeeze(lead, ' ', 1) + Squeeze(x, ' ', 1)
    ensures LStrip(Squeeze(lead + x, ' ', 1)) == LStrip(Squeeze(x, ' ', 1))
  {
    SqueezeConcat(lead, x, ' ', 1, 0);
    SqueezedBlank(lead);
    LStripAfterBlank(Squeeze(lead, ' ', 1), Squeeze(x, ' ', 1));
  }

  lemma LStripOfInk(x: string)
    requires x != [] && !IsSpace(x[0])
    ensures LStrip(x) == x
    ensures Squeeze(x, ' ', 1) != [] && Squeeze(x, ' ', 1)[0] == x[0]
  {
  }

  lemma OneLineReflow(text: string)
    requires |Split(Squeeze(Clean(text), '\n', 2))| <= 1
    ensures Strip(Squeeze(Squeeze(Clean(text), '\n', 2), ' ', 1)) == Reflowed(text)
  {
    var s := Squeeze(Clean(text), '\n', 2);
    SplitJoin(s);
    assert Split(s) == [s];
    SqueezedParagraphs(Clean(text));
    OneLineText(s);
  }

  lemma OneLineMarks(s: string)
    ensures Marked([s], Width([s]), true) == if IsBlank(s) then [] else [Mark(s, true)]
  {
    assert [s][1..] == [];
    assert Marked([], Width([s]), true) == [];
    assert Marked([], Width([s]), ShortEnd(s, Width([s]))) == [];
  }

  lemma OneLineText(s: string)
    ensures Strip(Squeeze(s, ' ', 1)) == TextOf(Group(Marked([s], Width([s]), true)))
  {
    var w := LeadOf(s);
    LeadIsStripped(w, LStrip(s));
    OneLineMarks(s);
    if IsBlank(s) {
      NoParagraphText();
    } else {
      OneLineParagraph(s);
      LStripOfInk(LStrip(s));
      LStripOfInk(Squeeze(LStrip(s), ' ', 1));
    }
  }

  lemma NoParagraphText()
    ensures TextOf(Group([])) == []
    ensures RStrip(LStrip(Squeeze([], ' ', 1))) == []
  {
    assert ParaTexts([]) == [];
  }

  lemma OneLineParagraph(s: string)
    ensures Group([Mark(s, true)]) == [[s]]
    ensures TextOf([[s]]) == RStrip(Squeeze(LStrip(s), ' ', 1))
  {
    assert Stripped([s]) == [LStrip(s)];
    assert ParaTexts([[s]]) == [Squeeze(LStrip(s), ' ', 1)];
  }

  // A list of paragraphs as the text functions need it: no empty ones, no blank
  // lines, no line breaks inside a line.
  ghost predicate Proper(paras: seq<seq<string>>) {
    forall i :: 0 <= i < |paras| ==> ProperPara(paras[i])
  }

  predicate ProperLine(line: string) {
    !IsBlank(line) && '\n' !in line && '\r' !in line
  }

  ghost predicate ProperPara(para: seq<string>) {
    para != [] && forall j :: 0 <= j < |para| ==> ProperLine(para[j])
  }

  lemma {:induction false} GroupIsProper(marks: seq<Mark>)
    requires forall i :: 0 <= i < |marks| ==> ProperLine(marks[i].line)
    ensures Proper(Group(marks))
  {
    if marks != [] {
      GroupIsProper(marks[1..]);
      var g := Group(marks[1..]);
      if g != [] {
        assert ProperPara(g[0]);
      }
    }
  }

  lemma {:induction false} MarkedIsProper(lines: seq<string>, width: nat, ended: bool)
    requires forall i :: 0 <= i < |lines| ==> '\n' !in lines[i] && '\r' !in lines[i]
    ensures forall i :: 0 <= i < |Marked(lines, width, ended)| ==> ProperLine(Marked(lines, width, ended)[i].line)
    ensures ended && Marked(lines, width, ended) != [] ==> Marked(lines, width, ended)[0].opens
  {
    if lines != [] {
      MarkedIsProper(lines[1..], width, Breaks(lines[0], width));
    }
  }

  lemma {:induction false} NewlinesDropReturns(s: string)
    ensures '\r' !in Newlines(s)
    decreases |s|
  {
    if s != [] {
      if s[0] == '\r' && |s| > 1 && s[1] == '\n' {
        NewlinesDropReturns(s[2..]);
      } else {
        NewlinesDropReturns(s[1..]);
      }
    }
  }

  lemma {:induction false} RepairAddsNothing(s: string, c: char)
    requires c !in s
    ensures c !in RepairWraps(s)
    decreases |s|
  {
    if s != [] {
      if WrapAt(s) {
        RepairAddsNothing(s[4..], c);
      } else {
        RepairAddsNothing(s[1..], c);
      }
    }
  }

  lemma CleanHasNoReturns(text: string)
    ensures '\r' !in Clean(text)
    ensures '\r' !in Squeeze(Clean(text), '\n', 2)
  {
    NewlinesDropReturns(text);
    RepairAddsNothing(Newlines(text), '\r');
    SqueezeMembers(Clean(text), '\n', 2, 0);
  }

  lemma ParagraphsAreProper(text: string)
    ensures Proper(Paragraphs(Clean(text)))
  {
    var lines := Split(Clean(text));
    CleanHasNoReturns(text);
    SplitMembers(Clean(text), '\r');
    MarkedIsProper(lines, Width(lines), true);
    GroupIsProper(Marked(lines, Width(lines), true));
  }

  lemma {:induction false} JoinedLines(lines: seq<string>)
    requires ProperPara(lines)
    ensures var j := Join(Stripped(lines), " "); j != [] && !IsSpace(j[0]) && '\n' !in j && '\r' !in j
  {
    StripMembers(lines[0]);
    if |lines| == 1 {
      assert Stripped(lines) == [LStrip(lines[0])];
    } else {
      assert ProperPara(lines[1..]);
      JoinedLines(lines[1..]);
      assert lines == [lines[0]] + lines[1..];
      StrippedCons(lines[0], lines[1..]);
      JoinCons(LStrip(lines[0]), Stripped(lines[1..]), " ");
    }
  }

  ghost predicate CleanLine(t: string) {
    t != [] && !IsSpace(t[0]) && '\n' !in t && '\r' !in t && ShortRuns(t, ' ', 1, 0)
  }

  // A paragraph's text opens with ink, has no line break and no double space.
  lemma ParaTextShape(lines: seq<string>)
    requires ProperPara(lines)
    ensures CleanLine(ParaText(lines))
  {
    var j := Join(Stripped(lines), " ");
    JoinedLines(lines);
    LStripOfInk(j);
    SqueezeMembers(j, ' ', 1, 0);
    SqueezeShortensRuns(j, ' ', 1, 0);
  }

  function SpreadTexts(texts: seq<string>): string {
    if texts == [] then [] else "\n\n" + texts[0] + SpreadTexts(texts[1..])
  }

  lemma {:induction false} SqueezeSpread(paras: seq<seq<string>>)
    requires Proper(paras)
    ensures Squeeze(Spread(paras), ' ', 1) == SpreadTexts(ParaTexts(paras))
    ensures ShortRuns(SpreadTexts(ParaTexts(paras)), '\n', 2, 0)
    ensures Spread(paras) == [] || Spread(paras)[0] == '\n'
  {
    if paras != [] {
      SqueezeSpread(paras[1..]);
      var j := Join(Stripped(paras[0]), " ");
      JoinedLines(paras[0]);
      ParaTextShape(paras[0]);
      assert ParaTexts(paras)[1..] == ParaTexts(paras[1..]);
      SqueezeConcat("\n\n" + j, Spread(paras[1..]), ' ', 1, 0);
      SqueezeConcat("\n\n", j, ' ', 1, 0);
      assert Squeeze("\n\n", ' ', 1) == "\n\n";
      var t, rest := ParaText(paras[0]), SpreadTexts(ParaTexts(paras[1..]));
      OneParagraphRuns(t, rest);
    }
  }

  lemma OneParagraphRuns(t: string, rest: string)
    requires t != [] && !IsSpace(t[0]) && '\n' !in t && ShortRuns(rest, '\n', 2, 0)
    ensures ShortRuns("\n\n" + t + rest, '\n', 2, 0)
    ensures ShortRuns(t + rest, '\n', 2, 0)
  {
    RunsThroughText(t, rest, 0);
    var x := t + rest;
    assert x[0] == t[0];
    assert "\n\n" + t + rest == ['\n'] + (['\n'] + x);
    assert (['\n'] + x)[1..] == x;
    assert (['\n'] + (['\n'] + x))[1..] == ['\n'] + x;
  }

  lemma {:induction false} RunsThroughText(t: string, rest: string, run: nat)
    requires '\n' !in t && ShortRuns(rest, '\n', 2, 0) && (t == [] ==> run == 0)
    ensures ShortRuns(t + rest, '\n', 2, run)
  {
    if t == [] {
      assert t + rest == rest;
    } else {
      assert (t + rest)[1..] == t[1..] + rest;
      RunsThroughText(t[1..], rest, 0);
    }
  }

  lemma {:induction false} SpreadIsJoin(texts: seq<string>)
    requires forall i :: 0 <= i < |texts| ==> texts[i] != [] && !IsSpace(texts[i][0])
    ensures LStrip(SpreadTexts(texts)) == Join(texts, "\n\n")
    ensures texts != [] ==> SpreadTexts(texts) == "\n\n" + Join(texts, "\n\n")
  {
    if texts != [] {
      SpreadIsJoin(texts[1..]);
      var x := texts[0] + SpreadTexts(texts[1..]);
      if |texts| > 1 {
        Assoc(texts[0], "\n\n", Join(texts[1..], "\n\n"));
      }
      Assoc("\n\n", texts[0], SpreadTexts(texts[1..]));
      LStripAfterBlank("\n\n", x);
      LStripOfInk(x);
    }
  }

  // The loop's output, collapsed and stripped, is the text of the paragraphs.
  lemma LongReflow(text: string)
    requires |Split(Squeeze(Clean(text), '\n', 2))| > 1
    ensures var lines := Split(Squeeze(Clean(text), '\n', 2));
            var width := Width(lines);
            var out := lines[0] + Tail(Marked(lines[1..], width, Breaks(lines[0], width)));
            Strip(Squeeze(Squeeze(out, ' ', 1), '\n', 2)) == Reflowed(text)
  {
    var lines := Split(Squeeze(Clean(text), '\n', 2));
    var width := Width(lines);
    var marks := Marked(lines, width, true);
    var paras := Group(marks);
    SqueezedParagraphs(Clean(text));
    ParagraphsAreProper(text);
    CleanHasNoReturns(text);
    SplitMembers(Squeeze(Clean(text), '\n', 2), '\r');
    MarkedIsProper(lines, width, true);
    TailIsSpread(marks);
    SqueezeSpread(paras);
    var texts := ParaTexts(paras);
    forall i | 0 <= i < |texts| ensures texts[i] != [] && !IsSpace(texts[i][0]) {
      ParaTextShape(paras[i]);
    }
    SpreadIsJoin(texts);
    var rest := Tail(Marked(lines[1..], width, Breaks(lines[0], width)));
    if IsBlank(lines[0]) {
      assert rest == Spread(paras);
      LeadIsStripped(lines[0], rest);
      NewlinesStayShort(lines[0], SpreadTexts(texts));
    } else {
      FirstLineReflow(lines[0], rest, paras);
    }
  }

  lemma NewlinesStayShort(lead: string, x: string)
    requires IsBlank(lead) && '\n' !in lead && ShortRuns(x, '\n', 2, 0)
    ensures Squeeze(Squeeze(lead, ' ', 1) + x, '\n', 2) == Squeeze(lead, ' ', 1) + x
  {
    SqueezeMembers(lead, ' ', 1, 0);
    RunsThroughText(Squeeze(lead, ' ', 1), x, 0);
    SqueezeKeepsShortRuns(Squeeze(lead, ' ', 1) + x, '\n', 2, 0);
  }

  lemma FirstLineReflow(first: string, rest: string, paras: seq<seq<string>>)
    requires !IsBlank(first) && '\n' !in first
    requires Proper(paras) && "\n\n" + LStrip(first) + rest == Spread(paras)
    ensures Strip(Squeeze(Squeeze(first + rest, ' ', 1), '\n', 2)) == TextOf(paras)
  {
    var w := LeadOf(first);
    var x := LStrip(first) + rest;
    Assoc(w, LStrip(first), rest);
    Assoc("\n\n", LStrip(first), rest);
    LeadIsStripped(w, x);
    LStripOfInk(x);
    CollapsedSpread(x, paras);
    var y := Squeeze(x, ' ', 1);
    NewlinesStayShort(w, y);
    LStripOfInk(y);
  }

  lemma CollapsedSpread(x: string, paras: seq<seq<string>>)
    requires Proper(paras) && "\n\n" + x == Spread(paras) && x != [] && !IsSpace(x[0])
    ensures Squeeze(x, ' ', 1) == Join(ParaTexts(paras), "\n\n")
    ensures ShortRuns(Squeeze(x, ' ', 1), '\n', 2, 0)
  {
    SqueezeSpread(paras);
    var texts := ParaTexts(paras);
    forall i | 0 <= i < |texts| ensures texts[i] != [] && !IsSpace(texts[i][0]) {
      ParaTextShape(paras[i]);
    }
    SpreadIsJoin(texts);
    SqueezeConcat("\n\n", x, ' ', 1, 0);
    assert Squeeze("\n\n", ' ', 1) == "\n\n";
    var y := Squeeze(x, ' ', 1);
    assert "\n\n" + y == SpreadTexts(texts);
    assert y == SpreadTexts(texts)[2..] == Join(texts, "\n\n");
    LStripOfInk(x);
    AfterTwoNewlines(y);
  }

  lemma AfterTwoNewlines(y: string)
    requires ShortRuns("\n\n" + y, '\n', 2, 0) && y != [] && y[0] != '\n'
    ensures ShortRuns(y, '\n', 2, 0)
  {
    var z, z1 := "\n\n" + y, "\n" + y;
    assert z[1..] == z1 && z1[1..] == y;
    assert ShortRuns(z1, '\n', 2, 1);
    assert ShortRuns(y, '\n', 2, 2);
  }
}
