// What reflowing promises, for every text:
// - no character but whitespace is lost, added or moved;
// - the result has a canonical shape;
// - reflowing it again changes nothing.
module ReflowLaws {
  import opened PyText
  import opened Reflow

  // ----- No content is lost -----

  function InkOfLines(lines: seq<string>): string {
    if lines == [] then [] else Ink(lines[0]) + InkOfLines(lines[1..])
  }

  lemma {:induction false} InkOfLinesConcat(a: seq<string>, b: seq<string>)
    ensures InkOfLines(a + b) == InkOfLines(a) + InkOfLines(b)
  {
    if a == [] {
      assert a + b == b;
    } else {
      assert (a + b)[1..] == a[1..] + b;
      InkOfLinesConcat(a[1..], b);
    }
  }

  lemma InkOfSnoc(lines: seq<string>, line: string)
    ensures InkOfLines(lines + [line]) == InkOfLines(lines) + Ink(line)
  {
    InkOfLinesConcat(lines, [line]);
    assert [line][1..] == [];
  }

  lemma {:induction false} InkOfJoin(lines: seq<string>, sep: string)
    requires IsBlank(sep)
    ensures Ink(Join(lines, sep)) == InkOfLines(lines)
  {
    if |lines| > 1 {
      InkOfJoin(lines[1..], sep);
      InkConcat(lines[0] + sep, Join(lines[1..], sep));
      InkConcat(lines[0], sep);
      InkOfBlank(sep);
    }
  }

  lemma {:induction false} InkOfStripped(lines: seq<string>)
    ensures InkOfLines(Stripped(lines)) == InkOfLines(lines)
  {
    if lines != [] {
      InkLStrip(lines[0]);
      InkOfStripped(lines[1..]);
      assert Stripped(lines)[1..] == Stripped(lines[1..]);
    }
  }

  function Flatten(paras: seq<seq<string>>): seq<string> {
    if paras == [] then [] else paras[0] + Flatten(paras[1..])
  }

  function LinesOf(marks: seq<Mark>): seq<string> {
    if marks == [] then [] else [marks[0].line] + LinesOf(marks[1..])
  }

  lemma {:induction false} GroupKeepsLines(marks: seq<Mark>)
    ensures Flatten(Group(marks)) == LinesOf(marks)
  {
    if marks != [] {
      GroupKeepsLines(marks[1..]);
      var line, g, rest := marks[0].line, Group(marks), Group(marks[1..]);
      if rest != [] && !marks[1].opens {
        assert g[0] == [line] + rest[0] && g[1..] == rest[1..];
        assert [line] + rest[0] + Flatten(rest[1..]) == [line] + (rest[0] + Flatten(rest[1..]));
      } else {
        assert g[0] == [line] && g[1..] == rest;
      }
    }
  }

  lemma {:induction false} MarkedKeepsInk(lines: seq<string>, width: nat, ended: bool)
    ensures InkOfLines(LinesOf(Marked(lines, width, ended))) == InkOfLines(lines)
  {
    if lines != [] {
      MarkedKeepsInk(lines[1..], width, Breaks(lines[0], width));
      if IsBlank(lines[0]) {
        InkOfBlank(lines[0]);
      } else {
        var rest := Marked(lines[1..], width, ShortEnd(lines[0], width));
        assert ([Mark(lines[0], ended)] + rest)[1..] == rest;
      }
    }
  }

  lemma {:induction false} InkOfParaTexts(paras: seq<seq<string>>)
    ensures InkOfLines(ParaTexts(paras)) == InkOfLines(Flatten(paras))
  {
    if paras != [] {
      InkSqueezeFrom(Join(Stripped(paras[0]), " "), ' ', 1, 0);
      InkOfJoin(Stripped(paras[0]), " ");
      InkOfStripped(paras[0]);
      InkOfParaTexts(paras[1..]);
      assert ParaTexts(paras)[1..] == ParaTexts(paras[1..]);
      InkOfLinesConcat(paras[0], Flatten(paras[1..]));
    }
  }

  lemma InkOfTextOf(paras: seq<seq<string>>)
    ensures Ink(TextOf(paras)) == InkOfLines(Flatten(paras))
  {
    InkRStrip(Join(ParaTexts(paras), "\n\n"));
    InkOfJoin(ParaTexts(paras), "\n\n");
    InkOfParaTexts(paras);
  }

  lemma InkOfText(u: string)
    ensures Ink(TextOf(Paragraphs(u))) == Ink(u)
  {
    var lines := Split(u);
    InkOfTextOf(Paragraphs(u));
    GroupKeepsLines(Marked(lines, Width(lines), true));
    MarkedKeepsInk(lines, Width(lines), true);
    InkOfJoin(lines, "\n");
    SplitJoin(u);
  }

  // Every non-space character of the repaired input comes out, in order, and no other.
  lemma ReflowKeepsInk(text: string)
    ensures Ink(Reflowed(text)) == Ink(Clean(text))
  {
    InkOfText(Clean(text));
  }

  // ----- The shape of the result -----

  lemma {:induction false} ShortRunsOfPrefix(s: string, t: string, c: char, keep: nat, run: nat)
    requires ShortRuns(s, c, keep, run) && t <= s
    ensures ShortRuns(t, c, keep, run)
  {
    if t != [] {
      ShortRunsOfPrefix(s[1..], t[1..], c, keep, if s[0] != c then 0 else run + 1);
    }
  }

  lemma {:induction false} RStripIsPrefix(s: string)
    ensures RStrip(s) <= s
  {
    if s != [] && IsSpace(s[|s| - 1]) {
      RStripIsPrefix(s[..|s| - 1]);
    }
  }

  // The texts of the paragraphs with the last one stripped at its end.
  function Trimmed(texts: seq<string>): seq<string> {
    if texts == [] then []
    else if |texts| == 1 then [RStrip(texts[0])]
    else [texts[0]] + Trimmed(texts[1..])
  }

  ghost predicate CleanLines(texts: seq<string>) {
    forall i :: 0 <= i < |texts| ==> CleanLine(texts[i])
  }

  lemma {:induction false} TrimmedJoin(texts: seq<string>)
    requires CleanLines(texts)
    ensures RStrip(Join(texts, "\n\n")) == Join(Trimmed(texts), "\n\n")
    ensures CleanLines(Trimmed(texts)) && |Trimmed(texts)| == |texts|
    ensures texts != [] ==> !IsBlank(Join(texts, "\n\n"))
  {
    if |texts| == 1 {
      TrimLine(texts[0]);
    } else if |texts| > 1 {
      assert CleanLine(texts[0]);
      TrimmedJoin(texts[1..]);
      var rest := Join(texts[1..], "\n\n");
      RStripConcat(texts[0] + "\n\n", rest);
      JoinCons(texts[0], Trimmed(texts[1..]), "\n\n");
      var x := texts[0] + "\n\n" + rest;
      assert x[0] == texts[0][0];
    }
  }

  lemma TrimLine(t: string)
    requires CleanLine(t)
    ensures CleanLine(RStrip(t)) && !IsBlank(t)
  {
    RStripIsPrefix(t);
    ShortRunsOfPrefix(t, RStrip(t), ' ', 1, 0);
    StripMembers(t);
  }

  // A reflowed text is a join of clean lines.
  lemma ReflowedIsJoin(text: string) returns (texts: seq<string>)
    ensures CleanLines(texts) && Reflowed(text) == Join(texts, "\n\n")
  {
    var paras := Paragraphs(Clean(text));
    ParagraphsAreProper(text);
    forall i | 0 <= i < |paras| ensures CleanLine(ParaTexts(paras)[i]) {
      ParaTextShape(paras[i]);
    }
    texts := Trimmed(ParaTexts(paras));
    TrimmedJoin(ParaTexts(paras));
  }

  // A newline has exactly one newline next to it.
  ghost predicate Paired(s: string, i: nat)
    requires i < |s|
  {
    s[i] == '\n' ==> ((i > 0 && s[i - 1] == '\n') <==> !(i + 1 < |s| && s[i + 1] == '\n'))
  }

  // Maximal runs of newlines have length two.
  ghost predicate NewlinesInPairs(s: string) {
    forall i :: 0 <= i < |s| ==> Paired(s, i)
  }

  ghost predicate NoDoubleSpace(s: string) {
    forall i :: 0 <= i < |s| - 1 ==> !(s[i] == ' ' && s[i + 1] == ' ')
  }

  lemma {:induction false} SingleSpaces(s: string, run: nat)
    requires ShortRuns(s, ' ', 1, run)
    ensures NoDoubleSpace(s) && (run >= 1 && s != [] ==> s[0] != ' ')
  {
    if s != [] {
      SingleSpaces(s[1..], if s[0] != ' ' then 0 else run + 1);
      forall i | 0 <= i < |s| - 1 ensures !(s[i] == ' ' && s[i + 1] == ' ') {
        if i > 0 {
          assert s[i] == s[1..][i - 1] && s[i + 1] == s[1..][i];
        }
      }
    }
  }

  lemma {:induction false} JoinShape(texts: seq<string>)
    requires CleanLines(texts)
    ensures var x := Join(texts, "\n\n");
            NewlinesInPairs(x) && NoDoubleSpace(x) && (texts != [] ==> x != [] && !IsSpace(x[0]))
  {
    if texts != [] {
      assert CleanLine(texts[0]);
      SingleSpaces(texts[0], 0);
      if |texts| > 1 {
        JoinShape(texts[1..]);
        PairsConcat(texts[0], Join(texts[1..], "\n\n"));
      }
    }
  }

  lemma PairsConcat(t: string, y: string)
    requires t != [] && '\n' !in t && NoDoubleSpace(t)
    requires y != [] && y[0] != '\n' && NewlinesInPairs(y) && NoDoubleSpace(y)
    ensures NewlinesInPairs(t + "\n\n" + y) && NoDoubleSpace(t + "\n\n" + y)
  {
    var x := t + "\n\n" + y;
    var n := |t| + 2;
    assert forall i :: 0 <= i < |t| ==> x[i] == t[i] && x[i] != '\n';
    assert x[|t|] == '\n' && x[|t| + 1] == '\n';
    assert forall i :: n <= i < |x| ==> x[i] == y[i - n];
    assert x[n] == y[0];
    forall i | 0 <= i < |x| ensures Paired(x, i) {
      if i == |t| {
        assert x[i - 1] == t[i - 1];
      } else if i > n {
        var j := i - n;
        assert Paired(y, j);
        assert x[i - 1] == y[j - 1] && x[i] == y[j];
        assert i + 1 < |x| ==> x[i + 1] == y[j + 1];
      }
    }
    forall i | 0 <= i < |x| - 1 ensures !(x[i] == ' ' && x[i + 1] == ' ') {
      if i >= n {
        assert x[i] == y[i - n] && x[i + 1] == y[i - n + 1];
      }
    }
  }

  lemma ReflowedShape(text: string)
    ensures var r := Reflowed(text);
            && NewlinesInPairs(r) && NoDoubleSpace(r) && '\r' !in r
            && (r != [] ==> !IsSpace(r[0]) && !IsSpace(r[|r| - 1]))
  {
    var texts := ReflowedIsJoin(text);
    JoinShape(texts);
    JoinWithoutReturns(texts);
  }

  lemma {:induction false} JoinWithoutReturns(texts: seq<string>)
    requires CleanLines(texts)
    ensures '\r' !in Join(texts, "\n\n")
  {
    if texts != [] {
      assert CleanLine(texts[0]);
      if |texts| > 1 {
        JoinWithoutReturns(texts[1..]);
      }
    }
  }

  // ----- Reflowing twice -----

  lemma {:induction false} NewlinesKeep(s: string)
    requires '\r' !in s
    ensures Newlines(s) == s
  {
    if s != [] {
      NewlinesKeep(s[1..]);
    }
  }

  ghost predicate NoWraps(s: string) {
    s == [] || (!WrapAt(s) && NoWraps(s[1..]))
  }

  lemma {:induction false} RepairKeeps(s: string)
    requires NoWraps(s)
    ensures RepairWraps(s) == s
  {
    if s != [] {
      RepairKeeps(s[1..]);
    }
  }

  lemma {:induction false} NoWrapsAcross(t: string, y: string)
    requires '\n' !in t && NoWraps(y)
    requires y == [] || (|y| >= 2 && y[0] == '\n' && y[1] == '\n')
    ensures NoWraps(t + y)
  {
    if t == [] {
      assert t + y == y;
    } else {
      var s := t + y;
      assert s[1..] == t[1..] + y;
      NoWrapsAcross(t[1..], y);
      assert |t| <= 2 && |s| >= 4 ==> s[2] == y[2 - |t|] && s[3] == y[3 - |t|];
    }
  }

  lemma {:induction false} JoinHasNoWraps(texts: seq<string>)
    requires CleanLines(texts)
    ensures NoWraps(Join(texts, "\n\n"))
  {
    if texts != [] {
      assert CleanLine(texts[0]);
      if |texts| == 1 {
        NoWrapsAcross(texts[0], []);
        assert texts[0] + [] == texts[0];
      } else {
        JoinHasNoWraps(texts[1..]);
        var rest := Join(texts[1..], "\n\n");
        var y := "\n\n" + rest;
        assert y[1..] == "\n" + rest && ("\n" + rest)[1..] == rest;
        assert NoWraps("\n" + rest);
        NoWrapsAcross(texts[0], y);
        Assoc(texts[0], "\n\n", rest);
      }
    }
  }

  // The lines of a join: the texts with an empty line between each two.
  function Interleaved(texts: seq<string>): seq<string> {
    if |texts| <= 1 then texts else [texts[0], ""] + Interleaved(texts[1..])
  }

  lemma {:induction false} SplitOfDoubleJoin(texts: seq<string>)
    requires CleanLines(texts) && texts != []
    ensures Split(Join(texts, "\n\n")) == Interleaved(texts)
  {
    assert CleanLine(texts[0]);
    if |texts| == 1 {
      SplitWithoutNewline(texts[0]);
    } else {
      SplitOfDoubleJoin(texts[1..]);
      var rest := Join(texts[1..], "\n\n");
      SplitAtNewline("", rest);
      SplitAtNewline(texts[0], "\n" + rest);
      assert "" + ("\n" + rest) == "\n" + rest;
      assert texts[0] + "\n\n" + rest == texts[0] + ("\n" + ("\n" + rest));
    }
  }

  function Opened(texts: seq<string>): seq<Mark> {
    if texts == [] then [] else [Mark(texts[0], true)] + Opened(texts[1..])
  }

  lemma {:induction false} MarkedInterleaved(texts: seq<string>, width: nat)
    requires CleanLines(texts)
    ensures Marked(Interleaved(texts), width, true) == Opened(texts)
  {
    if texts != [] {
      assert CleanLine(texts[0]) && !IsBlank(texts[0]);
      var rest := Interleaved(texts)[1..];
      if |texts| == 1 {
        assert rest == [] && texts[1..] == [];
      } else {
        MarkedInterleaved(texts[1..], width);
        assert rest[0] == "" && rest[1..] == Interleaved(texts[1..]);
      }
    }
  }

  lemma {:induction false} GroupOpened(texts: seq<string>)
    ensures var g := Group(Opened(texts));
            |g| == |texts| && forall i :: 0 <= i < |g| ==> g[i] == [texts[i]]
  {
    if texts != [] {
      GroupOpened(texts[1..]);
      assert Opened(texts)[1..] == Opened(texts[1..]);
    }
  }

  lemma SingleLineText(t: string)
    requires CleanLine(t)
    ensures ParaText([t]) == t
  {
    assert Stripped([t]) == [t];
    SqueezeKeepsShortRuns(t, ' ', 1, 0);
  }

  lemma ParagraphsOfJoin(texts: seq<string>)
    requires CleanLines(texts) && texts != []
    ensures ParaTexts(Paragraphs(Join(texts, "\n\n"))) == texts
  {
    var x := Join(texts, "\n\n");
    SplitOfDoubleJoin(texts);
    MarkedInterleaved(texts, Width(Split(x)));
    GroupOpened(texts);
    var paras := Paragraphs(x);
    forall i | 0 <= i < |texts| ensures ParaTexts(paras)[i] == texts[i] {
      SingleLineText(texts[i]);
    }
  }

  lemma CleanOfJoin(texts: seq<string>)
    requires CleanLines(texts)
    ensures Clean(Join(texts, "\n\n")) == Join(texts, "\n\n")
  {
    JoinWithoutReturns(texts);
    NewlinesKeep(Join(texts, "\n\n"));
    JoinHasNoWraps(texts);
    RepairKeeps(Join(texts, "\n\n"));
  }

  lemma EmptyText()
    ensures Paragraphs([]) == []
  {
    assert Marked([[]], Width([[]]), true) == [];
  }

  // Reflowing is idempotent on every text.
  lemma ReflowIsIdempotent(text: string)
    ensures Reflowed(Reflowed(text)) == Reflowed(text)
  {
    var texts := ReflowedIsJoin(text);
    CleanOfJoin(texts);
    if texts == [] {
      EmptyText();
    } else {
      ParagraphsOfJoin(texts);
    }
    assert RStrip(Reflowed(text)) == Reflowed(text);
  }

  // On a text without carriage returns and soft hyphens, nothing is repaired first.
  lemma NothingToRepair(text: string)
    requires '\r' !in text && NoWraps(text)
    ensures Clean(text) == text
  {
    NewlinesKeep(text);
    RepairKeeps(text);
  }
}
