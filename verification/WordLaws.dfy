// Reflowing splits no word and joins no two.
module WordLaws {
  // scripts/export_chapter_zh_html.py:2204-2273; and what the repair before it does
  // (2226-2230).

  import opened PyText
  import opened Reflow
  import opened ReflowLaws
  import opened SentenceSearch

  // ----- Words of concatenations -----

  lemma {:induction false} EndShifts(a: string, b: string, q: nat)
    requires q <= |b|
    ensures WordEnd(a + b, |a| + q) == |a| + WordEnd(b, q)
    decreases |b| - q
  {
    if q < |b| && !IsSpace(b[q]) {
      assert (a + b)[|a| + q] == b[q];
      EndShifts(a, b, q + 1);
    }
  }

  lemma {:induction false} WordsShift(s: string, a: string, b: string, q: nat)
    requires s == a + b && q <= |b|
    ensures WordsFrom(s, |a| + q) == WordsFrom(b, q)
    decreases |b| - q
  {
    if q < |b| {
      assert s[|a| + q] == b[q];
      if IsSpace(b[q]) {
        WordsShift(s, a, b, q + 1);
      } else {
        EndShifts(a, b, q + 1);
        WordsShift(s, a, b, WordEnd(b, q + 1));
        OneWordShifts(s, a, b, q, WordEnd(b, q + 1));
      }
    }
  }

  lemma OneWordShifts(s: string, a: string, b: string, q: nat, e: nat)
    requires s == a + b && q < e <= |b| && !IsSpace(b[q]) && WordEnd(b, q + 1) == e && WordEnd(s, |a| + q + 1) == |a| + e
    requires WordsFrom(s, |a| + e) == WordsFrom(b, e)
    ensures WordsFrom(s, |a| + q) == WordsFrom(b, q)
  {
    assert s[|a| + q..|a| + e] == b[q..e];
  }

  // No word reaches from a into b.
  predicate Parts(a: string, b: string) {
    a == [] || b == [] || IsSpace(a[|a| - 1]) || IsSpace(b[0])
  }

  lemma {:induction false} EndStays(a: string, b: string, p: nat)
    requires Parts(a, b) && 0 < p <= |a| && !IsSpace(a[p - 1])
    ensures WordEnd(a + b, p) == WordEnd(a, p)
    decreases |a| - p
  {
    if p < |a| {
      assert (a + b)[p] == a[p];
      if !IsSpace(a[p]) {
        EndStays(a, b, p + 1);
      }
    } else if b != [] {
      assert (a + b)[p] == b[0];
    }
  }

  lemma {:induction false} WordsPass(s: string, a: string, b: string, p: nat)
    requires s == a + b && Parts(a, b) && p <= |a|
    ensures WordsFrom(s, p) == WordsFrom(a, p) + Words(b)
    decreases |a| - p
  {
    if p == |a| {
      WordsShift(s, a, b, 0);
    } else if IsSpace(a[p]) {
      WordsPass(s, a, b, p + 1);
    } else {
      var e := WordEnd(a, p + 1);
      EndStays(a, b, p + 1);
      WordsPass(s, a, b, e);
      OneWordPasses(s, a, b, p, e);
    }
  }

  lemma OneWordPasses(s: string, a: string, b: string, p: nat, e: nat)
    requires s == a + b && p < e <= |a| && !IsSpace(a[p]) && WordEnd(a, p + 1) == e == WordEnd(s, p + 1)
    requires WordsFrom(s, e) == WordsFrom(a, e) + Words(b)
    ensures WordsFrom(s, p) == WordsFrom(a, p) + Words(b)
  {
    assert s[p..e] == a[p..e];
    assert [a[p..e]] + (WordsFrom(a, e) + Words(b)) == ([a[p..e]] + WordsFrom(a, e)) + Words(b);
  }

  lemma WordsConcat(a: string, b: string)
    requires Parts(a, b)
    ensures Words(a + b) == Words(a) + Words(b)
  {
    WordsPass(a + b, a, b, 0);
  }

  lemma {:induction false} BlankFrom(s: string, p: nat)
    requires IsBlank(s) && p <= |s|
    ensures WordsFrom(s, p) == []
    decreases |s| - p
  {
    if p < |s| {
      BlankFrom(s, p + 1);
    }
  }

  lemma WordsOfBlank(s: string)
    requires IsBlank(s)
    ensures Words(s) == []
  {
    BlankFrom(s, 0);
  }

  lemma WordsLStrip(s: string)
    ensures Words(LStrip(s)) == Words(s)
  {
    var n := LStripIsSlice(s);
    assert s == s[..n] + s[n..];
    WordsConcat(s[..n], s[n..]);
    WordsOfBlank(s[..n]);
  }

  lemma WordsRStrip(s: string)
    ensures Words(RStrip(s)) == Words(s)
  {
    var n := RStripIsSlice(s);
    assert s == s[..n] + s[n..];
    assert IsBlank(s[n..]);
    WordsConcat(s[..n], s[n..]);
    WordsOfBlank(s[n..]);
  }

  // ----- Words of one more character -----

  lemma WordsOfSpace(c: char, t: string)
    requires IsSpace(c)
    ensures Words([c] + t) == Words(t)
  {
    WordsConcat([c], t);
    WordsOfBlank([c]);
  }

  // A text begins with a word exactly if its first character is no space.
  lemma BeginsWithWord(t: string)
    requires t != [] && !IsSpace(t[0])
    ensures Words(t) == [t[..WordEnd(t, 1)]] + WordsFrom(t, WordEnd(t, 1))
  {
  }

  lemma WordGrows(c: char, t: string)
    requires !IsSpace(c) && t != [] && !IsSpace(t[0])
    ensures Words(t) != [] && Words([c] + t) == [[c] + Words(t)[0]] + Words(t)[1..]
  {
    var e := WordEnd(t, 1);
    BeginsWithWord(t);
    EndShifts([c], t, 0);
    assert WordEnd(t, 0) == e;
    WordsShift([c] + t, [c], t, e);
    assert ([c] + t)[..1 + e] == [c] + t[..e];
    BeginsWithWord([c] + t);
  }

  lemma WordStands(c: char, t: string)
    requires !IsSpace(c) && (t == [] || IsSpace(t[0]))
    ensures Words([c] + t) == [[c]] + Words(t)
  {
    WordsConcat([c], t);
    assert [c][0..WordEnd([c], 1)] == [c] && WordsFrom([c], 1) == [];
    assert Words([c]) == [[c]];
  }

  // ----- Collapsing spaces -----

  lemma {:induction false} SqueezeKeepsWords(s: string, run: nat)
    ensures Words(SqueezeFrom(s, ' ', 1, run)) == Words(s)
    ensures run == 0 && s != [] ==> SqueezeFrom(s, ' ', 1, run) != [] && SqueezeFrom(s, ' ', 1, run)[0] == s[0]
    ensures s == [] ==> SqueezeFrom(s, ' ', 1, run) == []
  {
    if s != [] {
      var c, t := s[0], s[1..];
      assert s == [c] + t;
      if c != ' ' {
        var rest := SqueezeFrom(t, ' ', 1, 0);
        SqueezeKeepsWords(t, 0);
        SameWordsCons(c, t, rest);
      } else {
        var rest := SqueezeFrom(t, ' ', 1, run + 1);
        SqueezeKeepsWords(t, run + 1);
        WordsOfSpace(c, t);
        WordsOfSpace(c, rest);
        assert [] + rest == rest;
      }
    }
  }

  lemma SameWordsCons(c: char, t: string, rest: string)
    requires Words(t) == Words(rest) && (t == [] ==> rest == []) && (t != [] ==> rest != [] && rest[0] == t[0])
    ensures Words([c] + rest) == Words([c] + t)
  {
    if IsSpace(c) {
      WordsOfSpace(c, t);
      WordsOfSpace(c, rest);
    } else if t == [] || IsSpace(t[0]) {
      WordStands(c, t);
      WordStands(c, rest);
    } else {
      WordGrows(c, t);
      WordGrows(c, rest);
    }
  }

  // ----- Words of lines -----

  function WordsOfLines(lines: seq<string>): seq<string> {
    if lines == [] then [] else Words(lines[0]) + WordsOfLines(lines[1..])
  }

  lemma {:induction false} WordsOfLinesConcat(a: seq<string>, b: seq<string>)
    ensures WordsOfLines(a + b) == WordsOfLines(a) + WordsOfLines(b)
  {
    if a == [] {
      assert a + b == b;
    } else {
      assert (a + b)[1..] == a[1..] + b;
      WordsOfLinesConcat(a[1..], b);
    }
  }

  lemma {:induction false} WordsOfJoin(lines: seq<string>, sep: string)
    requires sep != [] && IsBlank(sep)
    ensures Words(Join(lines, sep)) == WordsOfLines(lines)
  {
    if |lines| == 1 {
      assert WordsOfLines(lines[1..]) == [];
    } else if |lines| > 1 {
      WordsOfJoin(lines[1..], sep);
      WordsConcat(lines[0] + sep, Join(lines[1..], sep));
      WordsConcat(lines[0], sep);
      WordsOfBlank(sep);
    }
  }

  lemma {:induction false} WordsOfStripped(lines: seq<string>)
    ensures WordsOfLines(Stripped(lines)) == WordsOfLines(lines)
  {
    if lines != [] {
      WordsLStrip(lines[0]);
      WordsOfStripped(lines[1..]);
      assert Stripped(lines)[1..] == Stripped(lines[1..]);
    }
  }

  lemma WordsOfPara(lines: seq<string>)
    ensures Words(ParaText(lines)) == WordsOfLines(lines)
  {
    SqueezeKeepsWords(Join(Stripped(lines), " "), 0);
    WordsOfJoin(Stripped(lines), " ");
    WordsOfStripped(lines);
  }

  lemma {:induction false} WordsOfParas(paras: seq<seq<string>>)
    ensures WordsOfLines(ParaTexts(paras)) == WordsOfLines(Flatten(paras))
  {
    if paras != [] {
      WordsOfPara(paras[0]);
      WordsOfParas(paras[1..]);
      assert ParaTexts(paras)[1..] == ParaTexts(paras[1..]);
      WordsOfLinesConcat(paras[0], Flatten(paras[1..]));
    }
  }

  lemma {:induction false} MarkedKeepsWords(lines: seq<string>, width: nat, ended: bool)
    ensures WordsOfLines(LinesOf(Marked(lines, width, ended))) == WordsOfLines(lines)
  {
    if lines != [] {
      MarkedKeepsWords(lines[1..], width, Breaks(lines[0], width));
      if IsBlank(lines[0]) {
        WordsOfBlank(lines[0]);
      } else {
        var rest := Marked(lines[1..], width, ShortEnd(lines[0], width));
        assert ([Mark(lines[0], ended)] + rest)[1..] == rest;
      }
    }
  }

  lemma WordsOfTextOf(paras: seq<seq<string>>)
    ensures Words(TextOf(paras)) == WordsOfLines(Flatten(paras))
  {
    WordsRStrip(Join(ParaTexts(paras), "\n\n"));
    WordsOfJoin(ParaTexts(paras), "\n\n");
    WordsOfParas(paras);
  }

  lemma WordsOfSplit(u: string)
    ensures Words(u) == WordsOfLines(Split(u))
  {
    WordsOfJoin(Split(u), "\n");
    SplitJoin(u);
  }

  lemma WordsOfText(u: string)
    ensures Words(TextOf(Paragraphs(u))) == Words(u)
  {
    var lines := Split(u);
    WordsOfSplit(u);
    WordsOfTextOf(Paragraphs(u));
    GroupKeepsLines(Marked(lines, Width(lines), true));
    MarkedKeepsWords(lines, Width(lines), true);
  }

  // The words of the repaired input come out one by one, none split and none joined.
  lemma ReflowKeepsWords(text: string)
    ensures Words(Reflowed(text)) == Words(Clean(text))
  {
    WordsOfText(Clean(text));
  }

  // ----- What the repair does -----

  // A lower-case letter, a hyphen, a line break, a lower-case letter.
  predicate SoftHyphenAt(s: string, i: nat) {
    i + 3 < |s| && 'a' <= s[i] <= 'z' && s[i + 1] == '-' && s[i + 2] == '\n' && 'a' <= s[i + 3] <= 'z'
  }

  // Hyphen and line break go, and the search goes on behind the second letter.
  lemma {:induction false} FirstSoftHyphen(s: string, i: nat)
    requires SoftHyphenAt(s, i) && forall j: nat :: j < i ==> !SoftHyphenAt(s, j)
    ensures RepairWraps(s) == s[..i + 1] + [s[i + 3]] + RepairWraps(s[i + 4..])
  {
    if i > 0 {
      assert !SoftHyphenAt(s, 0);
      var t := s[1..];
      forall j: nat | j < i - 1 ensures !SoftHyphenAt(t, j) {
        assert !SoftHyphenAt(s, j + 1);
      }
      FirstSoftHyphen(t, i - 1);
      assert t[i - 1 + 4..] == s[i + 4..];
      assert [s[0]] + t[..i] == s[..i + 1];
      assert [s[0]] + (t[..i] + [s[i + 3]] + RepairWraps(s[i + 4..])) == s[..i + 1] + [s[i + 3]] + RepairWraps(s[i + 4..]);
    }
  }

  lemma {:induction false} NoSoftHyphen(s: string)
    requires forall j: nat :: !SoftHyphenAt(s, j)
    ensures RepairWraps(s) == s
  {
    if s != [] {
      assert !SoftHyphenAt(s, 0);
      forall j: nat ensures !SoftHyphenAt(s[1..], j) {
        assert !SoftHyphenAt(s, j + 1);
      }
      NoSoftHyphen(s[1..]);
    }
  }

  // Where the line break that a carriage return at i belongs to ends.
  function BreakEnd(s: string, i: nat): nat {
    if i + 1 < |s| && s[i + 1] == '\n' then i + 2 else i + 1
  }

  // A carriage return becomes a line feed, together with one behind it.
  lemma {:induction false} FirstReturn(s: string, i: nat)
    requires i < |s| && s[i] == '\r' && forall j :: 0 <= j < i ==> s[j] != '\r'
    ensures Newlines(s) == s[..i] + "\n" + Newlines(s[BreakEnd(s, i)..])
  {
    if i > 0 {
      var t := s[1..];
      FirstReturn(t, i - 1);
      assert BreakEnd(t, i - 1) + 1 == BreakEnd(s, i);
      assert t[BreakEnd(t, i - 1)..] == s[BreakEnd(s, i)..];
      OneMoreBefore(s, t, i, Newlines(s[BreakEnd(s, i)..]));
    }
  }

  lemma OneMoreBefore(s: string, t: string, i: nat, rest: string)
    requires 0 < i < |s| && t == s[1..] && s[0] != '\r'
    requires Newlines(t) == t[..i - 1] + "\n" + rest
    ensures Newlines(s) == s[..i] + "\n" + rest
  {
    assert [s[0]] + t[..i - 1] == s[..i];
    assert [s[0]] + (t[..i - 1] + "\n" + rest) == s[..i] + "\n" + rest;
  }
}
