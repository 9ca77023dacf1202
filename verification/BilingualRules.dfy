// What the bilingual renderer does with a block, told by its texts.
module BilingualRules {
  // scripts/render_bilingual_subset.py:259-289, 340-343, 547-560, 658-744, 819-883.

  import opened Wrappers
  import opened PyText
  import opened SentenceSearch
  import opened BilingualParagraph
  import R = ReflowLaws
  import V = VisualParagraphs
  import W = WordLaws
  import N = NoteCallouts

  // ----- Collapsed text -----

  lemma {:induction false} CollapseKeepsWords(s: string, inRun: bool)
    ensures Words(Collapse(s, inRun)) == Words(s)
    ensures !inRun && s != [] ==>
              Collapse(s, inRun) != [] && (IsSpace(Collapse(s, inRun)[0]) <==> IsSpace(s[0]))
              && (!IsSpace(s[0]) ==> Collapse(s, inRun)[0] == s[0])
  {
    if s != [] {
      var c, t := s[0], s[1..];
      assert s == [c] + t;
      if IsSpace(c) {
        CollapseKeepsWords(t, true);
        W.WordsOfSpace(c, t);
        W.WordsOfSpace(' ', Collapse(t, true));
      } else {
        CollapseKeepsWords(t, false);
        WordsOfCons(c, t, Collapse(t, false));
      }
    }
  }

  lemma WordsOfCons(c: char, t: string, rest: string)
    requires !IsSpace(c) && Words(t) == Words(rest)
    requires t == [] ==> rest == []
    requires t != [] ==> rest != [] && (IsSpace(rest[0]) <==> IsSpace(t[0]))
    ensures Words([c] + rest) == Words([c] + t)
  {
    if t == [] || IsSpace(t[0]) {
      W.WordStands(c, t);
      W.WordStands(c, rest);
    } else {
      W.WordGrows(c, t);
      W.WordGrows(c, rest);
    }
  }

  // Whitespace is single spaces; `after` says that one stands right before t.
  ghost predicate Singles(t: string, after: bool) {
    t == [] || if IsSpace(t[0]) then t[0] == ' ' && !after && Singles(t[1..], true) else Singles(t[1..], false)
  }

  lemma {:induction false} CollapsedSingles(s: string, inRun: bool)
    ensures Singles(Collapse(s, inRun), inRun)
  {
    if s != [] {
      CollapsedSingles(s[1..], IsSpace(s[0]));
      if !IsSpace(s[0]) {
        assert ([s[0]] + Collapse(s[1..], false))[1..] == Collapse(s[1..], false);
      } else if !inRun {
        assert (" " + Collapse(s[1..], true))[1..] == Collapse(s[1..], true);
      }
    }
  }

  ghost predicate SingleAt(t: string, i: nat) {
    i < |t| && IsSpace(t[i]) ==> t[i] == ' ' && (i > 0 ==> !IsSpace(t[i - 1]))
  }

  lemma {:induction false} SinglesEverywhere(t: string, after: bool, i: nat)
    requires Singles(t, after)
    ensures SingleAt(t, i) && (after && t != [] ==> !IsSpace(t[0]))
  {
    if 0 < i < |t| {
      SinglesEverywhere(t[1..], IsSpace(t[0]), i - 1);
      assert t[i] == t[1..][i - 1];
    }
  }

  // From a word on, a text with single spaces and none at its end is its words, joined.
  lemma {:induction false} WordsJoined(t: string, p: nat)
    requires p < |t| && !IsSpace(t[p]) && !IsSpace(t[|t| - 1])
    requires forall i: nat :: SingleAt(t, i)
    ensures WordsFrom(t, p) != [] && Join(WordsFrom(t, p), " ") == t[p..]
    decreases |t| - p
  {
    var e := WordEnd(t, p + 1);
    if e == |t| {
      LastWord(t, p);
    } else {
      assert SingleAt(t, e) && SingleAt(t, e + 1);
      WordsJoined(t, e + 1);
      MoreWords(t, p, e, WordsFrom(t, e + 1));
    }
  }

  lemma LastWord(t: string, p: nat)
    requires p < |t| && !IsSpace(t[p]) && WordEnd(t, p + 1) == |t|
    ensures WordsFrom(t, p) == [t[p..]]
  {
    assert t[p..|t|] == t[p..];
  }

  lemma MoreWords(t: string, p: nat, e: nat, rest: seq<string>)
    requires p < e < |t| && !IsSpace(t[p]) && WordEnd(t, p + 1) == e && t[e] == ' '
    requires rest == WordsFrom(t, e + 1) && rest != [] && Join(rest, " ") == t[e + 1..]
    ensures WordsFrom(t, p) == [t[p..e]] + rest && Join(WordsFrom(t, p), " ") == t[p..]
  {
    JoinCons(t[p..e], rest, " ");
    assert t[p..] == t[p..e] + " " + t[e + 1..];
  }

  lemma NormalSingles(s: string)
    ensures forall i: nat :: SingleAt(Normal(s), i)
  {
    var c := Collapse(s, false);
    CollapsedSingles(s, false);
    forall i: nat ensures SingleAt(c, i) {
      SinglesEverywhere(c, false, i);
    }
    SinglesOfStrip(c);
  }

  lemma SinglesOfStrip(c: string)
    requires forall i: nat :: SingleAt(c, i)
    ensures forall i: nat :: SingleAt(Strip(c), i)
  {
    var n := LStripIsSlice(c);
    var m := RStripIsSlice(LStrip(c));
    SinglesOfSlice(c, n, n + m, Strip(c));
  }

  lemma SinglesOfSlice(c: string, n: nat, m: nat, t: string)
    requires n <= m <= |c| && t == c[n..m] && forall i: nat :: SingleAt(c, i)
    ensures forall i: nat :: SingleAt(t, i)
  {
    forall i: nat ensures SingleAt(t, i) {
      assert SingleAt(c, n + i);
    }
  }

  lemma NormalKeepsWords(s: string)
    ensures Words(Normal(s)) == Words(s)
  {
    var c := Collapse(s, false);
    CollapseKeepsWords(s, false);
    W.WordsLStrip(c);
    W.WordsRStrip(LStrip(c));
  }

  // Collapsed and stripped, a text is its words with single spaces between them.
  lemma NormalIsWords(s: string)
    ensures Normal(s) == Join(Words(s), " ")
  {
    var t := Normal(s);
    NormalKeepsWords(s);
    NormalSingles(s);
    if t == [] {
      W.WordsOfBlank([]);
    } else {
      StripEnds(Collapse(s, false));
      WordsJoined(t, 0);
      assert t[0..] == t;
    }
  }

  lemma StripEnds(c: string)
    requires Strip(c) != []
    ensures !IsSpace(Strip(c)[0]) && !IsSpace(Strip(c)[|Strip(c)| - 1])
  {
    V.StripTrims(c);
  }

  lemma {:induction false} UnixKeepsWords(s: string)
    ensures Words(Unix(s)) == Words(s)
    ensures s != [] ==> Unix(s) != [] && (IsSpace(Unix(s)[0]) <==> IsSpace(s[0])) && (!IsSpace(s[0]) ==> Unix(s)[0] == s[0])
    decreases |s|
  {
    if s != [] {
      var c, t := s[0], s[1..];
      assert s == [c] + t;
      if |s| >= 2 && c == '\r' && s[1] == '\n' {
        var u := s[2..];
        assert t == ['\n'] + u;
        UnixKeepsWords(u);
        W.WordsOfSpace(c, t);
        W.WordsOfSpace('\n', u);
        W.WordsOfSpace('\n', Unix(u));
      } else {
        UnixKeepsWords(t);
        if IsSpace(c) {
          W.WordsOfSpace(c, t);
          W.WordsOfSpace(c, Unix(t));
        } else {
          WordsOfCons(c, t, Unix(t));
        }
      }
    }
  }

  // Cleaning changes whitespace only.
  lemma CleanKeepsWords(s: string)
    ensures Words(CleanText(s)) == Words(s)
    ensures CleanText(s) == "" <==> IsBlank(s)
  {
    UnixKeepsWords(s);
    W.WordsLStrip(Unix(s));
    W.WordsRStrip(LStrip(Unix(s)));
    NoWordsIff(s);
    NoWordsIff(Unix(s));
  }

  lemma NoWordsIff(s: string)
    ensures Words(s) == [] <==> IsBlank(s)
  {
    if IsBlank(s) {
      W.WordsOfBlank(s);
    } else {
      SomeWord(s, 0);
    }
  }

  lemma {:induction false} SomeWord(s: string, p: nat)
    requires p <= |s| && exists i: nat :: p <= i < |s| && !IsSpace(s[i])
    ensures WordsFrom(s, p) != []
    decreases |s| - p
  {
    if IsSpace(s[p]) {
      SomeWord(s, p + 1);
    }
  }

  // ----- Where a sentence goes -----

  // The first forty characters of the sentence's words, joined.
  function Opening(sentence: string): string {
    var text := Join(Words(sentence), " ");
    if |text| > 40 then text[..40] else text
  }

  // A sentence without words goes nowhere; any other is looked for by its opening.
  lemma EntryIs(sentence: Sentence)
    ensures EntryOf(sentence).Blank? <==> IsBlank(sentence.1)
    ensures EntryOf(sentence).Text? ==>
              && EntryOf(sentence).probe == Opening(sentence.1) && EntryOf(sentence).probe != ""
              && EntryOf(sentence).sentence.0 == sentence.0 && Words(EntryOf(sentence).sentence.1) == Words(sentence.1)
  {
    CleanKeepsWords(sentence.1);
    NormalIsWords(CleanText(sentence.1));
    NoWordsIff(sentence.1);
    if Words(sentence.1) != [] {
      JoinStarts(Words(sentence.1));
    }
  }

  lemma {:induction false} ContainsIff(s: string, p: string)
    ensures Contains(s, p) <==> exists i: nat :: i <= |s| && StartsWith(s[i..], p)
  {
    assert s[0..] == s;
    if s != [] {
      ContainsIff(s[1..], p);
      assert forall i: nat :: i < |s| ==> s[1..][i..] == s[i + 1..];
      if i: nat :| i <= |s| && StartsWith(s[i..], p) && i > 0 {
        assert s[1..][i - 1..] == s[i..];
      }
    }
  }

  // ----- Chinese sentences -----

  // Behind a full stop, exclamation or question mark before other text, or behind such
  // a mark and one closing bracket.
  predicate SentenceEndsAt(t: string, p: nat) {
    || (0 < p < |t| && t[p - 1] in "。！？" && t[p] !in "」』）)" && !IsSpace(t[p]))
    || (1 < p <= |t| && t[p - 2] in "。！？" && t[p - 1] in "」』）)")
  }

  lemma SentenceEndsIff(t: string, p: nat)
    requires p <= |t|
    ensures Boundary(t, p) <==> SentenceEndsAt(t, p)
  {
  }

  // A translation is redistributed exactly if it is the only one, for several
  // sentences, and splits into as many parts.
  lemma RedistributesIff(targets: map<int, string>, sentences: seq<Sentence>, text: string)
    ensures Redistributes(targets, sentences, text) <==>
              && |targets| == 1 && (exists key :: key in targets && targets[key] == text) && |sentences| >= 2
              && |SplitChineseSentences(text)| == |sentences|
  {
    assert SplitChineseSentences("") == [];
    if |targets| == 1 {
      if key: int :| key in targets && targets[key] == text {
        Single(targets, key);
      }
    }
    if key: int :| targets == map[key := text] {
      assert targets.Keys == {key} && |targets.Keys| == 1 && targets[key] == text;
    }
  }

  // ----- Both languages of a paragraph -----

  function EnglishOf(line: N.Line): string {
    match line
    case Callout(_, en, _) => en
    case Passage(en, _) => en
    case Other(_) => ""
  }

  function ChineseOf(line: N.Line): string {
    match line
    case Callout(_, _, zh) => zh
    case Passage(_, zh) => zh
    case Other(_) => ""
  }

  lemma {:induction false} LinesAt(passages: seq<(string, string)>, note: Option<N.Note>, k: nat)
    requires k < |passages|
    ensures |N.LinesOf(passages, note)| == |passages|
    ensures var line := N.LinesOf(passages, note)[k];
            && EnglishOf(line) == passages[k].0 && ChineseOf(line) == passages[k].1
            && (line.Callout? <==> k == 0 && note.Some?) && (line.Callout? ==> line.note == note.value)
  {
    N.LinesCall(passages, note);
    var last := |passages| - 1;
    if k < last {
      LinesAt(passages[..last], note, k);
      N.LinesCall(passages[..last], note);
    } else {
      N.LinesCall(passages[..last], note);
    }
  }

  // The visual paragraphs hold the source's content in order; without a source the
  // normalized text is the only one.
  lemma ChunksAre(b: N.Block)
    ensures b.source != "" ==> R.InkOfLines(N.ChunksOf(b)) == Ink(b.source) && (N.ChunksOf(b) == [] <==> IsBlank(b.source))
    ensures b.source == "" ==> N.ChunksOf(b) == [Join(Words(b.normalized), " ")]
  {
    if b.source == "" {
      CanonicalIs(b);
      CleanKeepsWords(b.normalized);
      NoWordsIff(b.normalized);
    } else {
      V.ParagraphsKeepInk(b.source);
      V.ParagraphsAreTrimmed(b.source);
    }
  }

  // Line k shows in English what its visual paragraph holds of the sentences, or the
  // paragraph itself if it holds none, and in Chinese the translations of these
  // sentences. The first line also shows the note, if one is held.
  lemma ParagraphShows(b: N.Block, note: Option<N.Note>, k: nat)
    requires N.ChunksOf(b) != [] && k < |N.ChunksOf(b)|
    ensures |N.LinesOf(N.Passages(b), note)| == |N.ChunksOf(b)|
    ensures var line, bucket := N.LinesOf(N.Passages(b), note)[k], N.BucketsOf(b)[k];
            && Words(EnglishOf(line)) ==
                 (if bucket == [] then Words(N.ChunksOf(b)[k]) else W.WordsOfLines(N.Texts(bucket)))
            && Ink(ChineseOf(line)) == InkFor(b.targets, bucket)
            && (line.Callout? <==> k == 0 && note.Some?) && (line.Callout? ==> line.note == note.value)
  {
    LinesAt(N.Passages(b), note, k);
    var bucket := N.BucketsOf(b)[k];
    InkOfBlock(b.targets, bucket);
    var parts := if bucket == [] then [N.ChunksOf(b)[k]] else N.Texts(bucket);
    W.WordsLStrip(Join(parts, " "));
    W.WordsRStrip(LStrip(Join(parts, " ")));
    W.WordsOfJoin(parts, " ");
    if bucket == [] {
      assert parts[1..] == [];
    }
  }

  // ----- What a block means to a held note -----

  predicate CountsAsParagraph(b: N.Block) {
    b.kind == "paragraph" || (b.kind == "code" && b.prose) || (b.kind == "heading" && b.brokenItem)
  }

  predicate HasText(b: N.Block) {
    !IsBlank(b.normalized) || !IsBlank(b.source)
  }

  lemma CanonicalIs(b: N.Block)
    ensures N.Canonical(b) == Join(Words(if IsBlank(b.normalized) then b.source else b.normalized), " ")
    ensures N.Canonical(b) == "" <==> !HasText(b)
  {
    CleanKeepsWords(b.normalized);
    CleanKeepsWords(b.source);
    var text := if IsBlank(b.normalized) then b.source else b.normalized;
    NormalIsWords(CleanText(text));
    NoWordsIff(text);
    if Words(text) != [] {
      JoinStarts(Words(text));
    }
  }

  // Nothing comes of a block without text, unless it is a figure; of a page header that
  // counts as a paragraph or is a footnote; and of a label dump.
  lemma FilteredIff(b: N.Block)
    ensures N.Filtered(b) <==>
              || (!HasText(b) && b.kind != "figure" && b.kind != "image")
              || (b.runningHeader && (CountsAsParagraph(b) || b.kind == "footnote"))
              || (b.labelDump && CountsAsParagraph(b))
  {
    CanonicalIs(b);
  }

  // A NOTE heading with text that is not demoted or suppressed is held back; a block
  // that counts as a paragraph, has text and is no page header or label dump takes a
  // held note; nothing else matters to it.
  lemma EventIs(b: N.Block)
    ensures N.EventOf(b).Holds? <==>
              !b.suppressed && b.kind == "heading" && !b.brokenItem && b.noteHeading && HasText(b)
    ensures N.EventOf(b).Paragraph? <==>
              && !b.suppressed && CountsAsParagraph(b) && HasText(b) && !b.runningHeader && !b.labelDump
              && (b.source == "" || !IsBlank(b.source))
  {
    CanonicalIs(b);
  }

  // The held note is the heading's text and the first translation of its sentences
  // that has any text.
  lemma NoteIs(b: N.Block)
    requires N.EventOf(b).Holds?
    ensures var note := N.EventOf(b).note;
            && note.title == Join(Words(if IsBlank(b.normalized) then b.source else b.normalized), " ")
            && (note.zh == "" <==> forall i: nat :: i < |b.sentences| ==> Untranslated(b, i))
            && (note.zh != "" ==> exists i: nat :: FirstTranslated(b, i) && note.zh == Join(Words(b.targets[b.sentences[i].0]), " "))
  {
    CanonicalIs(b);
    forall i: nat | i < |b.sentences| ensures Untranslated(b, i) <==> ZhForSentence(b.targets, b.sentences[i].0) == "" {
      ZhIs(b.targets, b.sentences[i].0);
    }
    var i := FirstZhAt(b.targets, b.sentences);
    if i < |b.sentences| {
      ZhIs(b.targets, b.sentences[i].0);
      assert FirstTranslated(b, i);
    }
  }

  predicate Untranslated(b: N.Block, i: nat)
    requires i < |b.sentences|
  {
    b.sentences[i].0 !in b.targets || IsBlank(b.targets[b.sentences[i].0])
  }

  ghost predicate FirstTranslated(b: N.Block, i: nat) {
    i < |b.sentences| && !Untranslated(b, i) && forall j: nat :: j < i ==> Untranslated(b, j)
  }

  // A sentence's Chinese text is the words of its target, joined.
  lemma ZhIs(targets: map<int, string>, ordinal: int)
    ensures ZhForSentence(targets, ordinal) == if ordinal in targets then Join(Words(targets[ordinal]), " ") else ""
    ensures ZhForSentence(targets, ordinal) == "" <==> ordinal !in targets || IsBlank(targets[ordinal])
  {
    if ordinal in targets {
      var text := targets[ordinal];
      CleanKeepsWords(text);
      NormalIsWords(CleanText(text));
      NoWordsIff(text);
      if Words(text) != [] {
        JoinStarts(Words(text));
      }
    }
  }

  // The search stops at the first sentence with a Chinese text.
  ghost predicate StopsAt(targets: map<int, string>, sentences: seq<Sentence>, i: nat) {
    && i <= |sentences| && (forall j: nat :: j < i ==> ZhForSentence(targets, sentences[j].0) == "")
    && (i < |sentences| ==> ZhForSentence(targets, sentences[i].0) != "")
  }

  lemma {:induction false} FirstZhAt(targets: map<int, string>, sentences: seq<Sentence>) returns (i: nat)
    ensures StopsAt(targets, sentences, i)
    ensures N.FirstZh(targets, sentences) == if i < |sentences| then ZhForSentence(targets, sentences[i].0) else ""
  {
    i := 0;
    if sentences != [] && ZhForSentence(targets, sentences[0].0) == "" {
      var k := FirstZhAt(targets, sentences[1..]);
      i := k + 1;
      StopsLater(targets, sentences, k);
    }
  }

  lemma StopsLater(targets: map<int, string>, sentences: seq<Sentence>, k: nat)
    requires sentences != [] && ZhForSentence(targets, sentences[0].0) == "" && StopsAt(targets, sentences[1..], k)
    ensures StopsAt(targets, sentences, k + 1)
  {
    assert forall j: nat :: 0 < j < |sentences| ==> sentences[j] == sentences[1..][j - 1];
  }
}
