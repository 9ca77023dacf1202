// One paragraph of the bilingual rendering (scripts/render_bilingual_subset.py:340-343, 547-592, 819-883).
module BilingualParagraph {
  // Sentences go to visual paragraphs, and a merged translation goes to sentences.

  import opened PyText
  import R = ReflowLaws
  import V = VisualParagraphs
  import G = GroupingLaws

  // Ordinal and source text.
  type Sentence = (int, string)

  // ----- Cleaning -----

  // value.replace("\r\n", "\n")
  function Unix(s: string): string {
    if s == [] then []
    else if |s| >= 2 && s[0] == '\r' && s[1] == '\n' then "\n" + Unix(s[2..])
    else [s[0]] + Unix(s[1..])
  }

  function CleanText(s: string): string {
    Strip(Unix(s))
  }

  // re.sub(r"\s+", " ", s)
  function Collapse(s: string, inRun: bool): string {
    if s == [] then []
    else if !IsSpace(s[0]) then [s[0]] + Collapse(s[1..], false)
    else if inRun then Collapse(s[1..], true)
    else " " + Collapse(s[1..], true)
  }

  function Normal(s: string): string {
    Strip(Collapse(s, false))
  }

  lemma {:induction false} InkOfUnix(s: string)
    ensures Ink(Unix(s)) == Ink(s)
  {
    if s != [] {
      if |s| >= 2 && s[0] == '\r' && s[1] == '\n' {
        InkOfUnix(s[2..]);
        assert ("\n" + Unix(s[2..]))[1..] == Unix(s[2..]);
        assert s[1..][1..] == s[2..];
      } else {
        InkOfUnix(s[1..]);
        assert ([s[0]] + Unix(s[1..]))[1..] == Unix(s[1..]);
      }
    }
  }

  lemma {:induction false} InkOfCollapse(s: string, inRun: bool)
    ensures Ink(Collapse(s, inRun)) == Ink(s)
  {
    if s != [] {
      InkOfCollapse(s[1..], IsSpace(s[0]));
      InkConcat(" ", Collapse(s[1..], true));
      InkConcat([s[0]], Collapse(s[1..], false));
      assert Ink(" ") == [] by { InkOfBlank(" "); }
    }
  }

  lemma InkOfStrip(s: string)
    ensures Ink(Strip(s)) == Ink(s)
  {
    InkLStrip(s);
    InkRStrip(LStrip(s));
  }

  // ----- Sentences to visual paragraphs -----

  predicate Contains(s: string, p: string) {
    StartsWith(s, p) || (s != [] && Contains(s[1..], p))
  }

  // What the placing of a sentence looks at: its cleaned text and the first forty
  // characters of that in one line.
  datatype Entry = Blank | Text(sentence: Sentence, probe: string)

  function EntryOf(sentence: Sentence): (entry: Entry)
    ensures entry.Text? ==> entry.sentence.0 == sentence.0
  {
    var clean := CleanText(sentence.1);
    var norm := Normal(clean);
    if clean == "" then Blank else Text((sentence.0, clean), if |norm| > 40 then norm[..40] else norm)
  }

  function Entries(sentences: seq<Sentence>): (entries: seq<Entry>)
    ensures |entries| == |sentences|
    ensures forall i: nat :: i < |sentences| ==> entries[i] == EntryOf(sentences[i])
  {
    if sentences == [] then [] else [EntryOf(sentences[0])] + Entries(sentences[1..])
  }

  // The first chunk from idx on that contains the probe; |chunks| if none does.
  function FirstHolding(chunks: seq<string>, probe: string, idx: nat): (k: nat)
    requires idx <= |chunks|
    ensures idx <= k <= |chunks|
    decreases |chunks| - idx
  {
    if idx == |chunks| || Contains(chunks[idx], probe) then idx else FirstHolding(chunks, probe, idx + 1)
  }

  // Where a sentence goes: ahead if it is found there, else where the last one went.
  function Place(chunks: seq<string>, probe: string, cursor: nat): (k: nat)
    requires cursor < |chunks|
    ensures cursor <= k < |chunks|
  {
    if probe != "" && FirstHolding(chunks, probe, cursor) < |chunks| then FirstHolding(chunks, probe, cursor) else cursor
  }

  lemma {:induction false} PlaceIsFirst(chunks: seq<string>, probe: string, cursor: nat, idx: nat)
    requires cursor <= idx < |chunks| && probe != ""
    ensures Place(chunks, probe, cursor) == idx <==>
            if Contains(chunks[idx], probe) then forall m: nat :: cursor <= m < idx ==> !Contains(chunks[m], probe)
            else idx == cursor && forall m: nat :: cursor <= m < |chunks| ==> !Contains(chunks[m], probe)
  {
    FirstHoldingIsFirst(chunks, probe, cursor);
  }

  lemma {:induction false} FirstHoldingIsFirst(chunks: seq<string>, probe: string, idx: nat)
    requires idx <= |chunks|
    ensures var k := FirstHolding(chunks, probe, idx);
            && (k < |chunks| ==> Contains(chunks[k], probe))
            && forall m: nat :: idx <= m < k ==> !Contains(chunks[m], probe)
    decreases |chunks| - idx
  {
    if idx < |chunks| && !Contains(chunks[idx], probe) {
      FirstHoldingIsFirst(chunks, probe, idx + 1);
    }
  }

  // Search forward from the cursor.
  method FindChunk(chunks: seq<string>, probe: string, cursor: nat) returns (k: nat)
    requires cursor < |chunks|
    ensures k == Place(chunks, probe, cursor)
  {
    for idx := cursor to |chunks|
      invariant probe != "" ==> FirstHolding(chunks, probe, idx) == FirstHolding(chunks, probe, cursor)
    {
      if probe != "" && Contains(chunks[idx], probe) {
        return idx;
      }
    }
    k := cursor;
  }

  function CursorAfter(chunks: seq<string>, entries: seq<Entry>): (k: nat)
    requires chunks != []
    ensures k < |chunks|
  {
    if entries == [] then 0
    else
      var cursor := CursorAfter(chunks, entries[..|entries| - 1]);
      var last := entries[|entries| - 1];
      if last.Blank? then cursor else Place(chunks, last.probe, cursor)
  }

  function Buckets(chunks: seq<string>, entries: seq<Entry>): (b: seq<seq<Sentence>>)
    requires chunks != []
    ensures |b| == |chunks|
  {
    if entries == [] then seq(|chunks|, (k: nat) => [])
    else
      var before := Buckets(chunks, entries[..|entries| - 1]);
      var last, k := entries[|entries| - 1], CursorAfter(chunks, entries);
      if last.Blank? then before else before[k := before[k] + [last.sentence]]
  }

  lemma OneMore(chunks: seq<string>, entries: seq<Entry>, entry: Entry)
    requires chunks != []
    ensures var cursor := CursorAfter(chunks, entries);
            var k := if entry.Blank? then cursor else Place(chunks, entry.probe, cursor);
            var before := Buckets(chunks, entries);
            && CursorAfter(chunks, entries + [entry]) == k
            && Buckets(chunks, entries + [entry]) ==
               (if entry.Blank? then before else before[k := before[k] + [entry.sentence]])
  {
    assert (entries + [entry])[..|entries|] == entries;
  }

  method FillBuckets(chunks: seq<string>, entries: seq<Entry>) returns (buckets: seq<seq<Sentence>>)
    requires chunks != []
    ensures buckets == Buckets(chunks, entries)
  {
    buckets := seq(|chunks|, (k: nat) => []);
    var cursor := 0;
    for i := 0 to |entries|
      invariant cursor == CursorAfter(chunks, entries[..i])
      invariant buckets == Buckets(chunks, entries[..i])
    {
      assert entries[..i + 1] == entries[..i] + [entries[i]];
      OneMore(chunks, entries[..i], entries[i]);
      if entries[i].Blank? {
        continue;
      }
      cursor := FindChunk(chunks, entries[i].probe, cursor);
      buckets := buckets[cursor := buckets[cursor] + [entries[i].sentence]];
    }
    assert entries[..|entries|] == entries;
  }

  // The sentences that are not blank, cleaned.
  function NonBlank(entries: seq<Entry>): seq<Sentence> {
    if entries == [] then []
    else
      var before, last := NonBlank(entries[..|entries| - 1]), entries[|entries| - 1];
      if last.Blank? then before else before + [last.sentence]
  }

  // Nothing lies ahead of the cursor.
  ghost predicate ClearAhead(buckets: seq<seq<Sentence>>, cursor: nat) {
    forall k: nat :: cursor < k < |buckets| ==> buckets[k] == []
  }

  lemma {:induction false} NothingAhead(chunks: seq<string>, entries: seq<Entry>)
    requires chunks != []
    ensures ClearAhead(Buckets(chunks, entries), CursorAfter(chunks, entries))
  {
    if entries != [] {
      NothingAhead(chunks, entries[..|entries| - 1]);
    }
  }

  lemma Grows(buckets: seq<seq<Sentence>>, cursor: nat, k: nat, x: Sentence)
    requires ClearAhead(buckets, cursor) && cursor <= k < |buckets|
    ensures G.Concat(buckets[k := buckets[k] + [x]]) == G.Concat(buckets) + [x]
  {
    G.ConcatGrows(buckets, buckets[k := buckets[k] + [x]], k, x);
  }

  // Read bucket by bucket, every sentence that is not blank comes once, in order.
  lemma {:induction false} BucketsKeepSentences(chunks: seq<string>, entries: seq<Entry>)
    requires chunks != []
    ensures G.Concat(Buckets(chunks, entries)) == NonBlank(entries)
  {
    if entries == [] {
      G.ConcatOfEmpty(Buckets(chunks, []));
    } else {
      var before, last := entries[..|entries| - 1], entries[|entries| - 1];
      BucketsKeepSentences(chunks, before);
      NothingAhead(chunks, before);
      if last.Text? {
        Grows(Buckets(chunks, before), CursorAfter(chunks, before), CursorAfter(chunks, entries), last.sentence);
      }
    }
  }

  // ----- A merged translation to sentences -----

  predicate IsTerminator(c: char) {
    c == '\U{3002}' || c == '\U{FF01}' || c == '\U{FF1F}'
  }

  predicate IsCloser(c: char) {
    c == '\U{300D}' || c == '\U{300F}' || c == '\U{FF09}' || c == ')'
  }

  // A sentence ends before position p.
  predicate Boundary(t: string, p: nat)
    requires p <= |t|
  {
    || (p >= 1 && IsTerminator(t[p - 1]) && p < |t| && !IsCloser(t[p]) && !IsSpace(t[p]))
    || (p >= 2 && IsTerminator(t[p - 2]) && IsCloser(t[p - 1]))
  }

  // t from `start` on, cut at every boundary from p on.
  function Pieces(t: string, start: nat, p: nat): (pieces: seq<string>)
    requires start <= p <= |t|
    ensures pieces != []
    decreases |t| - p
  {
    if p == |t| then [t[start..]]
    else if start < p && Boundary(t, p) then [t[start..p]] + Pieces(t, p, p + 1)
    else Pieces(t, start, p + 1)
  }

  function SplitChineseSentences(text: string): seq<string> {
    V.RealLines(Pieces(Strip(text), 0, 0))
  }

  // Where the pieces meet.
  function Cuts(pieces: seq<string>, start: nat): seq<nat> {
    if |pieces| <= 1 then [] else [start + |pieces[0]|] + Cuts(pieces[1..], start + |pieces[0]|)
  }

  // The text is cut at every boundary and nowhere else.
  lemma {:induction false} CutsIff(t: string, start: nat, p: nat, q: nat)
    requires start <= p <= |t|
    ensures q in Cuts(Pieces(t, start, p), start) <==> p <= q < |t| && start < q && Boundary(t, q)
    decreases |t| - p
  {
    if p < |t| {
      if start < p && Boundary(t, p) {
        var pieces := Pieces(t, start, p);
        CutsIff(t, p, p + 1, q);
        assert pieces[1..] == Pieces(t, p, p + 1) && start + |pieces[0]| == p;
        assert Cuts(pieces, start) == [p] + Cuts(pieces[1..], p);
      } else {
        CutsIff(t, start, p + 1, q);
      }
    }
  }

  lemma InkOfCons(line: string, rest: seq<string>)
    ensures R.InkOfLines([line] + rest) == Ink(line) + R.InkOfLines(rest)
  {
    assert ([line] + rest)[1..] == rest;
  }

  lemma CutAt(t: string, start: nat, p: nat)
    requires start <= p <= |t|
    ensures Ink(t[start..]) == Ink(t[start..p]) + Ink(t[p..])
  {
    assert t[start..] == t[start..p] + t[p..];
    InkConcat(t[start..p], t[p..]);
  }

  lemma {:induction false} InkOfPieces(t: string, start: nat, p: nat)
    requires start <= p <= |t|
    ensures R.InkOfLines(Pieces(t, start, p)) == Ink(t[start..])
    decreases |t| - p
  {
    if p == |t| {
      assert [t[start..]][1..] == [];
    } else if start < p && Boundary(t, p) {
      InkOfPieces(t, p, p + 1);
      CutAt(t, start, p);
      InkOfCons(t[start..p], Pieces(t, p, p + 1));
    } else {
      InkOfPieces(t, start, p + 1);
    }
  }

  // Splitting loses nothing.
  lemma SplitKeepsInk(text: string)
    ensures R.InkOfLines(SplitChineseSentences(text)) == Ink(text)
  {
    V.InkOfRealLines(Pieces(Strip(text), 0, 0));
    InkOfPieces(Strip(text), 0, 0);
    assert Strip(text)[0..] == Strip(text);
    InkOfStrip(text);
  }

  // The sentence ordinals with their parts; a repeated ordinal keeps the last one.
  function Assigned(sentences: seq<Sentence>, parts: seq<string>): map<int, string>
    requires |sentences| == |parts|
  {
    if sentences == [] then map[]
    else
      var n := |sentences| - 1;
      Assigned(sentences[..n], parts[..n])[sentences[n].0 := parts[n]]
  }

  // The one merged text that is to be redistributed, if that is called for.
  ghost predicate Redistributes(targets: map<int, string>, sentences: seq<Sentence>, text: string) {
    && (exists key :: targets == map[key := text])
    && |sentences| > 1 && text != "" && |SplitChineseSentences(text)| == |sentences|
  }

  method ExpandMergedTargets(targets: map<int, string>, sentences: seq<Sentence>)
    returns (expanded: map<int, string>)
    ensures forall text :: Redistributes(targets, sentences, text) ==>
              expanded == Assigned(sentences, SplitChineseSentences(text))
    ensures expanded == targets || exists text :: Redistributes(targets, sentences, text)
  {
    if |targets| != 1 || |sentences| <= 1 {
      return targets;
    }
    assert (forall k: int :: k !in targets) ==> targets.Keys == {};
    var key :| key in targets;
    var text := targets[key];
    Single(targets, key);
    var parts := SplitChineseSentences(text);
    if text == "" || |parts| != |sentences| {
      return targets;
    }
    assert Redistributes(targets, sentences, text);
    expanded := map[];
    for i := 0 to |sentences|
      invariant expanded == Assigned(sentences[..i], parts[..i])
    {
      assert sentences[..i + 1][..i] == sentences[..i] && parts[..i + 1][..i] == parts[..i];
      expanded := expanded[sentences[i].0 := parts[i]];
    }
    assert sentences[..|sentences|] == sentences && parts[..|parts|] == parts;
  }

  lemma Single(targets: map<int, string>, key: int)
    requires |targets| == 1 && key in targets
    ensures targets == map[key := targets[key]]
    ensures forall k, text :: targets == map[k := text] ==> text == targets[key]
  {
    assert targets.Keys == {key} by {
      assert |targets.Keys - {key}| == 0;
    }
    forall k, text | targets == map[k := text] ensures text == targets[key] {
      assert key in map[k := text];
    }
  }

  // ----- The Chinese text of a bucket -----

  // Without the removal of the model's own remarks.
  function ZhForSentence(targets: map<int, string>, ordinal: int): string {
    if ordinal in targets && targets[ordinal] != "" then Normal(CleanText(targets[ordinal])) else ""
  }

  function ZhParts(targets: map<int, string>, bucket: seq<Sentence>): seq<string> {
    if bucket == [] then []
    else
      var zh := ZhForSentence(targets, bucket[0].0);
      if zh == "" then ZhParts(targets, bucket[1..]) else [zh] + ZhParts(targets, bucket[1..])
  }

  // "".join(zh_parts).strip()
  function ZhBlock(targets: map<int, string>, bucket: seq<Sentence>): string {
    Strip(Join(ZhParts(targets, bucket), ""))
  }

  // The ink of the targets of these sentences, one after another.
  function InkFor(targets: map<int, string>, bucket: seq<Sentence>): string {
    if bucket == [] then []
    else
      var last := bucket[|bucket| - 1].0;
      InkFor(targets, bucket[..|bucket| - 1]) + (if last in targets then Ink(targets[last]) else [])
  }

  lemma InkOfSentence(targets: map<int, string>, ordinal: int)
    ensures Ink(ZhForSentence(targets, ordinal)) == if ordinal in targets then Ink(targets[ordinal]) else []
  {
    if ordinal in targets {
      InkOfUnix(targets[ordinal]);
      InkOfStrip(Unix(targets[ordinal]));
      InkOfCollapse(CleanText(targets[ordinal]), false);
      InkOfStrip(Collapse(CleanText(targets[ordinal]), false));
    }
  }

  lemma {:induction false} InkForConcat(targets: map<int, string>, a: seq<Sentence>, b: seq<Sentence>)
    ensures InkFor(targets, a + b) == InkFor(targets, a) + InkFor(targets, b)
  {
    if b == [] {
      assert a + b == a;
    } else {
      assert (a + b)[..|a + b| - 1] == a + b[..|b| - 1];
      InkForConcat(targets, a, b[..|b| - 1]);
    }
  }

  lemma InkForOne(targets: map<int, string>, sentence: Sentence)
    ensures InkFor(targets, [sentence]) == if sentence.0 in targets then Ink(targets[sentence.0]) else []
  {
    assert [sentence][..0] == [];
  }

  lemma InkForCons(targets: map<int, string>, first: Sentence, rest: seq<Sentence>)
    ensures InkFor(targets, [first] + rest) == Ink(ZhForSentence(targets, first.0)) + InkFor(targets, rest)
  {
    InkOfSentence(targets, first.0);
    InkForConcat(targets, [first], rest);
    InkForOne(targets, first);
  }

  lemma {:induction false} InkOfParts(targets: map<int, string>, bucket: seq<Sentence>)
    ensures R.InkOfLines(ZhParts(targets, bucket)) == InkFor(targets, bucket)
  {
    if bucket != [] {
      InkOfParts(targets, bucket[1..]);
      InkOfSentence(targets, bucket[0].0);
      InkForCons(targets, bucket[0], bucket[1..]);
      assert bucket == [bucket[0]] + bucket[1..];
    }
  }

  lemma InkOfBlock(targets: map<int, string>, bucket: seq<Sentence>)
    ensures Ink(ZhBlock(targets, bucket)) == InkFor(targets, bucket)
  {
    InkOfStrip(Join(ZhParts(targets, bucket), ""));
    R.InkOfJoin(ZhParts(targets, bucket), "");
    InkOfParts(targets, bucket);
  }

  function ZhBlocks(targets: map<int, string>, buckets: seq<seq<Sentence>>): seq<string> {
    seq(|buckets|, (k: nat) requires k < |buckets| => ZhBlock(targets, buckets[k]))
  }

  lemma OneBlock(targets: map<int, string>, front: seq<seq<Sentence>>, last: seq<Sentence>)
    ensures R.InkOfLines(ZhBlocks(targets, front + [last]))
         == R.InkOfLines(ZhBlocks(targets, front)) + InkFor(targets, last)
  {
    var before, block := ZhBlocks(targets, front), ZhBlock(targets, last);
    assert ZhBlocks(targets, front + [last]) == before + [block];
    assert R.InkOfLines(before + [block]) == R.InkOfLines(before) + Ink(block) by {
      R.InkOfSnoc(before, block);
    }
    InkOfBlock(targets, last);
  }

  lemma {:induction false} InkOfBlocks(targets: map<int, string>, buckets: seq<seq<Sentence>>)
    ensures R.InkOfLines(ZhBlocks(targets, buckets)) == InkFor(targets, G.Concat(buckets))
  {
    if buckets != [] {
      var front, last := buckets[..|buckets| - 1], buckets[|buckets| - 1];
      InkOfBlocks(targets, front);
      assert buckets == front + [last];
      OneBlock(targets, front, last);
      InkForConcat(targets, G.Concat(front), last);
    }
  }

  ghost predicate DistinctOrdinals(sentences: seq<Sentence>) {
    forall i: nat, j: nat :: i < j < |sentences| ==> sentences[i].0 != sentences[j].0
  }

  lemma {:induction false} AssignedAt(sentences: seq<Sentence>, parts: seq<string>, i: nat)
    requires |sentences| == |parts| && DistinctOrdinals(sentences) && i < |sentences|
    ensures sentences[i].0 in Assigned(sentences, parts)
    ensures Assigned(sentences, parts)[sentences[i].0] == parts[i]
  {
    var n := |sentences| - 1;
    if i < n {
      AssignedAt(sentences[..n], parts[..n], i);
    }
  }

  lemma InkForSnoc(targets: map<int, string>, kept: seq<Sentence>, last: Sentence)
    requires last.0 in targets
    ensures InkFor(targets, kept + [last]) == InkFor(targets, kept) + Ink(targets[last.0])
  {
    assert (kept + [last])[..|kept|] == kept;
  }

  lemma AssignedStep(targets: map<int, string>, kept: seq<Sentence>, parts: seq<string>, last: Sentence, part: string)
    requires InkFor(targets, kept) == R.InkOfLines(parts)
    requires last.0 in targets && targets[last.0] == part
    ensures InkFor(targets, kept + [last]) == R.InkOfLines(parts + [part])
  {
    R.InkOfSnoc(parts, part);
    InkForSnoc(targets, kept, last);
  }

  ghost predicate HasPart(targets: map<int, string>, sentence: Sentence, part: string) {
    sentence.0 in targets && targets[sentence.0] == part && Ink(part) != []
  }

  ghost predicate HaveParts(targets: map<int, string>, sentences: seq<Sentence>, parts: seq<string>) {
    |sentences| == |parts| && forall i: nat :: i < |sentences| ==> HasPart(targets, sentences[i], parts[i])
  }

  lemma PartsOfFront(targets: map<int, string>, front: seq<Sentence>, parts: seq<string>, last: Sentence, part: string)
    requires HaveParts(targets, front + [last], parts + [part])
    ensures HaveParts(targets, front, parts) && HasPart(targets, last, part)
  {
    var all, every := front + [last], parts + [part];
    assert all[|front|] == last && every[|parts|] == part;
    assert forall i: nat :: i < |front| ==> all[i] == front[i] && every[i] == parts[i];
  }

  // Read back in order, assigned parts are the parts.
  lemma {:induction false} AssignedInk(targets: map<int, string>, kept: seq<Sentence>, parts: seq<string>)
    requires HaveParts(targets, kept, parts)
    ensures InkFor(targets, kept) == R.InkOfLines(parts)
    decreases |kept|
  {
    var n := |kept| - 1;
    if n >= 0 {
      assert kept == kept[..n] + [kept[n]] && parts == parts[..n] + [parts[n]];
      PartsOfFront(targets, kept[..n], parts[..n], kept[n], parts[n]);
      AssignedInk(targets, kept[..n], parts[..n]);
      AssignedStep(targets, kept[..n], parts[..n], kept[n], parts[n]);
    }
  }

  // Without blank sentences all of them are kept.
  lemma {:induction false} AllAreKept(entries: seq<Entry>)
    requires forall i: nat :: i < |entries| ==> entries[i].Text?
    ensures |NonBlank(entries)| == |entries|
    ensures forall i: nat :: i < |entries| ==> NonBlank(entries)[i] == entries[i].sentence
  {
    if entries != [] {
      AllAreKept(entries[..|entries| - 1]);
    }
  }

  lemma KeptOrdinals(sentences: seq<Sentence>)
    requires forall i: nat :: i < |sentences| ==> EntryOf(sentences[i]).Text?
    ensures var kept := NonBlank(Entries(sentences));
            |kept| == |sentences| && forall i: nat :: i < |sentences| ==> kept[i].0 == sentences[i].0
  {
    AllAreKept(Entries(sentences));
  }

  lemma AssignedParts(sentences: seq<Sentence>, parts: seq<string>, kept: seq<Sentence>)
    requires |kept| == |sentences| == |parts| && DistinctOrdinals(sentences)
    requires forall i: nat :: i < |kept| ==> kept[i].0 == sentences[i].0
    requires forall i: nat :: i < |parts| ==> Ink(parts[i]) != []
    ensures HaveParts(Assigned(sentences, parts), kept, parts)
  {
    forall i: nat | i < |kept| ensures HasPart(Assigned(sentences, parts), kept[i], parts[i]) {
      AssignedAt(sentences, parts, i);
    }
  }

  lemma InkOfTrimmed(s: string)
    requires V.IsTrimmed(s)
    ensures Ink(s) != []
  {
  }

  lemma EntriesSnoc(front: seq<Sentence>, last: Sentence)
    ensures Entries(front + [last]) == Entries(front) + [EntryOf(last)]
  {
    assert forall i: nat :: i < |front| ==> (front + [last])[i] == front[i];
  }

  lemma NonBlankSnoc(entries: seq<Entry>, last: Entry)
    ensures NonBlank(entries + [last]) == if last.Blank? then NonBlank(entries) else NonBlank(entries) + [last.sentence]
  {
    assert (entries + [last])[..|entries|] == entries;
  }

  ghost predicate NoneBlank(sentences: seq<Sentence>) {
    forall i: nat :: i < |sentences| ==> EntryOf(sentences[i]).Text?
  }

  // What the sentences that are not blank show of the parts.
  ghost predicate Shows(targets: map<int, string>, sentences: seq<Sentence>, parts: seq<string>) {
    var n := |InkFor(targets, NonBlank(Entries(sentences)))|;
    n <= |R.InkOfLines(parts)| && (n == |R.InkOfLines(parts)| <==> NoneBlank(sentences))
  }

  lemma ShowsStep(targets: map<int, string>, front: seq<Sentence>, parts: seq<string>, last: Sentence, part: string)
    requires Shows(targets, front, parts)
    requires HasPart(targets, last, part)
    ensures Shows(targets, front + [last], parts + [part])
  {
    var entries, entry := Entries(front), EntryOf(last);
    EntriesSnoc(front, last);
    NonBlankSnoc(entries, entry);
    R.InkOfSnoc(parts, part);
    if entry.Text? {
      InkForSnoc(targets, NonBlank(entries), entry.sentence);
    }
    NoneBlankSnoc(front, last);
  }

  lemma NoneBlankSnoc(front: seq<Sentence>, last: Sentence)
    ensures NoneBlank(front + [last]) <==> NoneBlank(front) && EntryOf(last).Text?
  {
    var all := front + [last];
    assert all[|front|] == last;
    assert forall i: nat :: i < |front| ==> all[i] == front[i];
  }

  lemma NothingToShow(targets: map<int, string>)
    ensures Shows(targets, [], [])
  {
  }

  // A blank sentence takes its part with it.
  lemma {:induction false} OnlyBlanksLose(targets: map<int, string>, sentences: seq<Sentence>, parts: seq<string>)
    requires HaveParts(targets, sentences, parts)
    ensures Shows(targets, sentences, parts)
    decreases |sentences|
  {
    var n := |sentences| - 1;
    if n < 0 {
      NothingToShow(targets);
    } else {
      assert sentences == sentences[..n] + [sentences[n]] && parts == parts[..n] + [parts[n]];
      PartsOfFront(targets, sentences[..n], parts[..n], sentences[n], parts[n]);
      OnlyBlanksLose(targets, sentences[..n], parts[..n]);
      ShowsStep(targets, sentences[..n], parts[..n], sentences[n], parts[n]);
    }
  }

  lemma PartsHaveInk(text: string)
    ensures forall i: nat :: i < |SplitChineseSentences(text)| ==> Ink(SplitChineseSentences(text)[i]) != []
  {
    var pieces := Pieces(Strip(text), 0, 0);
    V.RealLinesAreInk(pieces);
    forall i: nat | i < |V.RealLines(pieces)| ensures Ink(V.RealLines(pieces)[i]) != [] {
      InkOfTrimmed(V.RealLines(pieces)[i]);
    }
  }

  // A merged translation that is redistributed comes out whole and in order, however
  // the sentences fall into visual paragraphs, if and only if none of them is blank.
  lemma MergedTextIsKeptIff(chunks: seq<string>, sentences: seq<Sentence>, text: string)
    requires chunks != [] && DistinctOrdinals(sentences)
    requires |SplitChineseSentences(text)| == |sentences|
    ensures var targets := Assigned(sentences, SplitChineseSentences(text));
            R.InkOfLines(ZhBlocks(targets, Buckets(chunks, Entries(sentences)))) == Ink(text) <==> NoneBlank(sentences)
  {
    var parts, entries := SplitChineseSentences(text), Entries(sentences);
    var targets := Assigned(sentences, parts);
    SplitKeepsInk(text);
    BucketsKeepSentences(chunks, entries);
    InkOfBlocks(targets, Buckets(chunks, entries));
    PartsHaveInk(text);
    if NoneBlank(sentences) {
      KeptOrdinals(sentences);
      AssignedParts(sentences, parts, NonBlank(entries));
      AssignedInk(targets, NonBlank(entries), parts);
    } else {
      AssignedParts(sentences, parts, sentences);
      OnlyBlanksLose(targets, sentences, parts);
    }
  }
}
