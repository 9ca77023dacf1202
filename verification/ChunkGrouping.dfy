// Translated chunks by source paragraph (scripts/export_chapter_zh_html.py:965-1056,
// 1088-1096).
module ChunkGrouping {
  import opened Wrappers
  import opened SentenceSearch

  // The first live target of a sentence. `stub` stands for the placeholder test,
  // `chunk` is the text without typesetting codes.
  datatype Target = Target(id: int, text: string, ordinal: int, stub: bool, chunk: string)

  datatype Sentence = Sentence(source: string, target: Option<Target>)

  datatype Block = Block(raw: string, breaks: seq<nat>, sentences: seq<Sentence>)

  // ----- Paragraphs -----

  // The last break at or before the offset; 0 if there is none.
  function LastAtMost(offset: nat, breaks: seq<nat>): (idx: nat)
    ensures breaks != [] ==> idx < |breaks|
  {
    if breaks == [] then 0
    else if offset >= breaks[|breaks| - 1] then |breaks| - 1
    else LastAtMost(offset, breaks[..|breaks| - 1])
  }

  method ParagraphIndexForOffset(offset: nat, breaks: seq<nat>) returns (idx: nat)
    ensures idx == LastAtMost(offset, breaks)
  {
    idx := 0;
    for i := 0 to |breaks|
      invariant idx == LastAtMost(offset, breaks[..i])
    {
      assert breaks[..i + 1][..i] == breaks[..i];
      if offset >= breaks[i] {
        idx := i;
      }
    }
    assert breaks[..|breaks|] == breaks;
  }

  // sorted(set(...)), with the 0 that is always there.
  ghost predicate Breaks(breaks: seq<nat>) {
    breaks != [] && breaks[0] == 0 && forall i: nat, j: nat :: i < j < |breaks| ==> breaks[i] < breaks[j]
  }

  // The offset lies in its paragraph and in no other.
  lemma {:induction false} ParagraphEncloses(offset: nat, breaks: seq<nat>, k: nat)
    requires Breaks(breaks) && k < |breaks|
    ensures LastAtMost(offset, breaks) == k <==>
            breaks[k] <= offset && (k + 1 < |breaks| ==> offset < breaks[k + 1])
  {
    var last := |breaks| - 1;
    if offset < breaks[last] {
      var front := breaks[..last];
      if k < last {
        ParagraphEncloses(offset, front, k);
      }
    }
  }

  lemma {:induction false} ParagraphsAscend(offset: nat, later: nat, breaks: seq<nat>)
    requires offset <= later
    ensures LastAtMost(offset, breaks) <= LastAtMost(later, breaks)
  {
    if breaks != [] && later < breaks[|breaks| - 1] {
      ParagraphsAscend(offset, later, breaks[..|breaks| - 1]);
    }
  }

  // The search cursor before sentence n.
  function Cursor(b: Block, n: nat): nat
    requires n <= |b.sentences|
  {
    if n == 0 then 0
    else
      var found := FindSentence(b.sentences[n - 1].source, b.raw, Cursor(b, n - 1));
      if found >= 0 then found + 1 else Cursor(b, n - 1)
  }

  function OffsetOf(b: Block, i: nat): nat
    requires i < |b.sentences|
  {
    var found := FindSentence(b.sentences[i].source, b.raw, Cursor(b, i));
    if found >= 0 then found else Cursor(b, i)
  }

  function Para(b: Block, i: nat): nat
    requires i < |b.sentences|
  {
    LastAtMost(OffsetOf(b, i), b.breaks)
  }

  lemma CursorMoves(b: Block, i: nat)
    requires i < |b.sentences|
    ensures Cursor(b, i) <= OffsetOf(b, i) <= Cursor(b, i + 1)
  {
    if FindSentence(b.sentences[i].source, b.raw, Cursor(b, i)) >= 0 {
      FoundIsOccurrence(b.sentences[i].source, b.raw, Cursor(b, i));
    }
  }

  lemma {:induction false} OffsetsAscend(b: Block, i: nat, j: nat)
    requires i <= j < |b.sentences|
    ensures OffsetOf(b, i) <= OffsetOf(b, j)
    decreases j
  {
    if i < j {
      assert OffsetOf(b, j - 1) <= Cursor(b, j) by { CursorMoves(b, j - 1); }
      assert Cursor(b, j) <= OffsetOf(b, j) by { CursorMoves(b, j); }
      OffsetsAscend(b, i, j - 1);
    }
  }

  // The cursor only moves forward, so later sentences never go to earlier paragraphs.
  lemma ParasAscend(b: Block, i: nat, j: nat)
    requires i <= j < |b.sentences|
    ensures Para(b, i) <= Para(b, j)
  {
    OffsetsAscend(b, i, j);
    ParagraphsAscend(OffsetOf(b, i), OffsetOf(b, j), b.breaks);
  }

  // ----- What becomes of a sentence -----

  datatype Fate = Missing | Duplicate | Stub | Kept

  predicate HasText(s: Sentence) {
    s.target.Some? && s.target.value.text != ""
  }

  // The targets seen before sentence n.
  function Seen(b: Block, n: nat): set<int>
    requires n <= |b.sentences|
  {
    if n == 0 then {}
    else Seen(b, n - 1) + (if HasText(b.sentences[n - 1]) then {b.sentences[n - 1].target.value.id} else {})
  }

  function FateOf(b: Block, i: nat): Fate
    requires i < |b.sentences|
  {
    var s := b.sentences[i];
    if !HasText(s) then Missing
    else if s.target.value.id in Seen(b, i) then Duplicate
    else if s.target.value.stub then Stub
    else Kept
  }

  // The sources reported as untranslated.
  function UntranslatedBelow(b: Block, n: nat): seq<string>
    requires n <= |b.sentences|
  {
    if n == 0 then []
    else if FateOf(b, n - 1).Missing? || FateOf(b, n - 1).Stub? then
      UntranslatedBelow(b, n - 1) + [b.sentences[n - 1].source]
    else UntranslatedBelow(b, n - 1)
  }

  // ----- Buckets -----

  // A kept sentence files its chunk under a paragraph.
  datatype Verdict = Dropped | Shown(para: nat, ordinal: int, chunk: string)

  function VerdictOf(b: Block, i: nat): Verdict
    requires i < |b.sentences|
  {
    if FateOf(b, i).Kept?
    then Shown(Para(b, i), b.sentences[i].target.value.ordinal, b.sentences[i].target.value.chunk)
    else Dropped
  }

  function Verdicts(b: Block, n: nat): (v: seq<Verdict>)
    requires n <= |b.sentences|
    ensures |v| == n
    ensures forall i: nat :: i < n ==> v[i] == VerdictOf(b, i)
  {
    if n == 0 then [] else Verdicts(b, n - 1) + [VerdictOf(b, n - 1)]
  }

  predicate In(v: seq<Verdict>, i: nat, k: nat) {
    i < |v| && v[i].Shown? && v[i].para == k
  }

  // The kept sentences, in order.
  function KeptIn(v: seq<Verdict>): seq<nat> {
    if v == [] then []
    else
      var last := |v| - 1;
      if v[last].Shown? then KeptIn(v[..last]) + [last] else KeptIn(v[..last])
  }

  // The kept sentences of paragraph k, in order.
  function Bucket(v: seq<Verdict>, k: nat): seq<nat> {
    if v == [] then []
    else
      var last := |v| - 1;
      if In(v, last, k) then Bucket(v[..last], k) + [last] else Bucket(v[..last], k)
  }

  // Only asked of kept sentences.
  function Ordinal(v: seq<Verdict>, i: nat): int {
    if i < |v| && v[i].Shown? then v[i].ordinal else 0
  }

  function Chunk(v: seq<Verdict>, i: nat): string {
    if i < |v| && v[i].Shown? then v[i].chunk else ""
  }

  // The tuples that the code sorts.
  function Pairs(v: seq<Verdict>, s: seq<nat>): (r: seq<(int, string)>)
    ensures |r| == |s|
    ensures forall i :: 0 <= i < |s| ==> r[i] == (Ordinal(v, s[i]), Chunk(v, s[i]))
  {
    if s == [] then [] else [(Ordinal(v, s[0]), Chunk(v, s[0]))] + Pairs(v, s[1..])
  }

  function Insert(x: (int, string), s: seq<(int, string)>): seq<(int, string)> {
    if s == [] || x.0 <= s[0].0 then [x] + s else [s[0]] + Insert(x, s[1..])
  }

  // sorted(bucket, key=lambda kv: kv[0])
  function Sorted(s: seq<(int, string)>): seq<(int, string)> {
    if s == [] then [] else Insert(s[0], Sorted(s[1..]))
  }

  function Texts(s: seq<(int, string)>): (r: seq<string>)
    ensures |r| == |s|
    ensures forall i :: 0 <= i < |s| ==> r[i] == s[i].1
  {
    if s == [] then [] else [s[0].1] + Texts(s[1..])
  }

  // The chunks of paragraph k.
  function GroupOf(v: seq<Verdict>, k: nat): seq<string> {
    Texts(Sorted(Pairs(v, Bucket(v, k))))
  }

  // The first `num` paragraphs.
  function Groups(v: seq<Verdict>, num: nat): (r: seq<seq<string>>)
    ensures |r| == num
    ensures forall k: nat :: k < num ==> r[k] == GroupOf(v, k)
  {
    if num == 0 then [] else Groups(v, num - 1) + [GroupOf(v, num - 1)]
  }

  // Without the empty groups at the end.
  function Trim(groups: seq<seq<string>>): seq<seq<string>> {
    if groups != [] && groups[|groups| - 1] == [] then Trim(groups[..|groups| - 1]) else groups
  }

  // ----- The loop -----

  function Records(v: seq<Verdict>): (r: seq<Verdict>)
    ensures forall i :: 0 <= i < |r| ==> r[i].Shown?
  {
    if v == [] then []
    else
      var last := |v| - 1;
      if v[last].Shown? then Records(v[..last]) + [v[last]] else Records(v[..last])
  }

  // The pairs filed under paragraph k.
  function Filed(records: seq<Verdict>, k: nat): seq<(int, string)> {
    if records == [] then []
    else
      var last := |records| - 1;
      if In(records, last, k)
      then Filed(records[..last], k) + [(records[last].ordinal, records[last].chunk)]
      else Filed(records[..last], k)
  }

  lemma FiledSnoc(records: seq<Verdict>, r: Verdict, k: nat)
    requires r.Shown?
    ensures Filed(records + [r], k) ==
            if r.para == k then Filed(records, k) + [(r.ordinal, r.chunk)] else Filed(records, k)
  {
    assert (records + [r])[..|records|] == records;
  }

  ghost predicate Below(s: seq<nat>, n: nat) {
    forall i :: 0 <= i < |s| ==> s[i] < n
  }

  lemma {:induction false} BucketBelow(v: seq<Verdict>, k: nat)
    ensures Below(Bucket(v, k), |v|)
  {
    if v != [] {
      BucketBelow(v[..|v| - 1], k);
    }
  }

  lemma PairsSnoc(v: seq<Verdict>, bucket: seq<nat>, i: nat)
    ensures Pairs(v, bucket + [i]) == Pairs(v, bucket) + [(Ordinal(v, i), Chunk(v, i))]
  {
  }

  lemma PairsStay(v: seq<Verdict>, verdict: Verdict, bucket: seq<nat>)
    requires Below(bucket, |v|)
    ensures Pairs(v + [verdict], bucket) == Pairs(v, bucket)
  {
  }

  lemma FiledStep(v: seq<Verdict>, verdict: Verdict, records: seq<Verdict>, bucket: seq<nat>, k: nat)
    requires Below(bucket, |v|) && verdict.Shown?
    requires Filed(records, k) == Pairs(v, bucket)
    ensures Filed(records + [verdict], k)
         == Pairs(v + [verdict], if verdict.para == k then bucket + [|v|] else bucket)
  {
    FiledSnoc(records, verdict, k);
    PairsStay(v, verdict, bucket);
    PairsSnoc(v + [verdict], bucket, |v|);
  }

  lemma {:induction false} FiledIsBucket(v: seq<Verdict>, k: nat)
    ensures Filed(Records(v), k) == Pairs(v, Bucket(v, k))
  {
    if v != [] {
      var before, verdict := v[..|v| - 1], v[|v| - 1];
      assert v == before + [verdict];
      FiledIsBucket(before, k);
      BucketBelow(before, k);
      if verdict.Shown? {
        FiledStep(before, verdict, Records(before), Bucket(before, k), k);
      } else {
        PairsStay(before, verdict, Bucket(before, k));
      }
    }
  }

  // The paragraph of sentence i, and the cursor behind it.
  method Locate(b: Block, i: nat, cursor: nat) returns (para: nat, next: nat)
    requires i < |b.sentences| && cursor == Cursor(b, i)
    ensures para == Para(b, i) && next == Cursor(b, i + 1)
  {
    next := cursor;
    var offset := FindSentence(b.sentences[i].source, b.raw, cursor);
    if offset >= 0 {
      next := offset + 1;
    } else {
      offset := cursor;
    }
    para := ParagraphIndexForOffset(offset, b.breaks);
  }

  lemma RecordsSnoc(v: seq<Verdict>, verdict: Verdict)
    ensures Records(v + [verdict]) == if verdict.Shown? then Records(v) + [verdict] else Records(v)
  {
    assert (v + [verdict])[..|v|] == v;
  }

  // What the first n sentences left.
  predicate Collected(b: Block, n: nat, seen: set<int>, records: seq<Verdict>, untranslated: seq<string>)
    requires n <= |b.sentences|
  {
    seen == Seen(b, n) && records == Records(Verdicts(b, n)) && untranslated == UntranslatedBelow(b, n)
  }

  lemma CollectStep(b: Block, i: nat, seen: set<int>, records: seq<Verdict>, untranslated: seq<string>, para: nat)
    requires i < |b.sentences| && Collected(b, i, seen, records, untranslated) && para == Para(b, i)
    ensures var s := b.sentences[i];
            if !HasText(s) then Collected(b, i + 1, seen, records, untranslated + [s.source])
            else
              var target := s.target.value;
              if target.id in seen then Collected(b, i + 1, seen, records, untranslated)
              else if target.stub then Collected(b, i + 1, seen + {target.id}, records, untranslated + [s.source])
              else Collected(b, i + 1, seen + {target.id}, records + [Shown(para, target.ordinal, target.chunk)], untranslated)
  {
    RecordsStep(b, i);
    UntranslatedStep(b, i);
    SeenStep(b, i);
  }

  lemma SeenStep(b: Block, i: nat)
    requires i < |b.sentences|
    ensures Seen(b, i + 1) == if HasText(b.sentences[i]) then Seen(b, i) + {b.sentences[i].target.value.id} else Seen(b, i)
    ensures HasText(b.sentences[i]) && b.sentences[i].target.value.id in Seen(b, i) ==> Seen(b, i + 1) == Seen(b, i)
  {
  }

  // One pass over the sentences.
  method CollectRecords(b: Block) returns (records: seq<Verdict>, untranslated: seq<string>)
    ensures records == Records(Verdicts(b, |b.sentences|))
    ensures untranslated == UntranslatedBelow(b, |b.sentences|)
  {
    var seen: set<int> := {};
    var cursor: nat := 0;
    records, untranslated := [], [];
    for i := 0 to |b.sentences|
      invariant cursor == Cursor(b, i) && Collected(b, i, seen, records, untranslated)
    {
      var sentence := b.sentences[i];
      var para;
      para, cursor := Locate(b, i, cursor);
      CollectStep(b, i, seen, records, untranslated, para);
      if sentence.target.None? || sentence.target.value.text == "" {
        untranslated := untranslated + [sentence.source];
        continue;
      }
      var target := sentence.target.value;
      if target.id in seen {
        continue;
      }
      seen := seen + {target.id};
      if target.stub {
        untranslated := untranslated + [sentence.source];
        continue;
      }
      records := records + [Shown(para, target.ordinal, target.chunk)];
    }
  }

  // What one sentence adds.
  lemma RecordsStep(b: Block, i: nat)
    requires i < |b.sentences|
    ensures Records(Verdicts(b, i + 1))
         == if FateOf(b, i).Kept? then Records(Verdicts(b, i)) + [VerdictOf(b, i)] else Records(Verdicts(b, i))
  {
    RecordsSnoc(Verdicts(b, i), VerdictOf(b, i));
  }

  lemma UntranslatedStep(b: Block, i: nat)
    requires i < |b.sentences|
    ensures UntranslatedBelow(b, i + 1)
         == if FateOf(b, i).Missing? || FateOf(b, i).Stub?
            then UntranslatedBelow(b, i) + [b.sentences[i].source] else UntranslatedBelow(b, i)
  {
  }

  lemma RecordFiled(records: seq<Verdict>, i: nat, k: nat)
    requires i < |records| && records[i].Shown?
    ensures Filed(records[..i + 1], k)
         == Filed(records[..i], k) + if records[i].para == k then [(records[i].ordinal, records[i].chunk)] else []
  {
    assert records[..i + 1][..i] == records[..i];
  }

  method BlockZhChunksGrouped(b: Block) returns (grouped: seq<seq<string>>, untranslated: seq<string>)
    ensures grouped == Trim(Groups(Verdicts(b, |b.sentences|), |b.breaks|))
    ensures untranslated == UntranslatedBelow(b, |b.sentences|)
  {
    var records;
    records, untranslated := CollectRecords(b);
    ghost var v := Verdicts(b, |b.sentences|);
    var byPara: map<nat, seq<(int, string)>> := map[];
    for i := 0 to |records|
      invariant forall k :: k in byPara ==> byPara[k] == Filed(records[..i], k)
      invariant forall k: nat :: k !in byPara ==> Filed(records[..i], k) == []
    {
      var r := records[i];
      forall k: nat ensures Filed(records[..i + 1], k)
          == Filed(records[..i], k) + if r.para == k then [(r.ordinal, r.chunk)] else []
      {
        RecordFiled(records, i, k);
      }
      var before := if r.para in byPara then byPara[r.para] else [];
      byPara := byPara[r.para := before + [(r.ordinal, r.chunk)]];
    }
    assert records[..|records|] == records;
    grouped := [];
    for i := 0 to |b.breaks|
      invariant grouped == Groups(v, i)
    {
      FiledIsBucket(v, i);
      var bucket := if i in byPara then byPara[i] else [];
      grouped := grouped + [Texts(Sorted(bucket))];
    }
    while grouped != [] && grouped[|grouped| - 1] == []
      invariant Trim(grouped) == Trim(Groups(v, |b.breaks|))
      decreases |grouped|
    {
      grouped := grouped[..|grouped| - 1];
    }
  }
}
