// NOTE headings held back and merged into the next paragraph
// (scripts/render_bilingual_subset.py:658-744, 819-918, 970-1114).
module NoteCallouts {
  import opened Wrappers
  import opened PyText
  import opened BilingualParagraph
  import V = VisualParagraphs

  datatype Note = Note(title: string, zh: string)

  // The classifiers are facts about the block: `echo` for a heading that repeats the
  // last one, `suppressed` for a duplicate of the banner or callout before it.
  datatype Block = Block(
    kind: string, source: string, normalized: string,
    sentences: seq<Sentence>, targets: map<int, string>,
    prose: bool, brokenItem: bool, runningHeader: bool, labelDump: bool,
    noteHeading: bool, echo: bool, suppressed: bool)

  datatype Line = Callout(note: Note, en: string, zh: string) | Passage(en: string, zh: string) | Other(kind: string)

  // ----- One block -----

  function Canonical(b: Block): string {
    Normal(if CleanText(b.normalized) != "" then CleanText(b.normalized) else CleanText(b.source))
  }

  function EffectiveKind(b: Block): string {
    if b.kind == "code" && b.prose then "paragraph"
    else if b.kind == "heading" && b.brokenItem then "paragraph"
    else b.kind
  }

  // Nothing to say, a page header, or the labels of a diagram.
  predicate Filtered(b: Block) {
    || (Canonical(b) == "" && b.kind !in {"figure", "image"})
    || (EffectiveKind(b) in {"paragraph", "footnote"} && b.runningHeader)
    || (EffectiveKind(b) == "paragraph" && b.labelDump)
  }

  function ChunksOf(b: Block): seq<string> {
    if b.source != "" then V.Split(b.source) else [Canonical(b)]
  }

  // The first translated sentence.
  function FirstZh(targets: map<int, string>, sentences: seq<Sentence>): string {
    if sentences == [] then ""
    else
      var zh := ZhForSentence(targets, sentences[0].0);
      if zh != "" then zh else FirstZh(targets, sentences[1..])
  }

  datatype Event = Holds(note: Note) | Paragraph | Quiet

  // What the block means to a note that is held back.
  function EventOf(b: Block): Event {
    if b.suppressed || Filtered(b) then Quiet
    else if EffectiveKind(b) == "heading" && b.noteHeading then
      Holds(Note(Canonical(b), FirstZh(b.targets, b.sentences)))
    else if EffectiveKind(b) == "paragraph" && (b.source == "" || !IsBlank(b.source)) then Paragraph
    else Quiet
  }

  function Texts(bucket: seq<Sentence>): (r: seq<string>)
    ensures |r| == |bucket|
    ensures forall i: nat :: i < |bucket| ==> r[i] == bucket[i].1
  {
    if bucket == [] then [] else [bucket[0].1] + Texts(bucket[1..])
  }

  // The chunk itself stands in when no sentence went to it.
  function EnBlock(bucket: seq<Sentence>, chunk: string): string {
    Strip(Join(if bucket == [] then [chunk] else Texts(bucket), " "))
  }

  function Normals(chunks: seq<string>): seq<string> {
    seq(|chunks|, (k: nat) requires k < |chunks| => Normal(chunks[k]))
  }

  function BucketsOf(b: Block): (r: seq<seq<Sentence>>)
    requires ChunksOf(b) != []
    ensures |r| == |ChunksOf(b)|
  {
    Buckets(Normals(ChunksOf(b)), Entries(b.sentences))
  }

  // The two texts of every chunk.
  function PassagesOf(chunks: seq<string>, buckets: seq<seq<Sentence>>, targets: map<int, string>)
    : (r: seq<(string, string)>)
    requires |chunks| == |buckets|
    ensures |r| == |chunks|
  {
    seq(|chunks|, (k: nat) requires k < |chunks| => (EnBlock(buckets[k], chunks[k]), ZhBlock(targets, buckets[k])))
  }

  function Passages(b: Block): (r: seq<(string, string)>)
    requires ChunksOf(b) != []
    ensures |r| == |ChunksOf(b)|
  {
    PassagesOf(ChunksOf(b), BucketsOf(b), b.targets)
  }

  function LineOf(passage: (string, string), note: Option<Note>): Line {
    if note.Some? then Callout(note.value, passage.0, passage.1) else Passage(passage.0, passage.1)
  }

  // One line for each passage; the note goes into the first.
  function LinesOf(passages: seq<(string, string)>, note: Option<Note>): seq<Line> {
    if passages == [] then []
    else
      var last := |passages| - 1;
      LinesOf(passages[..last], note) + [LineOf(passages[last], if last == 0 then note else None)]
  }

  lemma {:induction false} LinesCall(passages: seq<(string, string)>, note: Option<Note>)
    ensures |LinesOf(passages, note)| == |passages|
    ensures Callouts(LinesOf(passages, note)) == if passages != [] && note.Some? then [note.value] else []
  {
    if passages != [] {
      var last := |passages| - 1;
      LinesCall(passages[..last], note);
      CalloutsSnoc(LinesOf(passages[..last], note), LineOf(passages[last], if last == 0 then note else None));
    }
  }

  lemma CalloutsSnoc(lines: seq<Line>, line: Line)
    ensures Callouts(lines + [line]) == if line.Callout? then Callouts(lines) + [line.note] else Callouts(lines)
  {
    assert (lines + [line])[..|lines|] == lines;
  }

  ghost predicate Trimmed(bucket: seq<Sentence>) {
    forall i: nat :: i < |bucket| ==> V.IsTrimmed(bucket[i].1)
  }

  lemma {:induction false} BucketsAreTrimmed(chunks: seq<string>, entries: seq<Entry>)
    requires chunks != []
    requires forall i: nat :: i < |entries| && entries[i].Text? ==> V.IsTrimmed(entries[i].sentence.1)
    ensures forall k: nat :: k < |chunks| ==> Trimmed(Buckets(chunks, entries)[k])
  {
    if entries != [] {
      BucketsAreTrimmed(chunks, entries[..|entries| - 1]);
    }
  }

  lemma EntryIsTrimmed(sentence: Sentence)
    ensures EntryOf(sentence).Text? ==> V.IsTrimmed(EntryOf(sentence).sentence.1)
  {
    V.StripTrims(Unix(sentence.1));
  }

  // Every chunk of a paragraph has something to show.
  lemma EnIsNotEmpty(b: Block, k: nat)
    requires !Filtered(b) && EffectiveKind(b) == "paragraph" && k < |ChunksOf(b)|
    ensures Passages(b)[k].0 != ""
  {
    forall i: nat | i < |b.sentences|
      ensures Entries(b.sentences)[i].Text? ==> V.IsTrimmed(Entries(b.sentences)[i].sentence.1)
    {
      EntryIsTrimmed(b.sentences[i]);
    }
    BucketsAreTrimmed(Normals(ChunksOf(b)), Entries(b.sentences));
    var bucket := BucketsOf(b)[k];
    assert Trimmed(bucket);
    ChunkIsTrimmed(b, k);
    V.JoinIsInk(if bucket == [] then [ChunksOf(b)[k]] else Texts(bucket));
  }

  lemma ChunkIsTrimmed(b: Block, k: nat)
    requires !Filtered(b) && EffectiveKind(b) == "paragraph" && k < |ChunksOf(b)|
    ensures V.IsTrimmed(ChunksOf(b)[k])
  {
    V.ParagraphsAreTrimmed(b.source);
    var text := if CleanText(b.normalized) != "" then CleanText(b.normalized) else CleanText(b.source);
    V.StripTrims(Collapse(text, false));
  }

  method CollectPassages(chunks: seq<string>, buckets: seq<seq<Sentence>>, targets: map<int, string>)
    returns (passages: seq<(string, string)>)
    requires |chunks| == |buckets|
    ensures passages == PassagesOf(chunks, buckets, targets)
  {
    passages := [];
    for idx := 0 to |buckets|
      invariant passages == PassagesOf(chunks, buckets, targets)[..idx]
    {
      passages := passages + [(EnBlock(buckets[idx], chunks[idx]), ZhBlock(targets, buckets[idx]))];
    }
  }

  method EmitPassages(passages: seq<(string, string)>, pending: Option<Note>)
    returns (lines: seq<Line>, left: Option<Note>, merged: nat)
    requires passages != [] && forall k: nat :: k < |passages| ==> passages[k].0 != ""
    ensures lines == LinesOf(passages, pending)
    ensures left == None && merged == if pending.Some? then 1 else 0
  {
    lines, left, merged := [], pending, 0;
    for idx := 0 to |passages|
      invariant lines == LinesOf(passages[..idx], pending)
      invariant left == if idx == 0 then pending else None
      invariant merged == if idx > 0 && pending.Some? then 1 else 0
    {
      assert passages[..idx + 1][..idx] == passages[..idx];
      var (en, zh) := passages[idx];
      if en == "" {
        continue;
      }
      if idx == 0 && left.Some? {
        merged := merged + 1;
        lines := lines + [Callout(left.value, en, zh)];
        left := None;
      } else {
        lines := lines + [Passage(en, zh)];
      }
    }
    assert passages[..|passages|] == passages;
  }

  method RenderParagraph(b: Block, pending: Option<Note>) returns (lines: seq<Line>, left: Option<Note>, merged: nat)
    requires !Filtered(b) && EffectiveKind(b) == "paragraph"
    ensures ChunksOf(b) == [] ==> lines == [] && left == pending && merged == 0
    ensures ChunksOf(b) != [] ==> lines == LinesOf(Passages(b), pending) && left == None
    ensures ChunksOf(b) != [] ==> merged == if pending.Some? then 1 else 0
  {
    var chunks := ChunksOf(b);
    if chunks == [] {
      return [], pending, 0;
    }
    var buckets := FillBuckets(Normals(chunks), Entries(b.sentences));
    var passages := CollectPassages(chunks, buckets, b.targets);
    forall k: nat | k < |passages| ensures passages[k].0 != "" {
      EnIsNotEmpty(b, k);
    }
    lines, left, merged := EmitPassages(passages, pending);
  }

  function Callouts(lines: seq<Line>): seq<Note> {
    if lines == [] then []
    else
      var last := lines[|lines| - 1];
      var before := Callouts(lines[..|lines| - 1]);
      if last.Callout? then before + [last.note] else before
  }

  // What is held after a block, and which notes it shows.
  function LeftBy(event: Event, pending: Option<Note>): Option<Note> {
    match event
    case Holds(note) => Some(note)
    case Paragraph => None
    case Quiet => pending
  }

  function ShownBy(event: Event, pending: Option<Note>): seq<Note> {
    if event.Paragraph? && pending.Some? then [pending.value] else []
  }

  method RenderBlock(b: Block, pending: Option<Note>) returns (lines: seq<Line>, left: Option<Note>, merged: nat)
    requires !b.suppressed
    ensures left == LeftBy(EventOf(b), pending)
    ensures Callouts(lines) == ShownBy(EventOf(b), pending) && merged == |Callouts(lines)|
    ensures EventOf(b).Holds? || Filtered(b) ==> lines == []
    ensures EventOf(b).Paragraph? ==> lines != []
  {
    lines, left, merged := [], pending, 0;
    if Filtered(b) {
      return;
    }
    var kind := EffectiveKind(b);
    if kind == "heading" {
      if b.noteHeading {
        left := Some(Note(Canonical(b), FirstZh(b.targets, b.sentences)));
        return;
      }
      if b.echo {
        return;
      }
      lines := [Other(kind)];
    } else if kind == "paragraph" {
      V.ParagraphsAreTrimmed(b.source);
      if ChunksOf(b) != [] {
        LinesCall(Passages(b), pending);
      }
      lines, left, merged := RenderParagraph(b, pending);
    } else if kind in {"figure", "image", "table", "equation", "code", "caption", "list_item", "footnote"} {
      lines := [Other(kind)];
    } else if NonBlank(Entries(b.sentences)) != [] {
      lines := [Other(kind)];
    }
  }

  // ----- The run over the blocks -----

  function Events(blocks: seq<Block>): (r: seq<Event>)
    ensures |r| == |blocks|
  {
    if blocks == [] then [] else [EventOf(blocks[0])] + Events(blocks[1..])
  }

  lemma {:induction false} EventAt(blocks: seq<Block>, i: nat)
    requires i < |blocks|
    ensures Events(blocks)[i] == EventOf(blocks[i])
  {
    if i > 0 {
      EventAt(blocks[1..], i - 1);
    }
  }

  // The block whose note is held before block n.
  function Held(events: seq<Event>, n: nat): (i: Option<nat>)
    requires n <= |events|
    ensures i.Some? ==> i.value < n && events[i.value].Holds?
  {
    if n == 0 then None
    else match events[n - 1]
      case Holds(_) => Some(n - 1)
      case Paragraph => None
      case Quiet => Held(events, n - 1)
  }

  function HeldNote(events: seq<Event>, n: nat): Option<Note>
    requires n <= |events|
  {
    var i := Held(events, n);
    if i.Some? then Some(events[i.value].note) else None
  }

  // Notes shown by the first n blocks, in order.
  function Shown(events: seq<Event>, n: nat): seq<Note>
    requires n <= |events|
  {
    if n == 0 then [] else Shown(events, n - 1) + ShownBy(events[n - 1], HeldNote(events, n - 1))
  }

  lemma {:induction false} CalloutsConcat(a: seq<Line>, b: seq<Line>)
    ensures Callouts(a + b) == Callouts(a) + Callouts(b)
  {
    if b == [] {
      assert a + b == a;
    } else {
      assert (a + b)[..|a + b| - 1] == a + b[..|b| - 1];
      CalloutsConcat(a, b[..|b| - 1]);
    }
  }

  lemma OneEvent(events: seq<Event>, i: nat)
    requires i < |events|
    ensures HeldNote(events, i + 1) == LeftBy(events[i], HeldNote(events, i))
    ensures Shown(events, i + 1) == Shown(events, i) + ShownBy(events[i], HeldNote(events, i))
  {
  }

  // A suppressed block is passed over.
  method RenderAt(blocks: seq<Block>, i: nat, pending: Option<Note>)
    returns (lines: seq<Line>, left: Option<Note>, merged: nat)
    requires i < |blocks|
    ensures left == LeftBy(Events(blocks)[i], pending)
    ensures Callouts(lines) == ShownBy(Events(blocks)[i], pending) && merged == |Callouts(lines)|
  {
    EventAt(blocks, i);
    lines, left, merged := [], pending, 0;
    if !blocks[i].suppressed {
      lines, left, merged := RenderBlock(blocks[i], pending);
    }
  }

  method Render(blocks: seq<Block>) returns (sections: seq<Line>, merged: nat, pending: Option<Note>)
    ensures var events := Events(blocks);
            && pending == HeldNote(events, |events|)
            && Callouts(sections) == Shown(events, |events|)
            && merged == |Callouts(sections)|
  {
    ghost var events := Events(blocks);
    sections, merged, pending := [], 0, None;
    for i := 0 to |blocks|
      invariant pending == HeldNote(events, i)
      invariant Callouts(sections) == Shown(events, i)
      invariant merged == |Callouts(sections)|
    {
      OneEvent(events, i);
      var lines, more;
      lines, pending, more := RenderAt(blocks, i, pending);
      CalloutsConcat(sections, lines);
      sections := sections + lines;
      merged := merged + more;
    }
  }

  // ----- What becomes of a note -----

  // A note is held exactly while nothing but quiet blocks follow it.
  lemma {:induction false} HeldIff(events: seq<Event>, n: nat, i: nat)
    requires n <= |events|
    ensures Held(events, n) == Some(i) <==>
            i < n && events[i].Holds? && forall m: nat :: i < m < n ==> events[m].Quiet?
  {
    if n > 0 {
      HeldIff(events, n - 1, i);
    }
  }

  // Block j shows the note of block i.
  predicate Merges(events: seq<Event>, i: nat, j: nat) {
    j < |events| && events[j].Paragraph? && Held(events, j) == Some(i)
  }

  // It goes into the next paragraph after it, unless another note comes first.
  lemma MergesIff(events: seq<Event>, i: nat, j: nat)
    requires j < |events|
    ensures Merges(events, i, j) <==>
            i < j && events[i].Holds? && events[j].Paragraph? && forall m: nat :: i < m < j ==> events[m].Quiet?
  {
    HeldIff(events, j, i);
  }

  lemma MergedAtMostOnce(events: seq<Event>, i: nat, j: nat, k: nat)
    requires Merges(events, i, j) && Merges(events, i, k)
    ensures j == k
  {
    MergesIff(events, i, j);
    MergesIff(events, i, k);
  }

  function Count(events: seq<Event>, n: nat): nat
    requires n <= |events|
  {
    if n == 0 then 0 else Count(events, n - 1) + (if events[n - 1].Holds? then 1 else 0)
  }

  // A note that comes while another is held takes its place.
  function Overwritten(events: seq<Event>, n: nat): nat
    requires n <= |events|
  {
    if n == 0 then 0
    else Overwritten(events, n - 1) + (if events[n - 1].Holds? && Held(events, n - 1).Some? then 1 else 0)
  }

  // Every note is shown, overwritten, or still held at the end.
  lemma {:induction false} NotesAreAccountedFor(events: seq<Event>, n: nat)
    requires n <= |events|
    ensures Count(events, n) == |Shown(events, n)| + Overwritten(events, n) + (if Held(events, n).Some? then 1 else 0)
  {
    if n > 0 {
      NotesAreAccountedFor(events, n - 1);
    }
  }
}
