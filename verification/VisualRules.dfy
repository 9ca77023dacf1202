// Where visual paragraphs end, and which of them a sentence goes to.
module VisualRules {
  // scripts/render_bilingual_subset.py:259-289, 831-848.

  import opened PyText
  import R = Reflow
  import V = VisualParagraphs
  import W = WidthLaws
  import G = GroupingLaws
  import B = BilingualParagraph

  // ----- The threshold -----

  ghost function ShorterThan(lines: seq<string>, k: nat, w: nat): set<nat> {
    set i: nat | k <= i < |lines| && |lines[i]| < w
  }

  // The length of some line; at most half of the lines are shorter, and more than
  // half are no longer.
  ghost predicate IsMedian(lines: seq<string>, m: nat) {
    && (exists i: nat :: i < |lines| && |lines[i]| == m)
    && |ShorterThan(lines, 0, m)| <= |lines| / 2 < |ShorterThan(lines, 0, m + 1)|
  }

  lemma {:induction false} LengthsCounted(lines: seq<string>, k: nat, w: nat)
    requires k <= |lines|
    ensures W.CountBelow(V.Lengths(lines[k..]), w) == |ShorterThan(lines, k, w)|
    decreases |lines| - k
  {
    if k == |lines| {
      assert ShorterThan(lines, k, w) == {};
    } else {
      LengthsCounted(lines, k + 1, w);
      assert lines[k..][1..] == lines[k + 1..];
      var rest := V.Lengths(lines[k + 1..]);
      assert ([|lines[k]|] + rest)[1..] == rest;
      ShorterStep(lines, k, w);
    }
  }

  lemma ShorterStep(lines: seq<string>, k: nat, w: nat)
    requires k < |lines|
    ensures |ShorterThan(lines, k, w)| == |ShorterThan(lines, k + 1, w)| + if |lines[k]| < w then 1 else 0
  {
    var more := ShorterThan(lines, k + 1, w);
    assert ShorterThan(lines, k, w) == if |lines[k]| < w then more + {k} else more;
  }

  lemma {:induction false} LengthsHold(lines: seq<string>, x: nat)
    ensures x in V.Lengths(lines) ==> exists i: nat :: i < |lines| && |lines[i]| == x
  {
    if lines != [] && x in V.Lengths(lines) && x != |lines[0]| {
      LengthsHold(lines[1..], x);
      var i: nat :| i < |lines[1..]| && |lines[1..][i]| == x;
      assert |lines[i + 1]| == x;
    }
  }

  lemma AllCounted(lines: seq<string>, w: nat)
    ensures W.CountBelow(V.Lengths(lines), w) == |ShorterThan(lines, 0, w)|
  {
    LengthsCounted(lines, 0, w);
    assert lines[0..] == lines;
  }

  lemma MedianIsMedian(lines: seq<string>, sorted: seq<nat>)
    requires lines != [] && sorted == R.Sorted(V.Lengths(lines))
    ensures |sorted| == |lines| && IsMedian(lines, sorted[|lines| / 2])
  {
    V.SortedLength(V.Lengths(lines));
    EntryIsMedian(lines, sorted, V.Lengths(lines), sorted[|lines| / 2]);
  }

  lemma EntryIsMedian(lines: seq<string>, sorted: seq<nat>, lengths: seq<nat>, m: nat)
    requires lines != [] && lengths == V.Lengths(lines) && sorted == R.Sorted(lengths)
    requires |sorted| == |lines| && m == sorted[|lines| / 2]
    ensures IsMedian(lines, m)
  {
    W.SortedEntry(sorted, lengths, |lines| / 2, m);
    AllCounted(lines, m);
    AllCounted(lines, m + 1);
    LengthsHold(lines, m);
  }

  lemma OneMedian(lines: seq<string>, m: nat, n: nat)
    requires IsMedian(lines, m) && IsMedian(lines, n)
    ensures m == n
  {
    if m < n {
      W.SubsetCount(ShorterThan(lines, 0, m + 1), ShorterThan(lines, 0, n));
    } else if n < m {
      W.SubsetCount(ShorterThan(lines, 0, n + 1), ShorterThan(lines, 0, m));
    }
  }

  // 55% of the median length, rounded down, and at least 20.
  lemma ThresholdIs(lines: seq<string>, m: nat)
    requires lines != [] && IsMedian(lines, m)
    ensures V.ShortThreshold(lines) == if m * 55 / 100 < 20 then 20 else m * 55 / 100
  {
    MedianIsMedian(lines, R.Sorted(V.Lengths(lines)));
    OneMedian(lines, m, R.Sorted(V.Lengths(lines))[|lines| / 2]);
  }

  // ----- Tails -----

  // At most `limit` characters, and a sentence end, perhaps with a closing quote or
  // bracket behind a full stop.
  predicate IsShortTail(line: string, limit: nat) {
    && line != [] && |line| <= limit
    && (line[|line| - 1] in ".!?" || (|line| > 1 && line[|line| - 2] == '.' && line[|line| - 1] in "”\")"))
  }

  lemma EndsWithOne(line: string, c: char)
    ensures V.EndsWith(line, [c]) <==> line != [] && line[|line| - 1] == c
  {
    assert line != [] ==> line[|line| - 1..] == [line[|line| - 1]];
  }

  lemma EndsWithTwo(line: string, c: char, d: char)
    ensures V.EndsWith(line, [c, d]) <==> |line| > 1 && line[|line| - 2] == c && line[|line| - 1] == d
  {
    assert |line| > 1 ==> line[|line| - 2..] == [line[|line| - 2], line[|line| - 1]];
  }

  lemma TailIff(line: string, limit: nat)
    ensures V.IsTail(line, limit) <==> IsShortTail(line, limit)
  {
    EndsWithOne(line, '.');
    EndsWithOne(line, '!');
    EndsWithOne(line, '?');
    EndsWithTwo(line, '.', '\U{201D}');
    EndsWithTwo(line, '.', '"');
    EndsWithTwo(line, '.', ')');
  }

  // ----- The split -----

  // The chunks hold the lines in order, and one ends exactly behind every short tail
  // that is not the last line.
  ghost predicate Cuts(lines: seq<string>, limit: nat, chunks: seq<seq<string>>) {
    && G.Concat(chunks) == lines && (forall k :: 0 <= k < |chunks| ==> chunks[k] != [])
    && (forall k: nat, j: nat :: k < |chunks| && j < |chunks[k]| ==>
          (IsShortTail(chunks[k][j], limit) && !(k == |chunks| - 1 && j == |chunks[k]| - 1) <==>
             j == |chunks[k]| - 1 && k < |chunks| - 1))
  }

  // A text of several lines is split behind the short tails of its trimmed lines.
  lemma SplitCuts(source: string, m: nat) returns (chunks: seq<seq<string>>)
    requires |V.RealLines(PyText.Split(source))| > 1 && IsMedian(V.RealLines(PyText.Split(source)), m)
    ensures V.Split(source) == V.Texts(chunks)
    ensures Cuts(V.RealLines(PyText.Split(source)), if m * 55 / 100 < 20 then 20 else m * 55 / 100, chunks)
  {
    var lines := V.RealLines(PyText.Split(source));
    var limit := V.ShortThreshold(lines);
    ThresholdIs(lines, m);
    chunks := V.After(lines, limit, |lines|);
    V.ChunksHoldLines(lines, limit, |lines|);
    assert lines[..|lines|] == lines;
    V.ChunksAreFilled(lines, limit, |lines|);
    V.BreaksAreTails(lines, limit, |lines|);
    BrokenCuts(chunks, limit);
  }

  lemma BrokenCuts(chunks: seq<seq<string>>, limit: nat)
    requires V.BrokenAtTails(chunks, limit) && V.Filled(chunks, false)
    ensures Cuts(G.Concat(chunks), limit, chunks)
  {
    forall k: nat, j: nat | k < |chunks| && j < |chunks[k]|
      ensures IsShortTail(chunks[k][j], limit) && !(k == |chunks| - 1 && j == |chunks[k]| - 1) <==>
                j == |chunks[k]| - 1 && k < |chunks| - 1
    {
      TailIff(chunks[k][j], limit);
      if k + 1 < |chunks| {
        assert V.EndsAtTail(chunks[k], limit);
      }
    }
  }

  // ----- Sentences -----

  // From `last` on the first chunk with the opening in it; without one, `last` again.
  ghost predicate GoesTo(chunks: seq<string>, last: nat, entry: B.Entry, k: nat) {
    if entry.Text? && entry.probe != "" && exists m: nat :: last <= m < |chunks| && B.Contains(chunks[m], entry.probe)
    then last <= k < |chunks| && B.Contains(chunks[k], entry.probe) &&
         forall m: nat :: last <= m < k ==> !B.Contains(chunks[m], entry.probe)
    else k == last
  }

  // `at` says for every entry which chunk it goes to; entries without text keep the
  // place of the one before.
  ghost predicate Places(chunks: seq<string>, entries: seq<B.Entry>, at: seq<nat>) {
    |at| == |entries| && forall i: nat :: i < |entries| ==> PlacedAt(chunks, entries, at, i)
  }

  ghost predicate PlacedAt(chunks: seq<string>, entries: seq<B.Entry>, at: seq<nat>, i: nat) {
    i < |entries| == |at| && GoesTo(chunks, if i == 0 then 0 else at[i - 1], entries[i], at[i])
  }

  // The sentences in a bucket are those that go to it, in order.
  ghost predicate Collected(entries: seq<B.Entry>, at: seq<nat>, k: nat, bucket: seq<B.Sentence>) {
    |at| == |entries| &&
    if entries == [] then bucket == []
    else
      var n := |entries| - 1;
      if entries[n].Text? && at[n] == k
      then bucket != [] && bucket[|bucket| - 1] == entries[n].sentence && Collected(entries[..n], at[..n], k, bucket[..|bucket| - 1])
      else Collected(entries[..n], at[..n], k, bucket)
  }

  lemma PlaceIs(chunks: seq<string>, entry: B.Entry, cursor: nat)
    requires cursor < |chunks| && entry.Text?
    ensures GoesTo(chunks, cursor, entry, B.Place(chunks, entry.probe, cursor))
  {
    B.FirstHoldingIsFirst(chunks, entry.probe, cursor);
  }

  lemma {:induction false} BucketsFollow(chunks: seq<string>, entries: seq<B.Entry>) returns (at: seq<nat>)
    requires chunks != []
    ensures Places(chunks, entries, at)
    ensures entries != [] ==> at[|at| - 1] == B.CursorAfter(chunks, entries)
    ensures forall k: nat :: k < |chunks| ==> Collected(entries, at, k, B.Buckets(chunks, entries)[k])
  {
    if entries == [] {
      at := [];
    } else {
      var n := |entries| - 1;
      var front, last := entries[..n], entries[n];
      var before := BucketsFollow(chunks, front);
      var cursor := B.CursorAfter(chunks, entries);
      if last.Text? {
        PlaceIs(chunks, last, B.CursorAfter(chunks, front));
      }
      assert entries == front + [last];
      at := OneMorePlace(chunks, front, last, before, cursor);
      forall k: nat | k < |chunks| ensures Collected(entries, at, k, B.Buckets(chunks, entries)[k]) {
        OneMoreCollected(front, last, before, cursor, k, B.Buckets(chunks, front)[k]);
      }
    }
  }

  lemma OneMoreCollected(front: seq<B.Entry>, last: B.Entry, before: seq<nat>, cursor: nat, k: nat, bucket: seq<B.Sentence>)
    requires Collected(front, before, k, bucket)
    ensures Collected(front + [last], before + [cursor], k,
                      if last.Text? && cursor == k then bucket + [last.sentence] else bucket)
  {
    var all, at := front + [last], before + [cursor];
    assert all[..|front|] == front && at[..|front|] == before;
    assert last.Text? ==> (bucket + [last.sentence])[..|bucket|] == bucket;
  }

  lemma OneMorePlace(chunks: seq<string>, front: seq<B.Entry>, last: B.Entry, before: seq<nat>, k: nat) returns (at: seq<nat>)
    requires Places(chunks, front, before)
    requires GoesTo(chunks, if front == [] then 0 else before[|front| - 1], last, k)
    ensures at == before + [k] && Places(chunks, front + [last], at)
  {
    at := before + [k];
    var all := front + [last];
    forall i: nat | i < |all| ensures PlacedAt(chunks, all, at, i) {
      if i < |front| {
        assert PlacedAt(chunks, front, before, i);
      }
    }
  }
}
