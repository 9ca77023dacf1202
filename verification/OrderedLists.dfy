// Runs of consecutively numbered paragraphs that become one ordered list
// (scripts/export_chapter_zh_html.py:3071-3129).
module OrderedLists {
  import opened Wrappers
  import opened ChapterBlocks

  predicate Item(blocks: seq<Block>, hidden: set<nat>, i: nat, num: nat) {
    i < |blocks| && blocks[i].kind.Paragraph? && i !in hidden && blocks[i].itemNumber == Some(num)
  }

  // The block at `k` carries the number it should have in a list starting at `start`.
  predicate InSequence(blocks: seq<Block>, hidden: set<nat>, start: nat, k: nat) {
    start <= k && Item(blocks, hidden, k, k - start + 1)
  }

  // What a list means: `len` consecutive eligible paragraphs numbered 1, 2, 3, ...
  predicate IsRun(blocks: seq<Block>, hidden: set<nat>, i: nat, len: nat) {
    forall k :: i <= k < i + len ==> InSequence(blocks, hidden, i, k)
  }

  predicate IsMaximalRun(blocks: seq<Block>, hidden: set<nat>, i: nat, len: nat) {
    IsRun(blocks, hidden, i, len) && !IsRun(blocks, hidden, i, len + 1)
  }

  function Span(i: nat, len: nat): (s: seq<nat>)
    ensures |s| == len && forall t :: 0 <= t < len ==> s[t] == i + t
  {
    seq(len, (t: nat) => i + t)
  }

  // The lists whose head lies below `bound`: a head starts a run of three or
  // more, and the list is the whole maximal run.
  ghost predicate ListsBelow(blocks: seq<Block>, hidden: set<nat>, lists: map<nat, seq<nat>>, bound: nat) {
    && (forall h: nat :: h in lists <==> h < bound && IsRun(blocks, hidden, h, 3))
    && (forall h: nat :: h in lists ==>
          IsMaximalRun(blocks, hidden, h, |lists[h]|) && lists[h] == Span(h, |lists[h]|))
  }

  // The blocks absorbed under another block's list.
  ghost predicate Absorbed(lists: map<nat, seq<nat>>, k: nat) {
    exists h: nat :: h in lists && h < k && k in lists[h]
  }

  // Two lists never share an item, and a list never starts inside another one.
  lemma ListsAreDisjoint(blocks: seq<Block>, hidden: set<nat>, lists: map<nat, seq<nat>>, h: nat, h': nat)
    requires ListsBelow(blocks, hidden, lists, |blocks|)
    requires h in lists && h' in lists && h < h'
    ensures 3 <= |lists[h]| && h + |lists[h]| <= h'
    ensures forall k :: k in lists[h] ==> k !in lists[h']
  {
    assert InSequence(blocks, hidden, h', h');
    assert h' < h + |lists[h]| ==> InSequence(blocks, hidden, h, h');
    RunsWithinMaximal(blocks, hidden, h, 3, |lists[h]|);
  }

  lemma RunsWithinMaximal(blocks: seq<Block>, hidden: set<nat>, i: nat, len: nat, maximal: nat)
    requires IsMaximalRun(blocks, hidden, i, maximal)
    ensures IsRun(blocks, hidden, i, len) <==> len <= maximal
  {
    assert !InSequence(blocks, hidden, i, i + maximal);
  }

  // The lists are determined by the chapter: no other grouping meets the definition.
  lemma ListsAreUnique(blocks: seq<Block>, hidden: set<nat>, a: map<nat, seq<nat>>, b: map<nat, seq<nat>>)
    requires ListsBelow(blocks, hidden, a, |blocks|) && ListsBelow(blocks, hidden, b, |blocks|)
    ensures a == b
  {
    forall h: nat | h in a ensures h in b && a[h] == b[h] {
      RunsWithinMaximal(blocks, hidden, h, |b[h]|, |a[h]|);
      RunsWithinMaximal(blocks, hidden, h, |a[h]|, |b[h]|);
    }
    assert forall h: nat :: h in b ==> h in a;
  }

  // Extending a run that starts with an item numbered 1.
  method ExtendRun(blocks: seq<Block>, skip: set<nat>, clusterSkip: set<nat>, i: nat) returns (run: seq<nat>, j: nat)
    requires Item(blocks, skip + clusterSkip, i, 1)
    ensures |run| >= 1 && run == Span(i, |run|) && j == i + |run| <= |blocks|
    ensures IsMaximalRun(blocks, skip + clusterSkip, i, |run|)
  {
    run := [i];
    var expected := 2;
    j := i + 1;
    while j < |blocks|
      invariant i < j <= |blocks| && expected == |run| + 1 && j == i + |run|
      invariant run == Span(i, |run|)
      invariant IsRun(blocks, skip + clusterSkip, i, |run|)
    {
      if !blocks[j].kind.Paragraph? || j in skip || j in clusterSkip || blocks[j].itemNumber != Some(expected) {
        break;
      }
      run := run + [j];
      expected := expected + 1;
      j := j + 1;
    }
    assert !InSequence(blocks, skip + clusterSkip, i, j);
  }

  // Blocks hidden by the pass itself lie behind the scan and do not affect it.
  lemma RunIgnoresEarlier(blocks: seq<Block>, hidden: set<nat>, hidden': set<nat>, i: nat, len: nat)
    requires forall k :: k >= i ==> (k in hidden <==> k in hidden')
    ensures IsRun(blocks, hidden, i, len) <==> IsRun(blocks, hidden', i, len)
  {
    assert forall k :: i <= k < i + len ==>
        (InSequence(blocks, hidden, i, k) <==> InSequence(blocks, hidden', i, k));
  }

  // No list can start strictly inside a run.
  lemma NoHeadInsideRun(blocks: seq<Block>, hidden: set<nat>, i: nat, len: nat, h: nat)
    requires IsRun(blocks, hidden, i, len) && i < h < i + len
    ensures !IsRun(blocks, hidden, h, 3)
  {
    assert InSequence(blocks, hidden, i, h);
    assert !InSequence(blocks, hidden, h, h);
  }

  method GroupOrderedLists(blocks: seq<Block>, skip0: set<nat>, clusterSkip: set<nat>)
    returns (lists: map<nat, seq<nat>>, skip: set<nat>)
    ensures ListsBelow(blocks, skip0 + clusterSkip, lists, |blocks|)
    ensures forall k :: k in skip <==> k in skip0 || Absorbed(lists, k)
  {
    ghost var hidden := skip0 + clusterSkip;
    lists, skip := map[], skip0;
    var i := 0;
    while i < |blocks|
      invariant i <= |blocks|
      invariant ListsBelow(blocks, hidden, lists, i)
      invariant forall k :: k in skip <==> k in skip0 || Absorbed(lists, k)
      invariant forall h: nat :: h in lists ==> h + |lists[h]| <= i
      decreases |blocks| - i
    {
      RunIgnoresEarlier(blocks, hidden, skip + clusterSkip, i, 3);
      if !Item(blocks, skip + clusterSkip, i, 1) {
        assert !InSequence(blocks, skip + clusterSkip, i, i);
        i := i + 1;
        continue;
      }
      var run, j := ExtendRun(blocks, skip, clusterSkip, i);
      RunIgnoresEarlier(blocks, hidden, skip + clusterSkip, i, |run|);
      RunIgnoresEarlier(blocks, hidden, skip + clusterSkip, i, |run| + 1);
      RunsWithinMaximal(blocks, hidden, i, 3, |run|);
      if |run| >= 3 {
        forall h: nat | i < h < j ensures !IsRun(blocks, hidden, h, 3) {
          NoHeadInsideRun(blocks, hidden, i, |run|, h);
        }
        ghost var before := lists;
        lists := lists[i := run];
        skip := skip + set k | k in run[1..];
        AbsorbedStep(before, lists, i, run);
        i := j;
        continue;
      }
      i := i + 1;
    }
  }

  lemma AbsorbedStep(before: map<nat, seq<nat>>, after: map<nat, seq<nat>>, i: nat, run: seq<nat>)
    requires |run| > 0 && run == Span(i, |run|)
    requires i !in before && after == before[i := run]
    ensures forall k: nat :: Absorbed(after, k) <==> Absorbed(before, k) || k in run[1..]
  {
    forall k: nat ensures Absorbed(after, k) <==> Absorbed(before, k) || k in run[1..] {
      assert run == [i] + run[1..];
      if Absorbed(before, k) {
        var h: nat :| h in before && h < k && k in before[h];
        assert h in after && after[h] == before[h];
      }
      if k in run[1..] {
        assert i in after && k in after[i];
      }
    }
  }
}
