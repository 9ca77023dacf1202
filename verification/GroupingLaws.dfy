// What the grouping of a block's chunks promises.
module GroupingLaws {
  import opened SentenceSearch
  import opened ChunkGrouping

  // ----- Every sentence is accounted for once -----

  function Duplicates(b: Block, n: nat): nat
    requires n <= |b.sentences|
  {
    if n == 0 then 0 else Duplicates(b, n - 1) + (if FateOf(b, n - 1).Duplicate? then 1 else 0)
  }

  lemma KeptSnoc(v: seq<Verdict>, verdict: Verdict)
    ensures KeptIn(v + [verdict]) == if verdict.Shown? then KeptIn(v) + [|v|] else KeptIn(v)
  {
    assert (v + [verdict])[..|v|] == v;
  }

  function Accounted(b: Block, n: nat): nat
    requires n <= |b.sentences|
  {
    |KeptIn(Verdicts(b, n))| + |UntranslatedBelow(b, n)| + Duplicates(b, n)
  }

  lemma KeptStep(b: Block, i: nat)
    requires i < |b.sentences|
    ensures |KeptIn(Verdicts(b, i + 1))| == |KeptIn(Verdicts(b, i))| + (if FateOf(b, i).Kept? then 1 else 0)
  {
    KeptSnoc(Verdicts(b, i), VerdictOf(b, i));
  }

  lemma OthersStep(b: Block, i: nat)
    requires i < |b.sentences|
    ensures |UntranslatedBelow(b, i + 1)| + Duplicates(b, i + 1)
         == |UntranslatedBelow(b, i)| + Duplicates(b, i) + (if FateOf(b, i).Kept? then 0 else 1)
  {
  }

  lemma OneFate(b: Block, i: nat, n: nat)
    requires i < |b.sentences| && n == i + 1
    ensures Accounted(b, n) == Accounted(b, i) + 1
  {
    KeptStep(b, i);
    OthersStep(b, i);
  }

  lemma NothingYet(b: Block)
    ensures Accounted(b, 0) == 0
  {
  }

  // Kept, reported or a duplicate: every sentence is exactly one of these.
  lemma {:induction false} SentencesAreAccountedFor(b: Block, n: nat)
    requires n <= |b.sentences|
    ensures Accounted(b, n) == n
    decreases n
  {
    if n == 0 {
      NothingYet(b);
    } else {
      var i := n - 1;
      SentencesAreAccountedFor(b, i);
      OneFate(b, i, n);
    }
  }

  lemma {:induction false} SeenIff(b: Block, n: nat, id: int)
    requires n <= |b.sentences|
    ensures id in Seen(b, n) <==> exists j: nat :: j < n && HasText(b.sentences[j]) && b.sentences[j].target.value.id == id
  {
    if n > 0 {
      SeenIff(b, n - 1, id);
    }
  }

  // A target is shown for the first sentence that has it and for no other.
  lemma LaterIsDuplicate(b: Block, i: nat, j: nat)
    requires i < j < |b.sentences| && HasText(b.sentences[i]) && HasText(b.sentences[j])
    requires b.sentences[i].target.value.id == b.sentences[j].target.value.id
    ensures FateOf(b, j).Duplicate?
  {
    SeenIff(b, j, b.sentences[i].target.value.id);
  }

  // ----- Buckets -----

  ghost predicate Increasing(s: seq<nat>) {
    forall x: nat, y: nat :: x < y < |s| ==> s[x] < s[y]
  }

  lemma {:induction false} BucketMember(v: seq<Verdict>, k: nat, i: nat)
    ensures i in Bucket(v, k) <==> In(v, i, k)
  {
    if v != [] {
      var last := |v| - 1;
      BucketMember(v[..last], k, i);
      assert In(v[..last], i, k) <==> In(v, i, k) && i != last;
    }
  }

  lemma {:induction false} BucketIncreases(v: seq<Verdict>, k: nat)
    ensures Increasing(Bucket(v, k))
  {
    if v != [] {
      BucketIncreases(v[..|v| - 1], k);
      BucketBelow(v[..|v| - 1], k);
    }
  }

  // Each kept sentence is in the bucket of its paragraph and in no other.
  lemma KeptIsInOneBucket(b: Block, i: nat, k: nat)
    requires i < |b.sentences|
    ensures i in Bucket(Verdicts(b, |b.sentences|), k) <==> FateOf(b, i).Kept? && Para(b, i) == k
  {
    BucketMember(Verdicts(b, |b.sentences|), k, i);
  }

  // Earlier paragraphs hold earlier sentences.
  lemma GroupsAreOrdered(b: Block, i: nat, j: nat, k: nat, m: nat)
    requires k < m
    requires i in Bucket(Verdicts(b, |b.sentences|), k) && j in Bucket(Verdicts(b, |b.sentences|), m)
    ensures i < j
  {
    BucketMember(Verdicts(b, |b.sentences|), k, i);
    BucketMember(Verdicts(b, |b.sentences|), m, j);
    if j <= i {
      ParasAscend(b, j, i);
    }
  }

  // ----- Sorting by target ordinal, on sentences -----

  function InsertIndex(v: seq<Verdict>, i: nat, s: seq<nat>): seq<nat> {
    if s == [] || Ordinal(v, i) <= Ordinal(v, s[0]) then [i] + s else [s[0]] + InsertIndex(v, i, s[1..])
  }

  function SortIndices(v: seq<Verdict>, s: seq<nat>): seq<nat> {
    if s == [] then [] else InsertIndex(v, s[0], SortIndices(v, s[1..]))
  }

  // By ordinal, and by position where ordinals are equal.
  ghost predicate Before(v: seq<Verdict>, i: nat, j: nat) {
    Ordinal(v, i) < Ordinal(v, j) || (Ordinal(v, i) == Ordinal(v, j) && i < j)
  }

  ghost predicate StablySorted(v: seq<Verdict>, s: seq<nat>) {
    forall x: nat, y: nat :: x < y < |s| ==> Before(v, s[x], s[y])
  }

  lemma {:induction false} InsertKeepsMembers(v: seq<Verdict>, i: nat, s: seq<nat>)
    ensures |InsertIndex(v, i, s)| == |s| + 1
    ensures forall x :: x in InsertIndex(v, i, s) <==> x == i || x in s
  {
    if !(s == [] || Ordinal(v, i) <= Ordinal(v, s[0])) {
      InsertKeepsMembers(v, i, s[1..]);
      assert s == [s[0]] + s[1..];
    }
  }

  lemma {:induction false} InsertSorts(v: seq<Verdict>, i: nat, s: seq<nat>)
    requires StablySorted(v, s) && forall y: nat :: y < |s| ==> i < s[y]
    ensures StablySorted(v, InsertIndex(v, i, s))
  {
    if s == [] || Ordinal(v, i) <= Ordinal(v, s[0]) {
      assert forall y: nat :: y < |s| ==> Before(v, i, s[y]);
    } else {
      InsertSorts(v, i, s[1..]);
      InsertKeepsMembers(v, i, s[1..]);
      assert Before(v, s[0], i);
      var r := InsertIndex(v, i, s[1..]);
      forall y: nat | y < |r| ensures Before(v, s[0], r[y]) {
        assert r[y] in r;
      }
    }
  }

  lemma {:induction false} SortIsStable(v: seq<Verdict>, s: seq<nat>)
    requires Increasing(s)
    ensures |SortIndices(v, s)| == |s|
    ensures forall x :: x in SortIndices(v, s) <==> x in s
    ensures StablySorted(v, SortIndices(v, s))
  {
    if s != [] {
      var rest := SortIndices(v, s[1..]);
      SortIsStable(v, s[1..]);
      InsertKeepsMembers(v, s[0], rest);
      assert s == [s[0]] + s[1..];
      assert forall y: nat :: y < |rest| ==> rest[y] in s[1..];
      InsertSorts(v, s[0], rest);
    }
  }

  // Sorting the tuples is sorting the sentences.
  lemma {:induction false} SortedPairs(v: seq<Verdict>, s: seq<nat>)
    ensures Sorted(Pairs(v, s)) == Pairs(v, SortIndices(v, s))
  {
    if s != [] {
      SortedPairs(v, s[1..]);
      InsertedPairs(v, s[0], SortIndices(v, s[1..]));
      assert Pairs(v, s)[1..] == Pairs(v, s[1..]);
    }
  }

  lemma {:induction false} InsertedPairs(v: seq<Verdict>, i: nat, s: seq<nat>)
    ensures Insert((Ordinal(v, i), Chunk(v, i)), Pairs(v, s)) == Pairs(v, InsertIndex(v, i, s))
  {
    if !(s == [] || Ordinal(v, i) <= Ordinal(v, s[0])) {
      InsertedPairs(v, i, s[1..]);
      assert Pairs(v, s)[1..] == Pairs(v, s[1..]);
    }
  }

  // ----- The flattened result -----

  function Chunks(v: seq<Verdict>, s: seq<nat>): (r: seq<string>)
    ensures |r| == |s|
    ensures forall x :: 0 <= x < |s| ==> r[x] == Chunk(v, s[x])
  {
    if s == [] then [] else [Chunk(v, s[0])] + Chunks(v, s[1..])
  }

  function Concat<T>(groups: seq<seq<T>>): seq<T> {
    if groups == [] then [] else Concat(groups[..|groups| - 1]) + groups[|groups| - 1]
  }

  function Buckets(v: seq<Verdict>, num: nat): seq<seq<nat>> {
    seq(num, (k: nat) => Bucket(v, k))
  }

  function SortedBuckets(v: seq<Verdict>, num: nat): seq<seq<nat>> {
    seq(num, (k: nat) => SortIndices(v, Bucket(v, k)))
  }

  // A group shows its bucket in stable order of target ordinals.
  lemma GroupIsSortedBucket(v: seq<Verdict>, k: nat)
    ensures var order := SortIndices(v, Bucket(v, k));
            GroupOf(v, k) == Chunks(v, order) && StablySorted(v, order) && |order| == |Bucket(v, k)|
    ensures forall i: nat :: i in SortIndices(v, Bucket(v, k)) <==> In(v, i, k)
  {
    SortedPairs(v, Bucket(v, k));
    BucketIncreases(v, k);
    SortIsStable(v, Bucket(v, k));
    forall i: nat ensures i in SortIndices(v, Bucket(v, k)) <==> In(v, i, k) {
      BucketMember(v, k, i);
    }
  }

  lemma {:induction false} TrimKeepsText(groups: seq<seq<string>>)
    ensures Concat(Trim(groups)) == Concat(groups)
  {
    if groups != [] && groups[|groups| - 1] == [] {
      TrimKeepsText(groups[..|groups| - 1]);
    }
  }

  lemma ChunksConcat(v: seq<Verdict>, s: seq<nat>, t: seq<nat>)
    ensures Chunks(v, s + t) == Chunks(v, s) + Chunks(v, t)
  {
  }

  lemma {:induction false} ConcatChunks(v: seq<Verdict>, texts: seq<seq<string>>, orders: seq<seq<nat>>)
    requires |texts| == |orders|
    requires forall k: nat :: k < |texts| ==> texts[k] == Chunks(v, orders[k])
    ensures Concat(texts) == Chunks(v, Concat(orders))
  {
    if texts != [] {
      var last := |texts| - 1;
      ConcatChunks(v, texts[..last], orders[..last]);
      ChunksConcat(v, Concat(orders[..last]), orders[last]);
    }
  }

  // The flattened text shows the sentences bucket by bucket, each bucket sorted.
  lemma FlatText(v: seq<Verdict>, num: nat)
    ensures Concat(Trim(Groups(v, num))) == Chunks(v, Concat(SortedBuckets(v, num)))
  {
    TrimKeepsText(Groups(v, num));
    forall k: nat | k < num ensures GroupOf(v, k) == Chunks(v, SortedBuckets(v, num)[k]) {
      SortedPairs(v, Bucket(v, k));
    }
    ConcatChunks(v, Groups(v, num), SortedBuckets(v, num));
  }

  // ----- In sentence order -----

  // Paragraphs never go back, and there are `num` of them.
  ghost predicate Advancing(v: seq<Verdict>, num: nat) {
    && (forall i: nat :: i < |v| && v[i].Shown? ==> v[i].para < num)
    && (forall i: nat, j: nat :: i < j < |v| && v[i].Shown? && v[j].Shown? ==> v[i].para <= v[j].para)
  }

  lemma VerdictsAdvance(b: Block)
    requires b.breaks != []
    ensures Advancing(Verdicts(b, |b.sentences|), |b.breaks|)
  {
    forall i: nat, j: nat | i < j < |b.sentences| ensures Para(b, i) <= Para(b, j) {
      ParasAscend(b, i, j);
    }
  }

  lemma {:induction false} ConcatGrows<T>(before: seq<seq<T>>, after: seq<seq<T>>, k: nat, x: T)
    requires |before| == |after| && k < |before|
    requires after[k] == before[k] + [x]
    requires forall m: nat :: m < |before| && m != k ==> after[m] == before[m]
    requires forall m: nat :: k < m < |before| ==> before[m] == []
    ensures Concat(after) == Concat(before) + [x]
  {
    var last := |before| - 1;
    if k < last {
      ConcatGrows(before[..last], after[..last], k, x);
    } else {
      assert before[..last] == after[..last];
    }
  }

  lemma {:induction false} ConcatOfEmpty<T>(groups: seq<seq<T>>)
    requires forall k: nat :: k < |groups| ==> groups[k] == []
    ensures Concat(groups) == []
  {
    if groups != [] {
      ConcatOfEmpty(groups[..|groups| - 1]);
    }
  }

  // No earlier sentence is in a later paragraph.
  lemma NothingAhead(v: seq<Verdict>, num: nat, k: nat)
    requires v != [] && Advancing(v, num) && v[|v| - 1].Shown? && v[|v| - 1].para < k
    ensures Bucket(v[..|v| - 1], k) == []
  {
    var before := v[..|v| - 1];
    if Bucket(before, k) != [] {
      BucketMember(before, k, Bucket(before, k)[0]);
    }
  }

  // Read bucket by bucket, the kept sentences come in their own order.
  lemma {:induction false} BucketsHoldKept(v: seq<Verdict>, num: nat)
    requires Advancing(v, num)
    ensures Concat(Buckets(v, num)) == KeptIn(v)
  {
    if v == [] {
      ConcatOfEmpty<nat>(Buckets(v, num));
    } else {
      var last := |v| - 1;
      var before, after := Buckets(v[..last], num), Buckets(v, num);
      BucketsHoldKept(v[..last], num);
      if v[last].Shown? {
        forall m: nat | v[last].para < m < |before| ensures before[m] == [] {
          NothingAhead(v, num, m);
        }
        ConcatGrows<nat>(before, after, v[last].para, last);
      } else {
        assert before == after;
      }
    }
  }

  // Ordinals do not decrease along s.
  ghost predicate OrdinalsAscend(v: seq<Verdict>, s: seq<nat>) {
    forall x: nat, y: nat :: x < y < |s| ==> Ordinal(v, s[x]) <= Ordinal(v, s[y])
  }

  lemma {:induction false} SortChangesNothingIff(v: seq<Verdict>, s: seq<nat>)
    requires Increasing(s)
    ensures SortIndices(v, s) == s <==> OrdinalsAscend(v, s)
  {
    SortIsStable(v, s);
    if s != [] && OrdinalsAscend(v, s) {
      SortChangesNothingIff(v, s[1..]);
    }
  }

  lemma {:induction false} ConcatAlike(g: seq<seq<nat>>, h: seq<seq<nat>>)
    requires |g| == |h| && forall k: nat :: k < |g| ==> |g[k]| == |h[k]|
    ensures |Concat(g)| == |Concat(h)|
    ensures Concat(g) == Concat(h) <==> g == h
  {
    if g != [] {
      var last := |g| - 1;
      ConcatAlike(g[..last], h[..last]);
      SplitAlike(Concat(g[..last]), g[last], Concat(h[..last]), h[last]);
      assert g == g[..last] + [g[last]] && h == h[..last] + [h[last]];
    }
  }

  lemma SplitAlike(a: seq<nat>, b: seq<nat>, c: seq<nat>, d: seq<nat>)
    requires |a| == |c|
    ensures a + b == c + d <==> a == c && b == d
  {
    if a + b == c + d {
      assert a == (a + b)[..|a|] == (c + d)[..|c|] == c;
      assert b == (a + b)[|a|..] == (c + d)[|c|..] == d;
    }
  }

  ghost predicate ParagraphAscends(v: seq<Verdict>, k: nat) {
    OrdinalsAscend(v, Bucket(v, k))
  }

  lemma SortedBucketsIff(v: seq<Verdict>, num: nat, sorted: seq<seq<nat>>, buckets: seq<seq<nat>>)
    requires sorted == SortedBuckets(v, num) && buckets == Buckets(v, num)
    ensures forall k: nat :: k < num ==> |sorted[k]| == |buckets[k]|
    ensures sorted == buckets <==> forall k: nat :: k < num ==> ParagraphAscends(v, k)
  {
    forall k: nat | k < num
      ensures |sorted[k]| == |buckets[k]| && (sorted[k] == buckets[k] <==> ParagraphAscends(v, k))
    {
      BucketIncreases(v, k);
      SortIsStable(v, Bucket(v, k));
      SortChangesNothingIff(v, Bucket(v, k));
    }
  }

  // The flattened result is in sentence order exactly if target ordinals do not
  // decrease within any paragraph.
  lemma FlatIsInOrderIff(b: Block)
    requires b.breaks != []
    ensures var v := Verdicts(b, |b.sentences|);
            Concat(SortedBuckets(v, |b.breaks|)) == KeptIn(v) <==>
            forall k: nat :: k < |b.breaks| ==> ParagraphAscends(v, k)
  {
    var v, num := Verdicts(b, |b.sentences|), |b.breaks|;
    var sorted, buckets := SortedBuckets(v, num), Buckets(v, num);
    SortedBucketsIff(v, num, sorted, buckets);
    ConcatAlike(sorted, buckets);
    VerdictsAdvance(b);
    BucketsHoldKept(v, num);
  }

  // ----- The result in terms of the block -----

  predicate Found(b: Block, i: nat)
    requires i < |b.sentences|
  {
    FindSentence(b.sentences[i].source, b.raw, Cursor(b, i)) >= 0
  }

  // No sentence from m on and below n is found.
  ghost predicate Missed(b: Block, m: nat, n: nat)
    requires n <= |b.sentences|
  {
    forall j: nat :: m <= j < n ==> !Found(b, j)
  }

  lemma {:induction false} CursorStays(b: Block, m: nat, n: nat)
    requires m <= n <= |b.sentences| && Missed(b, m, n)
    ensures Cursor(b, n) == Cursor(b, m)
    decreases n
  {
    if m < n {
      assert Cursor(b, n) == Cursor(b, n - 1) by {
        assert !Found(b, n - 1);
        CursorStep(b, n - 1);
      }
      CursorStays(b, m, n - 1);
    }
  }

  // The search for a sentence starts right behind the start of the last one found.
  lemma SearchStartsIff(b: Block, i: nat, n: nat)
    requires i < n <= |b.sentences| && Found(b, i) && Missed(b, i + 1, n)
    ensures Cursor(b, n) == OffsetOf(b, i) + 1
  {
    assert Cursor(b, i + 1) == OffsetOf(b, i) + 1 by {
      CursorStep(b, i);
    }
    CursorStays(b, i + 1, n);
  }

  lemma CursorStep(b: Block, i: nat)
    requires i < |b.sentences|
    ensures Cursor(b, i + 1) == if Found(b, i) then OffsetOf(b, i) + 1 else Cursor(b, i)
    ensures !Found(b, i) ==> OffsetOf(b, i) == Cursor(b, i)
  {
  }

  lemma FoundBehind(b: Block, j: nat)
    requires j < |b.sentences|
    ensures Cursor(b, j) <= OffsetOf(b, j)
  {
    CursorMoves(b, j);
  }

  lemma CursorBehind(b: Block, i: nat) returns (n: nat)
    requires i < |b.sentences| && Found(b, i)
    ensures n == i + 1 && Cursor(b, n) == OffsetOf(b, i) + 1
  {
    n := i + 1;
    CursorStep(b, i);
  }

  // Two sentences are never found in the same place.
  lemma FoundFurtherOn(b: Block, i: nat, j: nat)
    requires i < j < |b.sentences| && Found(b, i) && Found(b, j)
    ensures OffsetOf(b, i) < OffsetOf(b, j)
  {
    FoundBehind(b, j);
    var n := CursorBehind(b, i);
    CursorsAscend(b, n, j);
  }

  lemma CursorGrows(b: Block, i: nat, j: nat)
    requires i < |b.sentences| && j == i + 1
    ensures Cursor(b, i) <= Cursor(b, j)
  {
    CursorMoves(b, i);
  }

  lemma {:induction false} CursorsAscend(b: Block, i: nat, j: nat)
    requires i <= j <= |b.sentences|
    ensures Cursor(b, i) <= Cursor(b, j)
    decreases j
  {
    if i < j {
      CursorGrows(b, j - 1, j);
      CursorsAscend(b, i, j - 1);
    }
  }

  // A sentence that is not found goes with the text behind the start of the last one
  // that was, or with the start of the block.
  lemma MissedFollows(b: Block, i: nat, j: nat)
    requires i < j < |b.sentences| && !Found(b, j) && Found(b, i) && Missed(b, i + 1, j)
    ensures OffsetOf(b, j) == OffsetOf(b, i) + 1
  {
    SearchStartsIff(b, i, j);
    CursorStep(b, j);
  }

  lemma MissedFirst(b: Block, j: nat)
    requires j < |b.sentences| && Missed(b, 0, j + 1)
    ensures OffsetOf(b, j) == 0
  {
    assert !Found(b, j);
    CursorStays(b, 0, j);
    CursorStep(b, j);
  }

  predicate Translated(s: Sentence) {
    s.target.Some? && s.target.value.text != ""
  }

  // Its target was that of an earlier sentence already.
  predicate Repeats(b: Block, i: nat)
    requires i < |b.sentences| && Translated(b.sentences[i])
  {
    exists j: nat :: j < i && Translated(b.sentences[j]) && b.sentences[j].target.value.id == b.sentences[i].target.value.id
  }

  lemma KeptIff(b: Block, i: nat)
    requires i < |b.sentences|
    ensures var s := b.sentences[i];
            FateOf(b, i).Kept? <==> Translated(s) && !Repeats(b, i) && !s.target.value.stub
  {
    if Translated(b.sentences[i]) {
      SeenIff(b, i, b.sentences[i].target.value.id);
    }
  }

  lemma ReportedIff(b: Block, i: nat)
    requires i < |b.sentences|
    ensures FateOf(b, i).Missing? || FateOf(b, i).Stub? <==> Reported(b, i)
  {
    if Translated(b.sentences[i]) {
      SeenIff(b, i, b.sentences[i].target.value.id);
    }
  }

  predicate Reported(b: Block, i: nat) {
    i < |b.sentences| &&
    (!Translated(b.sentences[i]) || (!Repeats(b, i) && b.sentences[i].target.value.stub))
  }

  // `at` lists the reported sentences below n.
  ghost predicate Reports(b: Block, n: nat, at: seq<nat>, sources: seq<string>) {
    && |at| == |sources| && Increasing(at)
    && (forall k: nat :: k < |at| ==> at[k] < n && at[k] < |b.sentences| && sources[k] == b.sentences[at[k]].source)
    && (forall i: nat :: i in at <==> i < n && Reported(b, i))
  }

  lemma ReportsStep(b: Block, n: nat, before: seq<nat>, sources: seq<string>) returns (at: seq<nat>)
    requires n < |b.sentences| && Reports(b, n, before, sources)
    ensures Reports(b, n + 1, at, if Reported(b, n) then sources + [b.sentences[n].source] else sources)
  {
    at := before;
    if Reported(b, n) {
      at := before + [n];
      assert forall k: nat :: k < |before| ==> at[k] == before[k];
      forall i: nat ensures i in at <==> i < n + 1 && Reported(b, i) {
        assert i in at <==> i in before || i == n;
      }
    }
  }

  // The sources without a translation, and those whose translation is a stub that
  // comes for the first time, are reported, in order, and no others.
  lemma {:induction false} UntranslatedIs(b: Block, n: nat) returns (at: seq<nat>)
    requires n <= |b.sentences|
    ensures Reports(b, n, at, UntranslatedBelow(b, n))
  {
    if n == 0 {
      at := [];
    } else {
      var before := UntranslatedIs(b, n - 1);
      at := UntranslatedGrows(b, n - 1, n, before);
    }
  }

  lemma UntranslatedGrows(b: Block, i: nat, n: nat, before: seq<nat>) returns (at: seq<nat>)
    requires i < |b.sentences| && n == i + 1 && Reports(b, i, before, UntranslatedBelow(b, i))
    ensures Reports(b, n, at, UntranslatedBelow(b, n))
  {
    at := ReportsStep(b, i, before, UntranslatedBelow(b, i));
    ReportedIff(b, i);
    UntranslatedStep(b, i);
  }

  // By target ordinal, and by position where ordinals are equal.
  ghost predicate ComesBefore(b: Block, i: nat, j: nat)
    requires i < |b.sentences| && j < |b.sentences| && Translated(b.sentences[i]) && Translated(b.sentences[j])
  {
    var x, y := b.sentences[i].target.value.ordinal, b.sentences[j].target.value.ordinal;
    x < y || (x == y && i < j)
  }

  // `order` lists the sentences whose translation is shown for paragraph k.
  ghost predicate ShowsInOrder(b: Block, k: nat, group: seq<string>, order: seq<nat>) {
    && |order| == |group|
    && (forall x: nat :: x < |order| ==>
          && order[x] < |b.sentences| && Translated(b.sentences[order[x]])
          && group[x] == b.sentences[order[x]].target.value.chunk)
    && (forall x: nat, y: nat :: x < y < |order| ==> ComesBefore(b, order[x], order[y]))
    && (forall i: nat :: i < |b.sentences| ==>
          (i in order <==>
            && Translated(b.sentences[i]) && !Repeats(b, i) && !b.sentences[i].target.value.stub && Para(b, i) == k))
  }

  lemma GroupShows(b: Block, k: nat) returns (order: seq<nat>)
    ensures ShowsInOrder(b, k, GroupOf(Verdicts(b, |b.sentences|), k), order)
  {
    var v := Verdicts(b, |b.sentences|);
    order := SortIndices(v, Bucket(v, k));
    GroupIsSortedBucket(v, k);
    forall i: nat | i < |b.sentences|
      ensures In(v, i, k) <==>
                && Translated(b.sentences[i]) && !Repeats(b, i) && !b.sentences[i].target.value.stub && Para(b, i) == k
    {
      KeptIff(b, i);
    }
    OrderShows(b, k, v, order);
  }

  lemma OrderShows(b: Block, k: nat, v: seq<Verdict>, order: seq<nat>)
    requires v == Verdicts(b, |b.sentences|) && StablySorted(v, order)
    requires forall i: nat :: i in order <==> In(v, i, k)
    ensures forall x: nat :: x < |order| ==>
              && order[x] < |b.sentences| && Translated(b.sentences[order[x]])
              && Chunks(v, order)[x] == b.sentences[order[x]].target.value.chunk
    ensures forall x: nat, y: nat :: x < y < |order| ==>
              order[x] < |b.sentences| && order[y] < |b.sentences| && ComesBefore(b, order[x], order[y])
  {
    forall x: nat | x < |order|
      ensures order[x] < |b.sentences| && Translated(b.sentences[order[x]])
      ensures Chunk(v, order[x]) == b.sentences[order[x]].target.value.chunk
      ensures Ordinal(v, order[x]) == b.sentences[order[x]].target.value.ordinal
    {
      assert In(v, order[x], k);
    }
  }

  // Dropping empty groups at the end drops nothing else.
  lemma {:induction false} TrimIs(groups: seq<seq<string>>)
    ensures var r := Trim(groups);
            && r <= groups && (r != [] ==> r[|r| - 1] != [])
            && forall k: nat :: |r| <= k < |groups| ==> groups[k] == []
  {
    if groups != [] && groups[|groups| - 1] == [] {
      TrimIs(groups[..|groups| - 1]);
    }
  }
}
