// Paragraph continuation links and the chains built from them
// (scripts/export_chapter_zh_html.py:2957-3069).
module Continuations {
  import opened Wrappers
  import opened ChapterBlocks

  predicate ContinuesInto(prev: Block, next: Block) {
    && !prev.blank && !next.blank
    && prev.endsLower && next.startsLower
    && !prev.headerLike && !next.headerLike
  }

  // The block at `k` is the paragraph the exporter finds when it looks ahead from
  // `i`, past at most two page headers.
  predicate Adjacent(blocks: seq<Block>, i: nat, k: nat) {
    && i < k < |blocks| && k <= i + 3
    && blocks[k].kind.Paragraph? && !IsPageHeader(blocks[k])
    && forall h :: i < h < k ==> IsPageHeader(blocks[h])
  }

  // The paragraph at `i` flows into the paragraph at `k`. `hidden` holds the
  // blocks that earlier passes already took out of the reading flow.
  predicate Links(blocks: seq<Block>, hidden: set<nat>, i: nat, k: nat) {
    && Adjacent(blocks, i, k)
    && blocks[i].kind.Paragraph?
    && i !in hidden && k !in hidden
    && ContinuesInto(blocks[i], blocks[k])
  }

  // The page headers that a link steps over.
  ghost predicate SteppedOver(blocks: seq<Block>, hidden: set<nat>, h: nat) {
    exists i: nat, k: nat :: Links(blocks, hidden, i, k) && i < h < k
  }

  // The links are a partial matching: a paragraph has at most one continuation
  // and continues at most one paragraph.
  lemma LinksAreAMatching(blocks: seq<Block>, hidden: set<nat>, i: nat, k: nat, i': nat, k': nat)
    requires Links(blocks, hidden, i, k) && Links(blocks, hidden, i', k')
    ensures i == i' <==> k == k'
    ensures i < i' ==> k <= i'
  {
    assert IsPageHeader(blocks[i']) || i' <= i || k <= i';
    assert IsPageHeader(blocks[i]) || i <= i' || k' <= i;
  }

  // `contOf` records exactly the links whose source lies below `bound`.
  ghost predicate Records(blocks: seq<Block>, hidden: set<nat>, contOf: map<nat, nat>, bound: nat) {
    && (forall k: nat :: k in contOf ==> Links(blocks, hidden, contOf[k], k) && contOf[k] < bound)
    && (forall i: nat, k: nat :: Links(blocks, hidden, i, k) && i < bound ==> k in contOf && contOf[k] == i)
  }

  // A next-map that only ever leads forward in a list of n blocks, one to one.
  ghost predicate Forward(next: map<nat, nat>, n: nat) {
    && (forall i :: i in next ==> i < next[i] < n)
    && (forall i, j :: i in next && j in next && next[i] == next[j] ==> i == j)
  }

  ghost predicate Inverse(contOf: map<nat, nat>, next: map<nat, nat>) {
    && (forall k :: k in contOf ==> contOf[k] in next && next[contOf[k]] == k)
    && (forall i :: i in next ==> next[i] in contOf && contOf[next[i]] == i)
  }

  // The continuations reached from i, in order.
  function Chain(next: map<nat, nat>, n: nat, i: nat): (c: seq<nat>)
    requires Forward(next, n)
    ensures forall t :: 0 <= t < |c| ==> i < c[t] < n
    decreases n - i
  {
    if i in next then [next[i]] + Chain(next, n, next[i]) else []
  }

  function Members(c: seq<nat>): set<nat> {
    set k | k in c
  }

  // Walking the links backwards from k to the paragraph that starts its chain.
  function HeadOf(contOf: map<nat, nat>, k: nat): (h: nat)
    requires forall j :: j in contOf ==> contOf[j] < j
    ensures h <= k && h !in contOf
    ensures h == k <==> k !in contOf
  {
    if k in contOf then HeadOf(contOf, contOf[k]) else k
  }

  lemma {:induction false} ChainIsReadingOrder(next: map<nat, nat>, n: nat, i: nat)
    requires Forward(next, n)
    ensures var c := Chain(next, n, i);
            && (|c| > 0 ==> i in next && c[0] == next[i])
            && (forall t :: 0 <= t < |c| - 1 ==> c[t] in next && c[t + 1] == next[c[t]])
            && (forall s, t :: 0 <= s < t < |c| ==> c[s] < c[t])
    decreases n - i
  {
    if i in next {
      ChainIsReadingOrder(next, n, next[i]);
    }
  }

  lemma {:induction false} ChainMembersShareHead(contOf: map<nat, nat>, next: map<nat, nat>, n: nat, i: nat)
    requires Forward(next, n) && Inverse(contOf, next)
    requires forall j :: j in contOf ==> contOf[j] < j
    ensures forall k :: k in Chain(next, n, i) ==> k in contOf && HeadOf(contOf, k) == HeadOf(contOf, i)
    decreases n - i
  {
    if i in next {
      ChainMembersShareHead(contOf, next, n, next[i]);
    }
  }

  lemma {:induction false} ContinuationIsInHeadsChain(contOf: map<nat, nat>, next: map<nat, nat>, n: nat, k: nat)
    requires Forward(next, n) && Inverse(contOf, next)
    requires forall j :: j in contOf ==> contOf[j] < j
    ensures k in contOf ==> k in Chain(next, n, HeadOf(contOf, k))
    decreases k
  {
    if k in contOf {
      var p := contOf[k];
      ContinuationIsInHeadsChain(contOf, next, n, p);
      ChainStepStaysInside(next, n, HeadOf(contOf, k), p);
    }
  }

  // Whatever directly follows a chain's start or one of its members is in the chain.
  lemma {:induction false} ChainStepStaysInside(next: map<nat, nat>, n: nat, i: nat, p: nat)
    requires Forward(next, n) && p in next
    requires p == i || p in Chain(next, n, i)
    ensures next[p] in Chain(next, n, i)
    decreases n - i
  {
    if p != i {
      ChainStepStaysInside(next, n, next[i], p);
    }
  }

  // Every continuation lies in the chain of exactly one head.
  lemma ContinuationHasExactlyOneHead(contOf: map<nat, nat>, next: map<nat, nat>, n: nat, k: nat, h: nat)
    requires Forward(next, n) && Inverse(contOf, next)
    requires forall j :: j in contOf ==> contOf[j] < j
    requires k in contOf && h !in contOf
    ensures k in Chain(next, n, h) <==> h == HeadOf(contOf, k)
  {
    ContinuationIsInHeadsChain(contOf, next, n, k);
    ChainMembersShareHead(contOf, next, n, h);
  }

  // The continuations whose chain starts below b.
  ghost function Claimed(contOf: map<nat, nat>, b: nat): set<nat>
    requires forall j :: j in contOf ==> contOf[j] < j
  {
    set k | k in contOf && HeadOf(contOf, k) < b
  }

  lemma InverseGoesBack(contOf: map<nat, nat>, next: map<nat, nat>, n: nat)
    requires Inverse(contOf, next) && Forward(next, n)
    ensures forall j :: j in contOf ==> contOf[j] < j < n
  {
  }

  lemma AllClaimed(contOf: map<nat, nat>, n: nat)
    requires forall j :: j in contOf ==> contOf[j] < j < n
    ensures Claimed(contOf, n) == contOf.Keys
  {
  }

  // One round of the chain-building loop, for the skip set.
  lemma ClaimedStep(contOf: map<nat, nat>, next: map<nat, nat>, n: nat, b: nat, skip0: set<nat>, skip: set<nat>)
    requires Forward(next, n) && Inverse(contOf, next)
    requires forall j :: j in contOf ==> contOf[j] < j
    requires skip == skip0 + Claimed(contOf, b)
    ensures b in contOf ==> skip == skip0 + Claimed(contOf, b + 1)
    ensures b !in contOf ==> skip + Members(Chain(next, n, b)) == skip0 + Claimed(contOf, b + 1)
  {
    if b !in contOf {
      forall k | k in contOf ensures HeadOf(contOf, k) == b <==> k in Chain(next, n, b) {
        ContinuationHasExactlyOneHead(contOf, next, n, k, b);
      }
      ChainMembersShareHead(contOf, next, n, b);
      assert Claimed(contOf, b + 1) == Claimed(contOf, b) + Members(Chain(next, n, b));
    } else {
      assert Claimed(contOf, b + 1) == Claimed(contOf, b);
    }
  }

  // The chains whose start lies below b.
  ghost function ChainsBelow(contOf: map<nat, nat>, next: map<nat, nat>, n: nat, b: nat): map<nat, seq<nat>>
    requires Forward(next, n)
  {
    map h | h in next && h !in contOf && h < b :: Chain(next, n, h)
  }

  // One round of the chain-building loop, for the chains.
  lemma ChainsStep(contOf: map<nat, nat>, next: map<nat, nat>, n: nat, b: nat)
    requires Forward(next, n)
    ensures ChainsBelow(contOf, next, n, b + 1)
         == if b in next && b !in contOf then ChainsBelow(contOf, next, n, b)[b := Chain(next, n, b)]
            else ChainsBelow(contOf, next, n, b)
    ensures b !in next ==> Members(Chain(next, n, b)) == {}
  {
  }

  // Everything between the start of a chain and one of its members is in the
  // chain too, or is a page header the links stepped over.
  lemma {:induction false} ChainHasNoGaps(blocks: seq<Block>, hidden: set<nat>, contOf: map<nat, nat>, k: nat, p: nat)
    requires Records(blocks, hidden, contOf, |blocks|)
    requires forall j :: j in contOf ==> contOf[j] < j
    requires k in contOf && HeadOf(contOf, k) < p <= k
    ensures p in contOf || SteppedOver(blocks, hidden, p)
    decreases k
  {
    var q := contOf[k];
    assert Links(blocks, hidden, q, k);
    if p <= q {
      ChainHasNoGaps(blocks, hidden, contOf, q, p);
    }
  }

  // What the exporter promises of its links, for any chapter.
  lemma RecordedLinksGoForward(blocks: seq<Block>, hidden: set<nat>, contOf: map<nat, nat>, next: map<nat, nat>)
    requires Records(blocks, hidden, contOf, |blocks|) && Inverse(contOf, next)
    ensures Forward(next, |blocks|)
    ensures forall j :: j in contOf ==> contOf[j] < j
    ensures forall i :: i in next ==> forall h :: i < h < next[i] ==> IsPageHeader(blocks[h])
  {
  }

  // Looking ahead from `i`.
  method NextProse(blocks: seq<Block>, i: nat) returns (headers: set<nat>, next: Option<nat>)
    requires i < |blocks|
    ensures forall k: nat :: Adjacent(blocks, i, k) <==> next == Some(k)
    ensures next.Some? ==> forall h :: h in headers <==> i < h < next.value
  {
    var j := i + 1;
    headers, next := {}, None;
    while j < |blocks| && j <= i + 3
      invariant i < j <= |blocks| && j <= i + 4
      invariant forall h :: h in headers <==> i < h < j
      invariant forall h :: i < h < j ==> IsPageHeader(blocks[h])
      invariant next.None?
    {
      if IsPageHeader(blocks[j]) {
        headers := headers + {j};
        j := j + 1;
        continue;
      }
      if blocks[j].kind.Paragraph? {
        next := Some(j);
      }
      break;
    }
  }

  // `skip` has grown by exactly the page headers under links that start below `bound`.
  ghost predicate StepsOver(blocks: seq<Block>, hidden: set<nat>, skip0: set<nat>, skip: set<nat>, bound: nat) {
    && skip0 <= skip
    && (forall h :: h in skip && h !in skip0 ==>
          h < |blocks| && IsPageHeader(blocks[h]) && SteppedOver(blocks, hidden, h))
    && (forall i: nat, k: nat, h: nat :: Links(blocks, hidden, i, k) && i < bound && i < h < k ==> h in skip)
  }

  lemma RecordsStep(blocks: seq<Block>, hidden: set<nat>, contOf: map<nat, nat>, i: nat, k: nat)
    requires Records(blocks, hidden, contOf, i) && Links(blocks, hidden, i, k)
    ensures Records(blocks, hidden, contOf[k := i], i + 1)
  {
    forall i': nat, k': nat | Links(blocks, hidden, i', k') ensures i' == i <==> k' == k {
      LinksAreAMatching(blocks, hidden, i, k, i', k');
    }
  }

  // The linking pass. `skip` is the exporter's skip_render_block_ids, which the
  // pass both tests and extends.
  method LinkContinuations(blocks: seq<Block>, skip0: set<nat>, clusterSkip: set<nat>)
    returns (contOf: map<nat, nat>, skip: set<nat>)
    ensures Records(blocks, skip0 + clusterSkip, contOf, |blocks|)
    ensures forall h :: h in skip <==> h in skip0 || SteppedOver(blocks, skip0 + clusterSkip, h)
  {
    ghost var hidden := skip0 + clusterSkip;
    contOf, skip := map[], skip0;
    for i := 0 to |blocks|
      invariant Records(blocks, hidden, contOf, i)
      invariant StepsOver(blocks, hidden, skip0, skip, i)
    {
      var prev := blocks[i];
      if !prev.kind.Paragraph? || i in skip || i in clusterSkip || prev.blank || prev.headerLike {
        continue;
      }
      var headers, next := NextProse(blocks, i);
      if next.None? || next.value in skip || next.value in clusterSkip
         || !ContinuesInto(prev, blocks[next.value]) {
        continue;
      }
      assert Links(blocks, hidden, i, next.value);
      RecordsStep(blocks, hidden, contOf, i, next.value);
      contOf := contOf[next.value := i];
      skip := skip + headers;
    }
  }

  // Turning the recorded links around.
  method Invert(contOf: map<nat, nat>) returns (next: map<nat, nat>)
    requires forall j, k :: j in contOf && k in contOf && contOf[j] == contOf[k] ==> j == k
    ensures Inverse(contOf, next)
  {
    next := map[];
    var todo := contOf.Keys;
    while todo != {}
      invariant todo <= contOf.Keys
      invariant forall k :: k in contOf && k !in todo ==> contOf[k] in next && next[contOf[k]] == k
      invariant forall i :: i in next ==> next[i] in contOf && next[i] !in todo && contOf[next[i]] == i
      decreases todo
    {
      var k :| k in todo;
      next := next[contOf[k] := k];
      todo := todo - {k};
    }
  }

  // Following the links from a chain start, taking every block passed out of the
  // reading flow.
  method Follow(next: map<nat, nat>, n: nat, start: nat, skip0: set<nat>) returns (chain: seq<nat>, skip: set<nat>)
    requires Forward(next, n)
    ensures chain == Chain(next, n, start)
    ensures skip == skip0 + Members(chain)
  {
    chain, skip := [], skip0;
    var cur := start;
    while cur in next
      invariant chain + Chain(next, n, cur) == Chain(next, n, start)
      invariant skip == skip0 + Members(chain)
      decreases n - cur
    {
      cur := next[cur];
      chain := chain + [cur];
      skip := skip + {cur};
    }
  }

  // One chain per paragraph that is linked forward but continues nothing; every
  // continuation ends up in `skip`.
  method BuildChains(n: nat, contOf: map<nat, nat>, next: map<nat, nat>, skip0: set<nat>)
    returns (chains: map<nat, seq<nat>>, skip: set<nat>)
    requires Inverse(contOf, next) && Forward(next, n)
    ensures chains == ChainsBelow(contOf, next, n, n)
    ensures skip == skip0 + contOf.Keys
  {
    InverseGoesBack(contOf, next, n);
    chains, skip := map[], skip0;
    for b := 0 to n
      invariant chains == ChainsBelow(contOf, next, n, b)
      invariant skip == skip0 + Claimed(contOf, b)
    {
      ChainsStep(contOf, next, n, b);
      ClaimedStep(contOf, next, n, b, skip0, skip);
      if b in contOf {
        continue;
      }
      if b in next {
        var chain;
        chain, skip := Follow(next, n, b, skip);
        chains := chains[b := chain];
      }
    }
    AllClaimed(contOf, n);
  }
}
