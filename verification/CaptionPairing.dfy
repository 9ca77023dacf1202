// Fallback pairing of figures the parser left without a caption
// (scripts/export_chapter_zh_html.py:2511-2551).
module CaptionPairing {
  import opened Wrappers
  import opened ChapterBlocks

  predicate Unlinked(blocks: seq<Block>, f: nat) {
    f < |blocks| && blocks[f].kind.Figure? && blocks[f].linkedAnchor.None?
  }

  function Distance(blocks: seq<Block>, f: nat, c: nat): nat
    requires f < |blocks| && c < |blocks|
  {
    var d := blocks[c].ordinal - blocks[f].ordinal;
    if d < 0 then -d else d
  }

  // The caption at `c` may be given to the figure at `f`.
  predicate Eligible(blocks: seq<Block>, taken: set<nat>, f: nat, c: nat) {
    && f < |blocks| && c < |blocks|
    && blocks[c].kind.Caption? && blocks[c].realCaption && c !in taken
    && blocks[f].page.Some? && blocks[c].page == blocks[f].page
    && Distance(blocks, f, c) <= 10
  }

  // Nearest by ordinal; the earlier one of two equally near captions.
  predicate Nearest(blocks: seq<Block>, taken: set<nat>, f: nat, c: nat) {
    && Eligible(blocks, taken, f, c)
    && forall c': nat :: c' < |blocks| && Eligible(blocks, taken, f, c') ==>
         Distance(blocks, f, c) < Distance(blocks, f, c')
         || (Distance(blocks, f, c) == Distance(blocks, f, c') && c <= c')
  }

  // The captions handed to figures before `f`.
  ghost function GivenBefore(pairs: map<nat, nat>, f: nat): set<nat> {
    set g: nat | g in pairs && g < f :: pairs[g]
  }

  // The figure at `f` gets the nearest caption still free at its turn, and goes
  // without exactly when none is eligible.
  ghost predicate Served(blocks: seq<Block>, taken: set<nat>, pairs: map<nat, nat>, f: nat) {
    if f in pairs then Unlinked(blocks, f) && Nearest(blocks, taken, f, pairs[f])
    else Unlinked(blocks, f) ==> forall c: nat :: !Eligible(blocks, taken, f, c)
  }

  // Figures are served in reading order.
  ghost predicate Greedy(blocks: seq<Block>, taken0: set<nat>, pairs: map<nat, nat>, bound: nat) {
    && (forall f: nat :: f in pairs ==> f < bound)
    && (forall f: nat :: f < bound ==> Served(blocks, taken0 + GivenBefore(pairs, f), pairs, f))
  }

  // The search for one figure.
  method FindNearest(blocks: seq<Block>, taken: set<nat>, f: nat) returns (best: Option<nat>)
    requires f < |blocks|
    ensures best.Some? ==> Nearest(blocks, taken, f, best.value)
    ensures best.None? ==> forall c: nat :: !Eligible(blocks, taken, f, c)
  {
    best := None;
    var bestDist := 11;
    for c := 0 to |blocks|
      invariant best.None? ==> bestDist == 11 && forall c': nat :: c' < c ==> !Eligible(blocks, taken, f, c')
      invariant best.Some? ==>
        && best.value < c && Eligible(blocks, taken, f, best.value)
        && bestDist == Distance(blocks, f, best.value)
        && forall c': nat :: c' < c && Eligible(blocks, taken, f, c') ==>
             bestDist < Distance(blocks, f, c') || (bestDist == Distance(blocks, f, c') && best.value <= c')
    {
      if !blocks[c].kind.Caption? || !blocks[c].realCaption || c in taken {
        continue;
      }
      if blocks[c].page != blocks[f].page || blocks[f].page.None? {
        continue;
      }
      var dist := Distance(blocks, f, c);
      if dist >= 11 || dist >= bestDist {
        continue;
      }
      best, bestDist := Some(c), dist;
    }
  }

  method PairCaptions(blocks: seq<Block>, taken0: set<nat>) returns (pairs: map<nat, nat>, taken: set<nat>)
    ensures Greedy(blocks, taken0, pairs, |blocks|)
    ensures taken == taken0 + GivenBefore(pairs, |blocks|)
  {
    pairs, taken := map[], taken0;
    for i := 0 to |blocks|
      invariant Greedy(blocks, taken0, pairs, i)
      invariant taken == taken0 + GivenBefore(pairs, i)
    {
      ghost var before := pairs;
      if blocks[i].kind.Figure? && blocks[i].linkedAnchor.None? {
        var best := FindNearest(blocks, taken, i);
        if best.Some? {
          pairs := pairs[i := best.value];
          taken := taken + {best.value};
        }
      }
      GreedyStep(blocks, taken0, before, pairs, i);
    }
  }

  lemma GreedyStep(blocks: seq<Block>, taken0: set<nat>, before: map<nat, nat>, after: map<nat, nat>, i: nat)
    requires Greedy(blocks, taken0, before, i)
    requires after == before || (i in after && after == before[i := after[i]])
    requires Served(blocks, taken0 + GivenBefore(before, i), after, i)
    ensures Greedy(blocks, taken0, after, i + 1)
    ensures GivenBefore(after, i + 1) == GivenBefore(before, i) + (if i in after then {after[i]} else {})
  {
    forall f: nat | f <= i ensures GivenBefore(after, f) == GivenBefore(before, f) {
      SameBefore(before, after, f);
    }
    assert i !in before;
    GivenStep(after, i);
    forall f: nat | f < i + 1 ensures Served(blocks, taken0 + GivenBefore(after, f), after, f) {
      if f < i {
        assert Served(blocks, taken0 + GivenBefore(before, f), before, f);
      }
    }
  }

  lemma GivenStep(pairs: map<nat, nat>, i: nat)
    ensures GivenBefore(pairs, i + 1) == GivenBefore(pairs, i) + (if i in pairs then {pairs[i]} else {})
  {
  }

  lemma SameBefore(a: map<nat, nat>, b: map<nat, nat>, f: nat)
    requires forall g: nat :: g < f ==> (g in a <==> g in b) && (g in a ==> a[g] == b[g])
    ensures GivenBefore(a, f) == GivenBefore(b, f)
  {
  }

  // The pairing is an injective matching on one page, within ten ordinals, and
  // never hands out a caption that was spoken for.
  lemma PairingIsAMatching(blocks: seq<Block>, taken0: set<nat>, pairs: map<nat, nat>, f: nat, g: nat)
    requires Greedy(blocks, taken0, pairs, |blocks|) && f in pairs && g in pairs
    ensures pairs[f] == pairs[g] <==> f == g
    ensures pairs[f] !in taken0 && pairs[f] < |blocks|
    ensures blocks[pairs[f]].page == blocks[f].page && Distance(blocks, f, pairs[f]) <= 10
  {
    assert Served(blocks, taken0 + GivenBefore(pairs, f), pairs, f);
    assert Served(blocks, taken0 + GivenBefore(pairs, g), pairs, g);
    assert g < f ==> pairs[g] in GivenBefore(pairs, f);
    assert f < g ==> pairs[f] in GivenBefore(pairs, g);
  }

  // The greedy rule leaves no choice: there is one such pairing.
  lemma {:induction false} PairingIsUnique(blocks: seq<Block>, taken0: set<nat>, a: map<nat, nat>, b: map<nat, nat>, f: nat)
    requires Greedy(blocks, taken0, a, |blocks|) && Greedy(blocks, taken0, b, |blocks|)
    ensures f in a <==> f in b
    ensures f in a ==> a[f] == b[f]
  {
    forall g: nat | g < f ensures (g in a <==> g in b) && (g in a ==> a[g] == b[g]) {
      PairingIsUnique(blocks, taken0, a, b, g);
    }
    SameBefore(a, b, f);
    if f < |blocks| {
      assert Served(blocks, taken0 + GivenBefore(a, f), a, f);
      assert Served(blocks, taken0 + GivenBefore(b, f), b, f);
    }
  }
}
