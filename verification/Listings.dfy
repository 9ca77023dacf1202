// Grouping the paragraphs under a "Listing N.M" header into its code body
// (scripts/export_chapter_zh_html.py:3346-3446).
module Listings {
  import opened ChapterBlocks

  // A block the listing scan passes over without ending the listing.
  predicate InListing(b: Block) {
    || b.annotated
    || b.kind.Code?
    || (b.kind.Paragraph? && !b.headerLike && !b.listingHeader && b.codeShaped)
  }

  predicate IsHeader(blocks: seq<Block>, h: nat) {
    h < |blocks| && blocks[h].kind.Paragraph? && blocks[h].listingHeader
  }

  // `x` is taken into the listing opened by `h`: it is among the twelve blocks
  // after `h` and nothing between ends the listing.
  predicate Absorbs(blocks: seq<Block>, h: nat, x: nat) {
    && IsHeader(blocks, h)
    && h < x < |blocks| && x < h + 13
    && forall k :: h < k <= x ==> InListing(blocks[k])
  }

  // ... and its source text is printed in the code body.
  predicate Prints(blocks: seq<Block>, h: nat, x: nat) {
    Absorbs(blocks, h, x) && !blocks[x].annotated
  }

  // The positions in [h+1, end) printed by `h`, in reading order.
  function Printed(blocks: seq<Block>, h: nat, end: nat): (s: seq<nat>)
    requires h < end <= |blocks|
    ensures forall t :: 0 <= t < |s| ==> h < s[t] < end
    ensures forall u, t :: 0 <= u < t < |s| ==> s[u] < s[t]
    ensures forall x :: x in s <==> h < x < end && Prints(blocks, h, x)
    decreases end
  {
    if end == h + 1 then []
    else Printed(blocks, h, end - 1) + (if Prints(blocks, h, end - 1) then [end - 1] else [])
  }

  // A header inside another header's listing can only be a suppressed annotation.
  lemma NestedHeaderIsAnnotated(blocks: seq<Block>, h: nat, h': nat, x: nat)
    requires Absorbs(blocks, h, x) && IsHeader(blocks, h') && h < h' <= x
    ensures blocks[h'].annotated
  {
    assert InListing(blocks[h']);
  }

  // The scan from one header.
  method ScanListing(blocks: seq<Block>, h: nat) returns (ids: set<nat>, sources: seq<nat>)
    requires IsHeader(blocks, h)
    ensures forall x :: x in ids <==> Absorbs(blocks, h, x)
    ensures sources == Printed(blocks, h, |blocks|)
  {
    ids, sources := {}, [];
    var j := h + 1;
    var end := Min(h + 13, |blocks|);
    while j < end
      invariant h < j <= end
      invariant forall k :: h < k < j ==> InListing(blocks[k])
      invariant forall x :: x in ids <==> h < x < j
      invariant sources == Printed(blocks, h, j)
    {
      var b := blocks[j];
      if b.annotated {
        ids := ids + {j};
      } else if b.kind.Code? {
        sources := sources + [j];
        ids := ids + {j};
      } else if !b.kind.Paragraph? || b.headerLike || b.listingHeader || !b.codeShaped {
        break;
      } else {
        sources := sources + [j];
        ids := ids + {j};
      }
      j := j + 1;
    }
    NothingPrintedBeyond(blocks, h, j, |blocks|);
  }

  lemma {:induction false} NothingPrintedBeyond(blocks: seq<Block>, h: nat, j: nat, end: nat)
    requires h < j <= end <= |blocks|
    requires j < |blocks| && j < h + 13 ==> !InListing(blocks[j])
    ensures Printed(blocks, h, end) == Printed(blocks, h, j)
  {
    if j < end {
      NothingPrintedBeyond(blocks, h, j, end - 1);
      assert !Prints(blocks, h, end - 1);
    }
  }

  // `bodies[h]` lists what header `h` prints; `absorbed` is everything any listing takes.
  method AbsorbListings(blocks: seq<Block>) returns (bodies: map<nat, seq<nat>>, absorbed: set<nat>)
    ensures forall h: nat :: h in bodies <==> IsHeader(blocks, h)
    ensures forall h: nat :: h in bodies ==> h < |blocks| && bodies[h] == Printed(blocks, h, |blocks|)
    ensures forall x: nat :: x in absorbed <==> exists h: nat :: Absorbs(blocks, h, x)
  {
    bodies, absorbed := map[], {};
    for i := 0 to |blocks|
      invariant forall h: nat :: h in bodies <==> h < i && IsHeader(blocks, h)
      invariant forall h: nat :: h in bodies ==> h < |blocks| && bodies[h] == Printed(blocks, h, |blocks|)
      invariant forall x: nat :: x in absorbed <==> exists h: nat :: h < i && Absorbs(blocks, h, x)
    {
      if blocks[i].kind.Paragraph? && blocks[i].listingHeader {
        var ids, sources := ScanListing(blocks, i);
        bodies := bodies[i := sources];
        absorbed := absorbed + ids;
      }
    }
  }
}
