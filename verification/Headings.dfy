// Heading fragments that the parser sliced off the sentence they open
// (scripts/export_chapter_zh_html.py:2865-2955).
module Headings {
  import opened ChapterBlocks

  // The heading at `i` is a fragment of the text block right after it.
  predicate Glues(blocks: seq<Block>, i: nat) {
    && i + 1 < |blocks|
    && blocks[i].kind.Heading? && !blocks[i].blank && !blocks[i].artifact
    && !blocks[i + 1].blank
    && (blocks[i + 1].kind.Paragraph? || blocks[i + 1].kind.ListItem?)
    && blocks[i + 1].ordinal - blocks[i].ordinal <= 1
    && blocks[i + 1].opensLower
    && (blocks[i].orphanLead || blocks[i].shortNoun)
  }

  // ... and its translation must be put back in front of that block.
  predicate Prepends(blocks: seq<Block>, i: nat) {
    Glues(blocks, i) && (blocks[i].calloutLead || blocks[i].shortNoun)
  }

  predicate GluedOnto(blocks: seq<Block>, k: nat) {
    k >= 1 && Glues(blocks, k - 1)
  }

  predicate PrependedTo(blocks: seq<Block>, k: nat) {
    k >= 1 && Prepends(blocks, k - 1)
  }

  // Passes over `glued` (block to its heading), `prepended` (the subset whose
  // heading is put back in front) and the headings taken out of the flow.
  method GlueHeadings(blocks: seq<Block>)
    returns (glued: map<nat, nat>, prepended: map<nat, nat>, skip: set<nat>)
    ensures forall k: nat :: k in glued <==> GluedOnto(blocks, k)
    ensures forall k: nat :: k in prepended <==> PrependedTo(blocks, k)
    ensures forall k: nat :: (k in glued ==> glued[k] + 1 == k) && (k in prepended ==> prepended[k] + 1 == k)
    ensures forall i: nat :: i in skip <==> Glues(blocks, i)
  {
    glued, prepended, skip := map[], map[], {};
    for i := 0 to |blocks|
      invariant forall k: nat :: k in glued <==> k <= i && GluedOnto(blocks, k)
      invariant forall k: nat :: k in prepended <==> k <= i && PrependedTo(blocks, k)
      invariant forall k: nat :: (k in glued ==> glued[k] + 1 == k) && (k in prepended ==> prepended[k] + 1 == k)
      invariant forall h: nat :: h in skip <==> h < i && Glues(blocks, h)
    {
      if Glues(blocks, i) {
        glued := glued[i + 1 := i];
        skip := skip + {i};
        if blocks[i].calloutLead || blocks[i].shortNoun {
          prepended := prepended[i + 1 := i];
        }
      }
    }
  }
}
