// What becomes of a block, told by its attributes.
module ChapterRules {
  // scripts/export_chapter_zh_html.py:2865-3129, 3346-3446, 3469-3942. Each statement
  // writes out what it asks of the blocks, and says where their text comes out in the
  // rendered chapter.

  import opened Wrappers
  import opened ChapterBlocks
  import opened Continuations
  import opened OrderedLists
  import opened Headings
  import opened Listings
  import opened ChapterRender
  import opened RenderAccount

  // ----- Heading fragments -----

  // A heading that is the sliced-off opening of the text block right behind it.
  predicate IsFragment(blocks: seq<Block>, i: nat) {
    i + 1 < |blocks| &&
    var heading, text := blocks[i], blocks[i + 1];
    && heading.kind == Heading && !heading.blank && !heading.artifact && (heading.orphanLead || heading.shortNoun)
    && (text.kind == Paragraph || text.kind == ListItem) && !text.blank && text.opensLower
    && text.ordinal - heading.ordinal <= 1
  }

  lemma FragmentIff(blocks: seq<Block>, i: nat)
    ensures IsFragment(blocks, i) <==> Glues(blocks, i)
    ensures Prepends(blocks, i) <==> IsFragment(blocks, i) && (blocks[i].shortNoun || blocks[i].calloutLead)
    ensures GluedOnto(blocks, i + 1) <==> IsFragment(blocks, i)
  {
  }

  // A short noun or a callout lead comes out in front of the next block, if and only
  // if that renders as prose; any other fragment never comes out.
  lemma FragmentIsPutBackIff(blocks: seq<Block>, r: Repairs, f: Filters, i: nat)
    requires Repaired(blocks, r) && IsFragment(blocks, i)
    ensures ChunkCount(UnitsBelow(blocks, r, f, |blocks|), i)
         == if (blocks[i].shortNoun || blocks[i].calloutLead) && RendersProse(blocks, r, f, i + 1) then 1 else 0
  {
    FragmentIff(blocks, i);
    HeadingIsNoProse(blocks, r, i);
    ChunkAccount(blocks, r, f, i);
    CarriedIff(blocks, r, f, i);
    if !Prepends(blocks, i) {
      AbsorbedBlocksRenderNothing(blocks, r, f, i);
    }
  }

  // It stands right before the text it opens.
  lemma FragmentComesFirst(blocks: seq<Block>, r: Repairs, f: Filters, i: nat)
    requires Repaired(blocks, r) && IsFragment(blocks, i) && (blocks[i].shortNoun || blocks[i].calloutLead)
    requires RendersProse(blocks, r, f, i + 1)
    ensures var u := UnitOf(blocks, r, f, i + 1);
            u.Some? && |u.value.chunks| >= 2 && u.value.chunks[0] == i && u.value.chunks[1] == i + 1
  {
    FragmentIff(blocks, i);
    PrependedHere(blocks, r.prepended, i, i + 1);
    BranchesExclude(blocks, r, f, i + 1);
  }

  // ----- Continuations -----

  // Both are paragraphs outside of figures, neither blank nor shaped like a page
  // header; the first ends in a lower-case letter, the second starts with one, and
  // only page headers lie between them, at most two.
  predicate FlowsInto(blocks: seq<Block>, r: Repairs, i: nat, k: nat) {
    && i < k < |blocks| && k <= i + 3 && i !in r.clusterSkip && k !in r.clusterSkip
    && blocks[i].kind == Paragraph && blocks[k].kind == Paragraph
    && !blocks[i].blank && !blocks[k].blank && !blocks[i].headerLike && !blocks[k].headerLike
    && blocks[i].endsLower && blocks[k].startsLower
    && forall h :: i < h < k ==> blocks[h].kind == Paragraph && !blocks[h].blank && blocks[h].headerLike
  }

  lemma FlowIff(blocks: seq<Block>, r: Repairs, i: nat, k: nat)
    ensures Links(blocks, GluedAway(blocks) + r.clusterSkip, i, k) <==> FlowsInto(blocks, r, i, k)
  {
    if FlowsInto(blocks, r, i, k) {
      assert forall h :: i < h < k ==> IsPageHeader(blocks[h]);
    }
    if Links(blocks, GluedAway(blocks) + r.clusterSkip, i, k) {
      assert forall h :: i < h < k ==> IsPageHeader(blocks[h]);
    }
  }

  lemma ContinuesIff(blocks: seq<Block>, r: Repairs, i: nat, k: nat)
    requires Repaired(blocks, r)
    ensures k in r.contOf && r.contOf[k] == i <==> FlowsInto(blocks, r, i, k)
  {
    FlowIff(blocks, r, i, k);
    RecordedIff(blocks, GluedAway(blocks) + r.clusterSkip, r.contOf, i, k);
  }

  lemma RecordedIff(blocks: seq<Block>, hidden: set<nat>, contOf: map<nat, nat>, i: nat, k: nat)
    requires Records(blocks, hidden, contOf, |blocks|)
    ensures k in contOf && contOf[k] == i <==> Links(blocks, hidden, i, k)
  {
  }

  predicate Starts(blocks: seq<Block>, r: Repairs, i: nat) {
    forall j: nat :: j < |blocks| ==> !FlowsInto(blocks, r, j, i)
  }

  lemma StartIff(blocks: seq<Block>, r: Repairs, i: nat)
    requires Repaired(blocks, r)
    ensures i in r.contOf <==> !Starts(blocks, r, i)
  {
    if i in r.contOf {
      ContinuesIff(blocks, r, r.contOf[i], i);
    }
    if j: nat :| j < |blocks| && FlowsInto(blocks, r, j, i) {
      ContinuesIff(blocks, r, j, i);
    }
  }

  // A continuation comes out exactly as often as what it continues does as prose:
  // behind a start if that renders as prose, behind another continuation if that
  // comes out.
  lemma ContinuationOutcome(blocks: seq<Block>, r: Repairs, f: Filters, i: nat, k: nat)
    requires Repaired(blocks, r) && FlowsInto(blocks, r, i, k)
    ensures ChunkCount(UnitsBelow(blocks, r, f, |blocks|), k)
         == if Starts(blocks, r, i) then (if RendersProse(blocks, r, f, i) then 1 else 0)
            else ChunkCount(UnitsBelow(blocks, r, f, |blocks|), i)
  {
    ContinuesIff(blocks, r, i, k);
    StartIff(blocks, r, i);
    HeadStep(r.contOf, i, k, |blocks|, r.next);
    ContinuationCount(blocks, r, f, k);
    if i in r.contOf {
      ContinuationCount(blocks, r, f, i);
    }
  }

  lemma HeadStep(contOf: map<nat, nat>, i: nat, k: nat, n: nat, next: map<nat, nat>)
    requires k in contOf && contOf[k] == i && forall j :: j in contOf ==> contOf[j] < j
    ensures HeadOf(contOf, k) == if i in contOf then HeadOf(contOf, i) else i
  {
  }

  lemma ContinuationCount(blocks: seq<Block>, r: Repairs, f: Filters, k: nat)
    requires Repaired(blocks, r) && k in r.contOf
    ensures ChunkCount(UnitsBelow(blocks, r, f, |blocks|), k)
         == if RendersProse(blocks, r, f, HeadOf(r.contOf, k)) then 1 else 0
  {
    HeadHasChain(blocks, r, k);
    ChunkAccount(blocks, r, f, k);
    CarriedIff(blocks, r, f, k);
  }

  // The page headers in between are gone.
  lemma HeaderInBetween(blocks: seq<Block>, r: Repairs, f: Filters, i: nat, h: nat, k: nat)
    requires Repaired(blocks, r) && FlowsInto(blocks, r, i, k) && i < h < k
    ensures UnitOf(blocks, r, f, h).None?
  {
    FlowIff(blocks, r, i, k);
    assert SteppedOver(blocks, GluedAway(blocks) + r.clusterSkip, h);
    AbsorbedBlocksRenderNothing(blocks, r, f, h);
  }

  // ----- Ordered lists -----

  predicate PassedOver(blocks: seq<Block>, r: Repairs, h: nat) {
    exists i: nat, k: nat :: i < |blocks| && k < |blocks| && FlowsInto(blocks, r, i, k) && i < h < k
  }

  // A paragraph with this number, outside of figures, that no other one flows into
  // and that no flow steps over.
  predicate IsNumbered(blocks: seq<Block>, r: Repairs, i: nat, num: nat) {
    && i < |blocks| && blocks[i].kind == Paragraph && blocks[i].itemNumber == Some(num)
    && i !in r.clusterSkip && Starts(blocks, r, i) && !PassedOver(blocks, r, i)
  }

  // It carries the number that it has in a list starting at h.
  predicate CountsOn(blocks: seq<Block>, r: Repairs, h: nat, k: nat) {
    h <= k && IsNumbered(blocks, r, k, k - h + 1)
  }

  // len paragraphs numbered 1, 2, 3, ... in a row.
  predicate Counts(blocks: seq<Block>, r: Repairs, h: nat, len: nat) {
    forall k: nat :: h <= k < h + len ==> CountsOn(blocks, r, h, k)
  }

  ghost function Hidden(blocks: seq<Block>, r: Repairs): set<nat> {
    LinkedAway(blocks, r.clusterSkip) + r.contOf.Keys + r.clusterSkip
  }

  // Which paragraphs lists pass by.
  predicate OutOfLists(blocks: seq<Block>, r: Repairs, i: nat) {
    i in r.clusterSkip || !Starts(blocks, r, i) || PassedOver(blocks, r, i)
  }

  ghost predicate HidesThese(blocks: seq<Block>, r: Repairs, hidden: set<nat>) {
    forall i: nat :: i < |blocks| && blocks[i].kind == Paragraph ==> (i in hidden <==> OutOfLists(blocks, r, i))
  }

  lemma HiddenIff(blocks: seq<Block>, r: Repairs)
    requires Repaired(blocks, r)
    ensures HidesThese(blocks, r, Hidden(blocks, r))
  {
    forall i: nat | i < |blocks| && blocks[i].kind == Paragraph
      ensures i in Hidden(blocks, r) <==> OutOfLists(blocks, r, i)
    {
      StartIff(blocks, r, i);
      PassedOverIff(blocks, r, i);
    }
  }

  lemma PassedOverIff(blocks: seq<Block>, r: Repairs, h: nat)
    ensures SteppedOver(blocks, GluedAway(blocks) + r.clusterSkip, h) <==> PassedOver(blocks, r, h)
  {
    var hidden := GluedAway(blocks) + r.clusterSkip;
    if i: nat, k: nat :| Links(blocks, hidden, i, k) && i < h < k {
      FlowIff(blocks, r, i, k);
    }
    if i: nat, k: nat :| i < |blocks| && k < |blocks| && FlowsInto(blocks, r, i, k) && i < h < k {
      FlowIff(blocks, r, i, k);
    }
  }

  lemma CountsOnIff(blocks: seq<Block>, r: Repairs, hidden: set<nat>, h: nat, k: nat)
    requires HidesThese(blocks, r, hidden)
    ensures InSequence(blocks, hidden, h, k) <==> CountsOn(blocks, r, h, k)
  {
  }

  lemma SameRuns(blocks: seq<Block>, r: Repairs, hidden: set<nat>, h: nat, len: nat)
    requires HidesThese(blocks, r, hidden)
    ensures IsRun(blocks, hidden, h, len) <==> Counts(blocks, r, h, len)
  {
    forall k: nat ensures InSequence(blocks, hidden, h, k) <==> CountsOn(blocks, r, h, k) {
      CountsOnIff(blocks, r, hidden, h, k);
    }
  }

  lemma CountsIff(blocks: seq<Block>, r: Repairs, h: nat, len: nat)
    requires Repaired(blocks, r)
    ensures IsRun(blocks, Hidden(blocks, r), h, len) <==> Counts(blocks, r, h, len)
  {
    HiddenIff(blocks, r);
    SameRuns(blocks, r, Hidden(blocks, r), h, len);
  }

  // In a row of three or more, every paragraph behind the first comes out with it if
  // it renders as a list, and otherwise not at all.
  lemma ListOutcome(blocks: seq<Block>, r: Repairs, f: Filters, h: nat, len: nat, x: nat)
    requires Repaired(blocks, r) && Counts(blocks, r, h, len) && len >= 3 && h < x < h + len
    ensures ChunkCount(UnitsBelow(blocks, r, f, |blocks|), x) == if RendersList(blocks, r, f, h) then 1 else 0
    ensures RendersList(blocks, r, f, h) ==> x in UnitOf(blocks, r, f, h).value.chunks
  {
    ListHolds(blocks, r, h, len, x);
    ListItemIsFree(blocks, r, h, x);
    ChunkAccount(blocks, r, f, x);
    CarriedIff(blocks, r, f, x);
    BranchesExclude(blocks, r, f, h);
  }

  lemma ListHolds(blocks: seq<Block>, r: Repairs, h: nat, len: nat, x: nat)
    requires Repaired(blocks, r) && Counts(blocks, r, h, len) && len >= 3 && h <= x < h + len
    ensures h in r.lists && x in r.lists[h]
  {
    CountsIff(blocks, r, h, 3);
    CountsIff(blocks, r, h, len);
    RunIsListed(blocks, Hidden(blocks, r), r.lists, h, len, x);
  }

  lemma RunIsListed(blocks: seq<Block>, hidden: set<nat>, lists: map<nat, seq<nat>>, h: nat, len: nat, x: nat)
    requires ListsBelow(blocks, hidden, lists, |blocks|)
    requires IsRun(blocks, hidden, h, 3) && IsRun(blocks, hidden, h, len) && len >= 3 && h <= x < h + len
    ensures h in lists && x in lists[h]
  {
    assert InSequence(blocks, hidden, h, h);
    RunsWithinMaximal(blocks, hidden, h, len, |lists[h]|);
    assert lists[h][x - h] == x;
  }

  // And nothing else is a list item.
  lemma ListedIff(blocks: seq<Block>, r: Repairs, h: nat, x: nat)
    requires Repaired(blocks, r)
    ensures h in r.lists && x in r.lists[h] <==>
              exists len: nat :: len >= 3 && Counts(blocks, r, h, len) && h <= x < h + len
  {
    if h in r.lists && x in r.lists[h] {
      var len := |r.lists[h]|;
      CountsIff(blocks, r, h, 3);
      CountsIff(blocks, r, h, len);
      MaximalIsLong(blocks, Hidden(blocks, r), r.lists, h, x);
    }
    if len: nat :| len >= 3 && Counts(blocks, r, h, len) && h <= x < h + len {
      ListHolds(blocks, r, h, len, x);
    }
  }

  lemma MaximalIsLong(blocks: seq<Block>, hidden: set<nat>, lists: map<nat, seq<nat>>, h: nat, x: nat)
    requires ListsBelow(blocks, hidden, lists, |blocks|) && h in lists && x in lists[h]
    ensures |lists[h]| >= 3 && IsRun(blocks, hidden, h, |lists[h]|) && h <= x < h + |lists[h]|
  {
    RunsWithinMaximal(blocks, hidden, h, 3, |lists[h]|);
    var k :| 0 <= k < |lists[h]| && lists[h][k] == x;
  }

  // ----- Listings -----

  predicate Opens(blocks: seq<Block>, h: nat) {
    h < |blocks| && blocks[h].kind == Paragraph && blocks[h].listingHeader
  }

  // Side annotations, code blocks, and paragraphs shaped like code that are no headers.
  predicate Goes(b: Block) {
    || b.annotated || b.kind == Code
    || (b.kind == Paragraph && !b.headerLike && !b.listingHeader && b.codeShaped)
  }

  // At most twelve blocks behind the header, with nothing in between that ends the listing.
  predicate Reaches(blocks: seq<Block>, h: nat, x: nat) {
    Opens(blocks, h) && h < x <= h + 12 && x < |blocks| && forall k :: h < k <= x ==> Goes(blocks[k])
  }

  // Code comes out exactly where a rendered listing reaches it, unless it is a side
  // annotation.
  lemma ListingOutcome(blocks: seq<Block>, r: Repairs, f: Filters, x: nat)
    requires Repaired(blocks, r) && x < |blocks|
    ensures CodeCount(UnitsBelow(blocks, r, f, |blocks|), x)
         == if !blocks[x].annotated && exists h: nat :: RendersListing(blocks, r, f, h) && Reaches(blocks, h, x) then 1 else 0
  {
    CodeAccount(blocks, r, f, x);
    forall h: nat ensures PrintsIn(blocks, r, f, h, x) <==>
        RendersListing(blocks, r, f, h) && Reaches(blocks, h, x) && !blocks[x].annotated
    {
      PrintsIff(blocks, r, f, h, x);
      ReachesIff(blocks, h, x);
    }
  }

  lemma ReachesIff(blocks: seq<Block>, h: nat, x: nat)
    ensures Absorbs(blocks, h, x) <==> Reaches(blocks, h, x)
  {
    assert forall b: Block :: InListing(b) <==> Goes(b);
  }

  // ----- Which blocks leave the flow -----

  // Fragments, page headers a flow steps over, continuations, and list items behind
  // the first: these and no others are passed over by the render loop.
  lemma SkippedIff(blocks: seq<Block>, r: Repairs, x: nat)
    requires Repaired(blocks, r)
    ensures x in r.skip <==>
              || IsFragment(blocks, x) || PassedOver(blocks, r, x) || !Starts(blocks, r, x)
              || exists h: nat :: h < x && h in r.lists && x in r.lists[h]
  {
    FragmentIff(blocks, x);
    PassedOverIff(blocks, r, x);
    StartIff(blocks, r, x);
    GluedIff(blocks, x);
    if PassedOver(blocks, r, x) {
      assert x < |blocks|;
    }
  }

  lemma GluedIff(blocks: seq<Block>, x: nat)
    ensures x in GluedAway(blocks) <==> Glues(blocks, x)
  {
  }

  // ----- The render loop -----

  // A block that stays in the flow comes out once or not at all: the tests are made in
  // this order.
  lemma FlowOutcome(blocks: seq<Block>, r: Repairs, f: Filters, x: nat)
    requires Repaired(blocks, r) && x < |blocks| && x !in r.skip && x !in r.clusterSkip
    ensures ChunkCount(UnitsBelow(blocks, r, f, |blocks|), x) ==
              if x in f.early then 0
              else if x in f.promoted then (if x in f.silent then 0 else 1)
              else if x in f.late || blocks[x].annotated then 0
              else if x in f.curated && blocks[x].kind == Paragraph then 1
              else if blocks[x].kind == Footnote || exists h: nat :: Reaches(blocks, h, x) then 0
              else if Opens(blocks, x) then 1
              else if x in f.stubbed then 0
              else if x in r.lists && blocks[x].kind == Paragraph && x !in f.emptyList then 1
              else if x in f.silent then 0
              else 1
  {
    ChunkAccount(blocks, r, f, x);
    CarriedIff(blocks, r, f, x);
    OwnBlockIsFree(blocks, r, x);
    ListingsTakeIff(blocks, r.bodies, r.absorbed, x);
    OwnOutcome(blocks, r, f, x);
  }

  // No pass and no filter that is asked before the listings takes it.
  predicate StaysInFlow(blocks: seq<Block>, r: Repairs, f: Filters, x: nat) {
    && x < |blocks| && x !in r.skip && x !in r.clusterSkip && x !in f.early && x !in f.promoted && x !in f.late
    && !blocks[x].annotated && blocks[x].kind != Footnote && !(x in f.curated && blocks[x].kind == Paragraph)
  }

  // Prose is what is left, lists aside.
  lemma ProseIff(blocks: seq<Block>, r: Repairs, f: Filters, x: nat)
    requires Repaired(blocks, r)
    ensures var list := x in r.lists && x < |blocks| && blocks[x].kind == Paragraph && x !in f.emptyList;
            var text := StaysInFlow(blocks, r, f, x) && !Opens(blocks, x) && x !in f.stubbed && forall h: nat :: !Reaches(blocks, h, x);
            && (RendersProse(blocks, r, f, x) <==> text && !list && x !in f.silent)
            && (RendersList(blocks, r, f, x) <==> text && list)
  {
    if x < |blocks| {
      ListingsTakeIff(blocks, r.bodies, r.absorbed, x);
    }
  }

  lemma ListingsTakeIff(blocks: seq<Block>, bodies: map<nat, seq<nat>>, absorbed: set<nat>, x: nat)
    requires ListingsTaken(blocks, bodies, absorbed) && x < |blocks|
    ensures x in bodies <==> Opens(blocks, x)
    ensures x in absorbed <==> exists h: nat :: Reaches(blocks, h, x)
  {
    forall h: nat ensures Absorbs(blocks, h, x) <==> Reaches(blocks, h, x) {
      ReachesIff(blocks, h, x);
    }
    if h: nat :| Reaches(blocks, h, x) {
      assert Absorbs(blocks, h, x);
    }
  }

  lemma OwnOutcome(blocks: seq<Block>, r: Repairs, f: Filters, x: nat)
    requires Repaired(blocks, r) && x < |blocks| && x !in r.skip && Keeper(blocks, r, x) == x
    ensures ComesOut(blocks, r, f, x) <==>
              || RendersAlone(blocks, r, f, x) || RendersListing(blocks, r, f, x)
              || RendersList(blocks, r, f, x) || RendersProse(blocks, r, f, x)
  {
    OwnChunksCarried(blocks, r, f, x);
    CarriedIff(blocks, r, f, x);
  }

  // ----- Borrowed titles -----

  // An untranslated numbered heading that renders as prose shows the first heading of
  // its number that is translated, and whose translation is more than a page number.
  lemma BorrowOutcome(blocks: seq<Block>, r: Repairs, f: Filters, i: nat, x: nat)
    requires RendersProse(blocks, r, f, i) && blocks[i].kind == Heading && !blocks[i].translated && blocks[i].section.Some?
    ensures UnitOf(blocks, r, f, i).Some?
    ensures UnitOf(blocks, r, f, i).value.aside == Some(x) <==>
              && x < |blocks| && blocks[x].kind == Heading && blocks[x].section == blocks[i].section
              && blocks[x].translated && blocks[x].titled
              && forall y: nat :: y < x ==>
                   !(blocks[y].kind == Heading && blocks[y].section == blocks[i].section && blocks[y].translated && blocks[y].titled)
  {
    BranchesExclude(blocks, r, f, i);
    TitleIff(blocks, blocks[i].section.value, |blocks|, x);
    assert forall y: nat :: y < x < |blocks| ==> (Titles(blocks, blocks[i].section.value, y) <==>
      blocks[y].kind == Heading && blocks[y].section == blocks[i].section && blocks[y].translated && blocks[y].titled);
  }
}
