// Which blocks make it into the chapter at all.
module RenderFate {
  // With small chapters in which the exporter loses text or says it twice.

  import opened Wrappers
  import opened ChapterBlocks
  import opened Continuations
  import opened OrderedLists
  import opened Headings
  import opened Listings
  import opened PanelClusters
  import opened ChapterRender
  import opened RenderAccount

  // A continuation is carried if and only if the start of its chain renders as
  // prose: a start that renders as a list, a listing or a curated unit drops the
  // whole rest of the chain.
  lemma ContinuationCarriedIff(blocks: seq<Block>, r: Repairs, f: Filters, x: nat)
    requires Repaired(blocks, r) && x in r.contOf
    ensures ChunkCount(UnitsBelow(blocks, r, f, |blocks|), x)
         == if RendersProse(blocks, r, f, HeadOf(r.contOf, x)) then 1 else 0
  {
    HeadHasChain(blocks, r, x);
    ChunkAccount(blocks, r, f, x);
    CarriedIff(blocks, r, f, x);
  }

  // A list item is carried if and only if the head of its list renders the list.
  lemma ItemCarriedIff(blocks: seq<Block>, r: Repairs, f: Filters, x: nat)
    requires Repaired(blocks, r) && Absorbed(r.lists, x)
    ensures ChunkCount(UnitsBelow(blocks, r, f, |blocks|), x)
         == if RendersList(blocks, r, f, ListHead(r.lists, x)) then 1 else 0
  {
    ListItemIsFree(blocks, r, ListHead(r.lists, x), x);
    ChunkAccount(blocks, r, f, x);
    CarriedIff(blocks, r, f, x);
  }

  // A block that only a listing took over survives if and only if a listing that
  // prints it is rendered.
  lemma ListingBodySurvivesIff(blocks: seq<Block>, r: Repairs, f: Filters, x: nat)
    requires Repaired(blocks, r) && x < |blocks| && x in r.absorbed && CaptionsShown(blocks, f)
    requires Keeper(blocks, r, x) == x && !RendersAlone(blocks, r, f, x)
    requires !blocks[x].kind.Heading? && !blocks[x].kind.Caption?
    ensures Appearances(UnitsBelow(blocks, r, f, |blocks|), x)
         == if exists h: nat :: ListedIn(blocks, r, f, h, x) then 1 else 0
  {
    AtMostTwice(blocks, r, f, x);
    CarriedIff(blocks, r, f, x);
  }

  // ----- Two chapters that lose text -----

  function Prose(startsLower: bool, endsLower: bool, item: Option<nat>, listingHeader: bool): Block {
    Block(Paragraph, 0, None, None, None, None, false, false, false, false, false,
          startsLower, startsLower, endsLower, false, false, false, item, listingHeader, false, true, None, true, true)
  }

  function NoFilters(): Filters {
    Filters({}, {}, {}, {}, {}, {}, {}, map[])
  }

  lemma LinksSettled(blocks: seq<Block>, r: Repairs, hidden: set<nat>, i: nat, k: nat)
    requires Repaired(blocks, r) && hidden == GluedAway(blocks) + r.clusterSkip
    requires Links(blocks, hidden, i, k)
    requires forall i': nat, k': nat :: Links(blocks, hidden, i', k') ==> k' == k
    ensures r.contOf == map[k := i] && HeadOf(r.contOf, k) == i && k in r.skip
  {
    OnlyLink(blocks, hidden, r.contOf, i, k);
  }

  lemma OnlyLink(blocks: seq<Block>, hidden: set<nat>, contOf: map<nat, nat>, i: nat, k: nat)
    requires Records(blocks, hidden, contOf, |blocks|) && Links(blocks, hidden, i, k)
    requires forall i': nat, k': nat :: Links(blocks, hidden, i', k') ==> k' == k
    ensures contOf == map[k := i] && HeadOf(contOf, k) == i
  {
    assert k in contOf;
    assert forall k': nat :: k' in contOf ==> k' == k;
  }

  // Three numbered steps, the last of which runs on into an unnumbered paragraph.
  function StepsRunningOn(): seq<Block> {
    [Prose(false, false, Some(1), false), Prose(false, false, Some(2), false),
     Prose(false, true, Some(3), false), Prose(true, false, None, false)]
  }

  lemma StepsShape()
    ensures GluedAway(StepsRunningOn()) == {}
    ensures Links(StepsRunningOn(), {}, 2, 3)
    ensures forall i: nat, k: nat :: Links(StepsRunningOn(), {}, i, k) ==> k == 3
    ensures forall h: nat :: !IsHeader(StepsRunningOn(), h)
  {
  }

  // If the start of a chain went into somebody else's list, the rest of the chain
  // is lost, unless a rendered listing prints it.
  lemma TailOfAbsorbedStartIsLost(blocks: seq<Block>, r: Repairs, f: Filters, x: nat)
    requires Repaired(blocks, r) && CaptionsShown(blocks, f)
    requires x in r.contOf && HeadOf(r.contOf, x) in r.skip
    ensures Appearances(UnitsBelow(blocks, r, f, |blocks|), x)
         == if exists h: nat :: ListedIn(blocks, r, f, h, x) then 1 else 0
  {
    HeadHasChain(blocks, r, x);
    ContinuationsAreParagraphs(blocks, r);
    AtMostTwice(blocks, r, f, x);
  }

  // The tail of the last step is nowhere in the rendered chapter.
  lemma LastStepLosesItsTail(r: Repairs)
    requires Repaired(StepsRunningOn(), r) && r.clusterSkip == {}
    ensures Appearances(UnitsBelow(StepsRunningOn(), r, NoFilters(), |StepsRunningOn()|), 3) == 0
  {
    StepsShape();
    LinksSettled(StepsRunningOn(), r, {}, 2, 3);
    StepsAreAList(r);
    TailOfAbsorbedStartIsLost(StepsRunningOn(), r, NoFilters(), 3);
  }

  lemma StepsAreAList(r: Repairs)
    requires Repaired(StepsRunningOn(), r) && r.clusterSkip == {} && r.contOf.Keys == {3}
    ensures 2 in r.skip
  {
    var blocks := StepsRunningOn();
    var eligible := LinkedAway(blocks, {}) + r.contOf.Keys + r.clusterSkip;
    assert GluedAway(blocks) == {};
    assert forall h: nat :: h < 4 ==> !IsPageHeader(blocks[h]);
    assert forall h: nat :: !SteppedOver(blocks, {}, h);
    assert eligible == {3};
    StepsAreGrouped(r.lists);
  }

  lemma StepsAreGrouped(lists: map<nat, seq<nat>>)
    requires ListsBelow(StepsRunningOn(), {3}, lists, 4)
    ensures Absorbed(lists, 2)
  {
    var blocks := StepsRunningOn();
    assert forall k :: 0 <= k < 3 ==> InSequence(blocks, {3}, 0, k);
    assert IsRun(blocks, {3}, 0, 3);
    RunsWithinMaximal(blocks, {3}, 0, 3, |lists[0]|);
    assert lists[0][2] == 2;
  }

  // A sentence that wraps onto "listing 4.1 shows ...", followed by a short paragraph.
  function WrappedListingMention(): seq<Block> {
    [Prose(false, true, None, false), Prose(true, false, None, true), Prose(false, false, None, false)]
  }

  lemma MentionShape()
    ensures GluedAway(WrappedListingMention()) == {}
    ensures Links(WrappedListingMention(), {}, 0, 1)
    ensures forall i: nat, k: nat :: Links(WrappedListingMention(), {}, i, k) ==> k == 1
    ensures forall h: nat :: IsHeader(WrappedListingMention(), h) ==> h == 1
    ensures Absorbs(WrappedListingMention(), 1, 2)
    ensures forall i :: 0 <= i < |WrappedListingMention()| ==> WrappedListingMention()[i].itemNumber.None?
  {
    assert InListing(WrappedListingMention()[2]);
  }

  // What listings took in is lost when each listing that reaches it has a header
  // that was itself absorbed.
  lemma BodyOfAbsorbedHeadersIsLost(blocks: seq<Block>, r: Repairs, f: Filters, x: nat)
    requires Repaired(blocks, r) && x < |blocks| && x in r.absorbed && CaptionsShown(blocks, f)
    requires Keeper(blocks, r, x) == x && !RendersAlone(blocks, r, f, x)
    requires !blocks[x].kind.Heading? && !blocks[x].kind.Caption?
    requires forall h: nat :: Absorbs(blocks, h, x) ==> h in r.skip
    ensures Appearances(UnitsBelow(blocks, r, f, |blocks|), x) == 0
  {
    ListingBodySurvivesIff(blocks, r, f, x);
  }

  // The paragraph after the mention is nowhere in the rendered chapter.
  lemma ParagraphAfterMentionIsLost(r: Repairs)
    requires Repaired(WrappedListingMention(), r) && r.clusterSkip == {}
    ensures Appearances(UnitsBelow(WrappedListingMention(), r, NoFilters(), |WrappedListingMention()|), 2) == 0
  {
    MentionShape();
    LinksSettled(WrappedListingMention(), r, {}, 0, 1);
    NoNumbersNoLists(WrappedListingMention(), r);
    KeptByItself(WrappedListingMention(), r, 2);
    BodyOfAbsorbedHeadersIsLost(WrappedListingMention(), r, NoFilters(), 2);
  }

  lemma KeptByItself(blocks: seq<Block>, r: Repairs, x: nat)
    requires Repaired(blocks, r) && x !in r.contOf && r.lists == map[] && x !in GluedAway(blocks)
    requires exists h: nat :: Absorbs(blocks, h, x)
    ensures Keeper(blocks, r, x) == x && x in r.absorbed
  {
    assert Prepends(blocks, x) ==> x in GluedAway(blocks);
  }

  lemma NoNumbersNoLists(blocks: seq<Block>, r: Repairs)
    requires Repaired(blocks, r) && forall i :: 0 <= i < |blocks| ==> blocks[i].itemNumber.None?
    ensures r.lists == map[]
  {
    var eligible := LinkedAway(blocks, r.clusterSkip) + r.contOf.Keys + r.clusterSkip;
    forall h: nat ensures !IsRun(blocks, eligible, h, 3) {
      assert !InSequence(blocks, eligible, h, h);
    }
  }

  // ----- Inside a multi-panel figure -----

  // The blocks that are skipped for figures are those inside the figures found.
  ghost predicate FiguresFound(blocks: seq<Block>, caps: map<nat, nat>, r: Repairs) {
    ClustersBelow(blocks, caps, |blocks|) && forall x: nat :: x in r.clusterSkip <==> Inside(blocks, caps, x)
  }

  lemma InsideIsPlain(blocks: seq<Block>, caps: map<nat, nat>, x: nat)
    requires ClustersBelow(blocks, caps, |blocks|) && Inside(blocks, caps, x)
    ensures x < |blocks| && (blocks[x].kind.Figure? || blocks[x].kind.Paragraph?)
  {
    var m: nat :| m in caps && m < x < caps[m] && x < |blocks| && !Boxless(blocks, x);
    ClusterShape(blocks, caps, m);
  }

  // Nobody else pulls a skipped block.
  lemma SkippedIsNotPulled(blocks: seq<Block>, r: Repairs, x: nat)
    requires Repaired(blocks, r) && x in r.clusterSkip
    ensures x !in r.contOf && !Absorbed(r.lists, x)
  {
    ContinuationIsNotSkipped(blocks, r, x);
    if Absorbed(r.lists, x) {
      ItemIsNotSkipped(blocks, r, ListHead(r.lists, x), x);
    }
  }

  lemma ContinuationIsNotSkipped(blocks: seq<Block>, r: Repairs, x: nat)
    requires Repaired(blocks, r)
    ensures x in r.contOf ==> x !in r.clusterSkip
  {
    assert x in r.contOf ==> Links(blocks, GluedAway(blocks) + r.clusterSkip, r.contOf[x], x);
  }

  lemma ItemIsNotSkipped(blocks: seq<Block>, r: Repairs, h: nat, x: nat)
    requires Repaired(blocks, r) && h in r.lists && x in r.lists[h]
    ensures x !in r.clusterSkip
  {
    var hidden := LinkedAway(blocks, r.clusterSkip) + r.contOf.Keys + r.clusterSkip;
    var k :| 0 <= k < |r.lists[h]| && r.lists[h][k] == x;
    assert InSequence(blocks, hidden, h, x);
  }

  lemma SkippedDoesNotComeOut(blocks: seq<Block>, r: Repairs, f: Filters, x: nat)
    requires Repaired(blocks, r) && x in r.clusterSkip && x < |blocks| && !blocks[x].kind.Heading?
    ensures !ComesOut(blocks, r, f, x)
  {
    SkippedIsNotPulled(blocks, r, x);
    SkippedRendersNothing(blocks, r, f, x);
  }

  lemma SkippedRendersNothing(blocks: seq<Block>, r: Repairs, f: Filters, x: nat)
    requires x in r.clusterSkip && x < |blocks| && !blocks[x].kind.Heading?
    ensures !RendersAlone(blocks, r, f, x) && !RendersListing(blocks, r, f, x)
    ensures !RendersList(blocks, r, f, x) && !RendersProse(blocks, r, f, x) && !Prepends(blocks, x)
  {
  }

  // What lies inside a figure is in the chapter exactly where a rendered listing
  // prints it.
  lemma InsideFigureAccount(blocks: seq<Block>, caps: map<nat, nat>, r: Repairs, f: Filters, x: nat)
    requires Repaired(blocks, r) && FiguresFound(blocks, caps, r) && CaptionsShown(blocks, f)
    requires x in r.clusterSkip
    ensures Appearances(UnitsBelow(blocks, r, f, |blocks|), x)
         == if exists h: nat :: ListedIn(blocks, r, f, h, x) then 1 else 0
  {
    InsideIsPlain(blocks, caps, x);
    SkippedDoesNotComeOut(blocks, r, f, x);
    AtMostTwice(blocks, r, f, x);
  }

  // That listing starts at a header without a box inside the same figure, or the
  // figure's first panel is a suppressed annotation.
  lemma FigurePrinter(blocks: seq<Block>, caps: map<nat, nat>, r: Repairs, f: Filters, h: nat, m: nat, x: nat)
    requires FiguresFound(blocks, caps, r) && ListedIn(blocks, r, f, h, x)
    requires m in caps && m < x < caps[m]
    ensures (m < h && Boxless(blocks, h)) || blocks[m].annotated
  {
    ClusterShape(blocks, caps, m);
    assert Settled(blocks, caps, m) && blocks[m].kind.Figure?;
    if m < h {
      assert h !in r.clusterSkip;
    } else {
      assert InListing(blocks[m]);
    }
  }

  // Two panels under one caption, between them a listing header without a box and
  // its code.
  function FigureWithListing(): seq<Block> {
    var panel := Prose(false, false, None, false).(kind := Figure, boxPage := Some(1), embedded := true);
    [panel, Prose(false, false, None, true), Prose(false, false, None, false).(boxPage := Some(1)), panel,
     panel.(kind := Caption, realCaption := true)]
  }

  lemma ListingInFigure()
    ensures ClustersBelow(FigureWithListing(), map[0 := 4], 5)
    ensures forall x: nat :: Inside(FigureWithListing(), map[0 := 4], x) <==> x == 2 || x == 3
  {
    var blocks, caps := FigureWithListing(), map[0 := 4];
    assert Panel(blocks, 1, 0) && Panel(blocks, 1, 3) && EndCaption(blocks, 1, 4) && Boxless(blocks, 1);
    assert Backed(blocks, 1, 2);
    assert InnerText(blocks, 1, 2);
    assert Spans(blocks, 0, 4);
    assert forall x: nat :: x == 2 || x == 3 ==> 0 in caps && 0 < x < caps[0] && !Boxless(blocks, x);
    assert forall c: nat :: !Spans(blocks, 1, c) && !Spans(blocks, 4, c);
  }

  lemma HeaderRenders(blocks: seq<Block>, r: Repairs, h: nat)
    requires ListingsTaken(blocks, r.bodies, r.absorbed) && r.skip == {}
    requires IsHeader(blocks, h) && !blocks[h].annotated && h !in r.clusterSkip
    requires forall h': nat :: !Absorbs(blocks, h', h)
    ensures RendersListing(blocks, r, NoFilters(), h)
  {
  }

  lemma CodeInFigure()
    ensures var blocks := FigureWithListing();
            IsHeader(blocks, 1) && !blocks[1].annotated && Prints(blocks, 1, 2) && forall h: nat :: !Absorbs(blocks, h, 1)
  {
    assert InListing(FigureWithListing()[2]);
  }

  lemma CodeIsListed(blocks: seq<Block>, r: Repairs, h: nat, x: nat)
    requires Repaired(blocks, r) && Unmarked(blocks)
    requires IsHeader(blocks, h) && !blocks[h].annotated && h !in r.clusterSkip && Prints(blocks, h, x)
    requires forall h': nat :: !Absorbs(blocks, h', h)
    ensures ListedIn(blocks, r, NoFilters(), h, x)
  {
    NothingRepaired(blocks, r);
    HeaderRenders(blocks, r, h);
  }

  // The code is printed although the figure shows it too.
  lemma FigureTextIsPrinted(r: Repairs)
    requires Repaired(FigureWithListing(), r) && FiguresFound(FigureWithListing(), map[0 := 4], r)
    ensures Appearances(UnitsBelow(FigureWithListing(), r, NoFilters(), 5), 2) == 1
  {
    var blocks := FigureWithListing();
    ListingInFigure();
    ExamplesAreUnmarked();
    CodeInFigure();
    CodeIsListed(blocks, r, 1, 2);
    InsideFigureAccount(blocks, map[0 := 4], r, NoFilters(), 2);
  }

  // ----- Two chapters that say something twice -----

  // A listing header and a curated paragraph in its body.
  function ListingWithBox(): seq<Block> {
    [Prose(false, false, None, true), Prose(false, false, None, false)]
  }

  // Nothing to number, nothing to join.
  predicate Unmarked(blocks: seq<Block>) {
    forall i :: 0 <= i < |blocks| ==> blocks[i].itemNumber.None? && !blocks[i].startsLower && !blocks[i].opensLower
  }

  lemma ExamplesAreUnmarked()
    ensures Unmarked(FigureWithListing()) && Unmarked(ListingWithBox()) && Unmarked(RunningHeader())
  {
  }

  lemma NothingRepaired(blocks: seq<Block>, r: Repairs)
    requires Repaired(blocks, r) && Unmarked(blocks)
    ensures r.skip == {} && r.contOf == map[] && r.lists == map[]
  {
    NoNumbersNoLists(blocks, r);
    assert forall i: nat :: !Glues(blocks, i);
    assert GluedAway(blocks) == {};
    assert forall i: nat, k: nat :: !Links(blocks, {} + r.clusterSkip, i, k);
    assert forall k: nat :: k !in r.contOf;
    assert LinkedAway(blocks, r.clusterSkip) == {};
    assert forall k: nat :: !Absorbed(r.lists, k);
  }

  // The paragraph is shown as a box, and again in the listing.
  lemma BoxAppearsTwice(r: Repairs)
    requires Repaired(ListingWithBox(), r) && r.clusterSkip == {}
    ensures var f := NoFilters().(curated := {1});
            Appearances(UnitsBelow(ListingWithBox(), r, f, 2), 1) == 2
  {
    var blocks, f := ListingWithBox(), NoFilters().(curated := {1});
    ExamplesAreUnmarked();
    NothingRepaired(blocks, r);
    assert InListing(blocks[1]);
    assert Absorbs(blocks, 0, 1);
    assert forall h: nat :: !Absorbs(blocks, h, 0);
    assert ListedIn(blocks, r, f, 0, 1);
    AtMostTwice(blocks, r, f, 1);
  }

  // A section heading without a translation, a paragraph, and the running header of
  // the next page, which has one.
  function RunningHeader(): seq<Block> {
    var heading := Prose(false, false, None, false).(kind := Heading, section := Some(42));
    [heading.(translated := false), Prose(false, false, None, false), heading]
  }

  lemma HeaderTitle(f: Filters)
    requires f.captions == map[]
    ensures Aside(RunningHeader(), f, 0) == Some(2)
    ensures Aside(RunningHeader(), f, 1) == None && Aside(RunningHeader(), f, 2) == None
  {
    var blocks := RunningHeader();
    assert Titles(blocks, 42, 2) && !Titles(blocks, 42, 0) && !Titles(blocks, 42, 1);
    TitleIff(blocks, 42, 3, 2);
  }

  // Without listings, a chapter in which nothing was repaired renders block by block.
  lemma RendersBlockByBlock(blocks: seq<Block>, r: Repairs, late: set<nat>, i: nat)
    requires Repaired(blocks, r) && r.clusterSkip == {} && r.skip == {} && r.lists == map[] && i < |blocks|
    requires forall h: nat :: !IsHeader(blocks, h)
    ensures var f := NoFilters().(late := late);
            && !RendersAlone(blocks, r, f, i) && !RendersListing(blocks, r, f, i) && !RendersList(blocks, r, f, i)
            && (RendersProse(blocks, r, f, i) <==> i !in late && !blocks[i].annotated && !blocks[i].kind.Footnote?)
  {
    assert forall h: nat, x: nat :: !Absorbs(blocks, h, x);
    assert i !in r.absorbed;
  }

  lemma HeaderAccount(blocks: seq<Block>, r: Repairs, f: Filters, late: set<nat>)
    requires Repaired(blocks, r) && r.clusterSkip == {} && r.skip == {} && r.lists == map[] && r.contOf == map[]
    requires forall h: nat :: !IsHeader(blocks, h)
    requires |blocks| == 3 && !Prepends(blocks, 2)
    requires forall i :: 0 <= i < 3 ==> !blocks[i].annotated && !blocks[i].kind.Footnote?
    requires f == NoFilters().(late := late) && late <= {2}
    requires Aside(blocks, f, 0) == Some(2) && Aside(blocks, f, 1) == None && Aside(blocks, f, 2) == None
    ensures Appearances(UnitsBelow(blocks, r, f, 3), 2) == if 2 in late then 1 else 2
    ensures ComesOut(blocks, r, f, 2) <==> 2 !in late
    ensures RendersProse(blocks, r, f, 1)
  {
    RendersBlockByBlock(blocks, r, late, 0);
    RendersBlockByBlock(blocks, r, late, 1);
    RendersBlockByBlock(blocks, r, late, 2);
    OnlyOneShows(blocks, r, f);
    assert forall h: nat :: !ListedIn(blocks, r, f, h, 2);
    ContentAccount(blocks, r, f, 2);
  }

  // The running header's title comes out where the heading stands, and again behind
  // the paragraph; if the header itself is suppressed, only there.
  lemma TitleAppearsTwice(r: Repairs, suppressed: bool)
    requires Repaired(RunningHeader(), r) && r.clusterSkip == {}
    ensures var f := NoFilters().(late := if suppressed then {2} else {});
            && Appearances(UnitsBelow(RunningHeader(), r, f, 3), 2) == (if suppressed then 1 else 2)
            && (ComesOut(RunningHeader(), r, f, 2) <==> !suppressed)
            && RendersProse(RunningHeader(), r, f, 1)
  {
    var blocks, late: set<nat> := RunningHeader(), if suppressed then {2} else {};
    ExamplesAreUnmarked();
    NothingRepaired(blocks, r);
    HeaderTitle(NoFilters().(late := late));
    HeaderAccount(blocks, r, NoFilters().(late := late), late);
  }

  lemma OnlyOneShows(blocks: seq<Block>, r: Repairs, f: Filters)
    requires |blocks| == 3 && RendersProse(blocks, r, f, 0)
    requires Aside(blocks, f, 0) == Some(2) && Aside(blocks, f, 1) == None && Aside(blocks, f, 2) == None
    ensures |Showers(blocks, r, f, 2, 3)| == 1
  {
    assert Showers(blocks, r, f, 2, 3) == {0};
  }
}
