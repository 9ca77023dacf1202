// The account of every block of a rendered chapter.
module RenderAccount {
  // Who carries its translated chunks, who prints its source, and how often each
  // happens.

  import opened Wrappers
  import opened ChapterBlocks
  import opened Continuations
  import opened OrderedLists
  import opened Headings
  import opened Listings
  import opened ChapterRender

  // ----- The block that answers for x -----

  // The head of the list that absorbed x.
  ghost function ListHead(lists: map<nat, seq<nat>>, x: nat): (h: nat)
    requires Absorbed(lists, x)
    ensures h in lists && h < x && x in lists[h]
  {
    var h: nat :| h in lists && h < x && x in lists[h];
    h
  }

  // The one block whose unit may carry x's chunks: the start of its continuation
  // chain, the head of its list, the text its heading was glued to, or x itself.
  ghost function Keeper(blocks: seq<Block>, r: Repairs, x: nat): nat
    requires Repaired(blocks, r)
  {
    if x in r.contOf then HeadOf(r.contOf, x)
    else if Absorbed(r.lists, x) then ListHead(r.lists, x)
    else if Prepends(blocks, x) then x + 1
    else x
  }

  ghost predicate Carries(blocks: seq<Block>, r: Repairs, f: Filters, i: nat, x: nat) {
    var u := UnitOf(blocks, r, f, i);
    i < |blocks| && u.Some? && x in u.value.chunks
  }

  ghost predicate PrintsIn(blocks: seq<Block>, r: Repairs, f: Filters, h: nat, x: nat) {
    var u := UnitOf(blocks, r, f, h);
    h < |blocks| && u.Some? && x in u.value.code
  }

  // The unit of i shows x beside its own chunks.
  predicate Shows(blocks: seq<Block>, r: Repairs, f: Filters, i: nat, x: nat) {
    RendersProse(blocks, r, f, i) && Aside(blocks, f, i) == Some(x)
  }

  // The listing of h is rendered and x is in its code body.
  predicate ListedIn(blocks: seq<Block>, r: Repairs, f: Filters, h: nat, x: nat) {
    RendersListing(blocks, r, f, h) && Prints(blocks, h, x)
  }

  // The branches of the render loop in which x's chunks come out.
  ghost predicate ComesOut(blocks: seq<Block>, r: Repairs, f: Filters, x: nat)
    requires Repaired(blocks, r)
  {
    if x in r.contOf then RendersProse(blocks, r, f, HeadOf(r.contOf, x))
    else if Absorbed(r.lists, x) then RendersList(blocks, r, f, ListHead(r.lists, x))
    else if Prepends(blocks, x) then RendersProse(blocks, r, f, x + 1)
    else
      || RendersAlone(blocks, r, f, x) || RendersListing(blocks, r, f, x)
      || RendersList(blocks, r, f, x) || RendersProse(blocks, r, f, x)
  }

  // Figures only show captions.
  predicate CaptionsShown(blocks: seq<Block>, f: Filters) {
    forall i: nat :: i in f.captions ==> f.captions[i] < |blocks| && blocks[f.captions[i]].kind.Caption?
  }

  // Blocks that a pass took over never get a unit of their own.
  lemma AbsorbedBlocksRenderNothing(blocks: seq<Block>, r: Repairs, f: Filters, x: nat)
    requires Repaired(blocks, r)
    requires x in r.contOf || Absorbed(r.lists, x) || Glues(blocks, x) || x in r.clusterSkip
             || SteppedOver(blocks, GluedAway(blocks) + r.clusterSkip, x)
    ensures UnitOf(blocks, r, f, x).None?
  {
    if SteppedOver(blocks, GluedAway(blocks) + r.clusterSkip, x) {
      assert x in LinkedAway(blocks, r.clusterSkip);
    }
    assert x in r.clusterSkip || x in r.skip;
  }

  // A list item is eligible: nobody else took it over.
  lemma ListItemIsFree(blocks: seq<Block>, r: Repairs, h: nat, x: nat)
    requires Repaired(blocks, r) && h in r.lists && x in r.lists[h]
    ensures h <= x < |blocks| && blocks[x].kind.Paragraph? && x !in r.contOf && !Glues(blocks, x)
    ensures h < x ==> Absorbed(r.lists, x) && ListHead(r.lists, x) == h
    ensures h == x ==> !Absorbed(r.lists, x)
  {
    var hidden := LinkedAway(blocks, r.clusterSkip) + r.contOf.Keys + r.clusterSkip;
    var k :| 0 <= k < |r.lists[h]| && r.lists[h][k] == x;
    assert InSequence(blocks, hidden, h, x);
    if h < x {
      var h' := ListHead(r.lists, x);
      OneListPerItem(blocks, hidden, r.lists, h, h', x);
    }
    if Absorbed(r.lists, x) {
      OneListPerItem(blocks, hidden, r.lists, h, ListHead(r.lists, x), x);
    }
  }

  lemma OneListPerItem(blocks: seq<Block>, hidden: set<nat>, lists: map<nat, seq<nat>>, h: nat, h': nat, x: nat)
    requires ListsBelow(blocks, hidden, lists, |blocks|)
    requires h in lists && h' in lists && x in lists[h] && x in lists[h']
    ensures h == h'
  {
    if h < h' {
      ListsAreDisjoint(blocks, hidden, lists, h, h');
    } else if h' < h {
      ListsAreDisjoint(blocks, hidden, lists, h', h);
    }
  }

  lemma ChainMemberFacts(blocks: seq<Block>, r: Repairs, i: nat, x: nat)
    requires Repaired(blocks, r) && i in r.chains && x in r.chains[i]
    ensures i < x < |blocks| && x in r.contOf && HeadOf(r.contOf, x) == i && blocks[x].kind.Paragraph?
  {
    assert i !in r.contOf && r.chains[i] == Chain(r.next, |blocks|, i);
    ChainMembersShareHead(r.contOf, r.next, |blocks|, i);
    assert Links(blocks, GluedAway(blocks) + r.clusterSkip, r.contOf[x], x);
  }

  // Chunks are only ever carried by the keeper's unit.
  lemma OnlyKeeperCarries(blocks: seq<Block>, r: Repairs, f: Filters, i: nat, x: nat)
    requires Repaired(blocks, r) && Carries(blocks, r, f, i, x)
    ensures i == Keeper(blocks, r, x)
  {
    if RendersAlone(blocks, r, f, i) || RendersListing(blocks, r, f, i) {
      OwnBlockIsFree(blocks, r, i);
    } else if RendersList(blocks, r, f, i) {
      ListItemIsFree(blocks, r, i, x);
      if x == i {
        OwnBlockIsFree(blocks, r, i);
      }
    } else {
      if i in r.chains && x in r.chains[i] {
        ChainMemberFacts(blocks, r, i, x);
      } else if x == i {
        OwnBlockIsFree(blocks, r, i);
      } else {
        HeadingIsFree(blocks, r, i);
      }
    }
  }

  lemma OwnBlockIsFree(blocks: seq<Block>, r: Repairs, i: nat)
    requires Repaired(blocks, r) && i < |blocks| && i !in r.skip
    ensures Keeper(blocks, r, i) == i
  {
    assert Glues(blocks, i) ==> i in GluedAway(blocks);
  }

  lemma ContinuationsAreParagraphs(blocks: seq<Block>, r: Repairs)
    requires Repaired(blocks, r)
    ensures forall x :: x in r.contOf ==> x < |blocks| && blocks[x].kind.Paragraph?
  {
    forall x | x in r.contOf ensures x < |blocks| && blocks[x].kind.Paragraph? {
      assert Links(blocks, GluedAway(blocks) + r.clusterSkip, r.contOf[x], x);
    }
  }

  lemma HeadingIsFree(blocks: seq<Block>, r: Repairs, i: nat)
    requires Repaired(blocks, r) && i in r.prepended
    ensures Keeper(blocks, r, r.prepended[i]) == i
  {
    PrependedPlace(blocks, r, i);
    HeadingIsNoProse(blocks, r, r.prepended[i]);
  }

  lemma HeadingIsNoProse(blocks: seq<Block>, r: Repairs, x: nat)
    requires Repaired(blocks, r) && x < |blocks| && blocks[x].kind.Heading?
    ensures x !in r.contOf && !Absorbed(r.lists, x)
  {
    ContinuationsAreParagraphs(blocks, r);
    if Absorbed(r.lists, x) {
      ListItemIsFree(blocks, r, ListHead(r.lists, x), x);
    }
  }

  // ----- Printed sources -----

  lemma PrinterFacts(blocks: seq<Block>, r: Repairs, f: Filters, h: nat, x: nat)
    requires Repaired(blocks, r) && PrintsIn(blocks, r, f, h, x)
    ensures RendersListing(blocks, r, f, h) && Prints(blocks, h, x) && x in r.absorbed
  {
    assert Absorbs(blocks, h, x);
  }

  // Two rendered listings never print the same block.
  lemma OnePrinter(blocks: seq<Block>, r: Repairs, f: Filters, h: nat, h': nat, x: nat)
    requires Repaired(blocks, r) && PrintsIn(blocks, r, f, h, x) && PrintsIn(blocks, r, f, h', x)
    ensures h == h'
  {
    PrinterFacts(blocks, r, f, h, x);
    PrinterFacts(blocks, r, f, h', x);
    if h < h' {
      NestedHeaderIsAnnotated(blocks, h, h', x);
    } else if h' < h {
      NestedHeaderIsAnnotated(blocks, h', h, x);
    }
  }

  lemma JoinedMembers(r: Repairs, i: nat, x: nat)
    ensures x in Joined(r, i) <==>
              || x == i
              || (i in r.prepended && x == r.prepended[i])
              || (i in r.chains && x in r.chains[i])
  {
  }

  // What a unit can carry besides its own block.
  lemma CarriedShape(blocks: seq<Block>, r: Repairs, f: Filters, i: nat, x: nat)
    requires Carries(blocks, r, f, i, x) && x != i
    ensures (i in r.lists && x in r.lists[i]) || (i in r.chains && x in r.chains[i])
            || (i in r.prepended && x == r.prepended[i])
    ensures i !in r.absorbed && i !in r.bodies
  {
    JoinedMembers(r, i, x);
  }

  // It comes after the block, or is the heading right above it.
  lemma CarriedPlace(blocks: seq<Block>, r: Repairs, f: Filters, i: nat, x: nat)
    requires Repaired(blocks, r) && Carries(blocks, r, f, i, x) && x != i
    ensures x < |blocks|
    ensures if x < i then x + 1 == i && blocks[x].kind.Heading? else blocks[x].kind.Paragraph?
  {
    CarriedShape(blocks, r, f, i, x);
    if i in r.chains && x in r.chains[i] {
      ChainMemberFacts(blocks, r, i, x);
    } else if i in r.lists && x in r.lists[i] {
      ListItemIsFree(blocks, r, i, x);
    } else {
      PrependedPlace(blocks, r, i);
    }
  }

  lemma PrependedPlace(blocks: seq<Block>, r: Repairs, i: nat)
    requires HeadingsJoined(blocks, r.prepended) && i in r.prepended
    ensures var x := r.prepended[i]; x + 1 == i && i < |blocks| && blocks[x].kind.Heading? && Prepends(blocks, x)
  {
    assert PrependedTo(blocks, i);
  }

  // Reading order survives: nothing renders between a unit's own block and a
  // later block whose chunks the unit carries.
  lemma NothingRendersInside(blocks: seq<Block>, r: Repairs, f: Filters, i: nat, p: nat, x: nat)
    requires Repaired(blocks, r) && Carries(blocks, r, f, i, x) && i < p <= x
    ensures UnitOf(blocks, r, f, p).None?
  {
    CarriedShape(blocks, r, f, i, x);
    if i in r.lists && x in r.lists[i] {
      InsideList(blocks, r, i, p, x);
    } else {
      ChainMemberFacts(blocks, r, i, x);
      ChainHasNoGaps(blocks, GluedAway(blocks) + r.clusterSkip, r.contOf, x, p);
    }
    AbsorbedBlocksRenderNothing(blocks, r, f, p);
  }

  lemma InsideList(blocks: seq<Block>, r: Repairs, i: nat, p: nat, x: nat)
    requires Repaired(blocks, r) && i in r.lists && x in r.lists[i] && i < p <= x
    ensures Absorbed(r.lists, p)
  {
    ListItemIsFree(blocks, r, i, x);
    assert r.lists[i][p - i] == p;
  }

  // Whoever carries another block that a listing takes in starts above that listing.
  lemma CarrierStartsAboveListing(blocks: seq<Block>, r: Repairs, f: Filters, i: nat, h: nat, x: nat)
    requires Repaired(blocks, r) && Carries(blocks, r, f, i, x) && i != x
    requires Prints(blocks, h, x)
    ensures i < h
  {
    CarriedShape(blocks, r, f, i, x);
    CarriedPlace(blocks, r, f, i, x);
    ListingClosesDownward(blocks, r, h, i, x);
  }

  lemma ListingClosesDownward(blocks: seq<Block>, r: Repairs, h: nat, i: nat, x: nat)
    requires Repaired(blocks, r) && Prints(blocks, h, x)
    ensures h in r.bodies && !blocks[x].kind.Heading?
    ensures h < i <= x ==> i in r.absorbed
  {
    assert InListing(blocks[x]);
    assert h < i <= x ==> Absorbs(blocks, h, i);
  }

  // A block is both carried and printed only when it renders alone inside
  // somebody else's listing.
  lemma PrintedMeansNotPulled(blocks: seq<Block>, r: Repairs, f: Filters, i: nat, h: nat, x: nat)
    requires Repaired(blocks, r) && PrintsIn(blocks, r, f, h, x) && Carries(blocks, r, f, i, x)
    ensures i == x && RendersAlone(blocks, r, f, x)
  {
    PrinterFacts(blocks, r, f, h, x);
    if i != x {
      CarrierStartsAboveListing(blocks, r, f, i, h, x);
      NothingRendersInside(blocks, r, f, i, h, x);
    }
  }

  // ----- The cases, read off the render loop -----

  lemma BranchesExclude(blocks: seq<Block>, r: Repairs, f: Filters, i: nat)
    ensures RendersListing(blocks, r, f, i) ==> !RendersAlone(blocks, r, f, i)
    ensures RendersList(blocks, r, f, i) ==> !RendersAlone(blocks, r, f, i) && !RendersListing(blocks, r, f, i)
    ensures RendersProse(blocks, r, f, i) ==>
              !RendersAlone(blocks, r, f, i) && !RendersListing(blocks, r, f, i) && !RendersList(blocks, r, f, i)
  {
  }

  lemma PrintsIff(blocks: seq<Block>, r: Repairs, f: Filters, h: nat, x: nat)
    requires Repaired(blocks, r)
    ensures PrintsIn(blocks, r, f, h, x) <==> ListedIn(blocks, r, f, h, x)
  {
    BranchesExclude(blocks, r, f, h);
    if RendersListing(blocks, r, f, h) {
      assert r.bodies[h] == Printed(blocks, h, |blocks|);
    }
  }

  lemma ShowsIff(blocks: seq<Block>, r: Repairs, f: Filters, i: nat, x: nat)
    ensures Shows(blocks, r, f, i, x) <==>
            i < |blocks| && UnitOf(blocks, r, f, i).Some? && UnitOf(blocks, r, f, i).value.aside == Some(x)
  {
    BranchesExclude(blocks, r, f, i);
  }

  // The unit of k carries x as prose, or not at all.
  lemma ProseCarries(blocks: seq<Block>, r: Repairs, f: Filters, k: nat, x: nat)
    requires k < |blocks| && k != x && x in Joined(r, k) && (k in r.lists ==> x !in r.lists[k])
    ensures Carries(blocks, r, f, k, x) <==> RendersProse(blocks, r, f, k)
  {
    BranchesExclude(blocks, r, f, k);
  }

  // The unit of k carries x as a list item, or not at all.
  lemma ListCarries(blocks: seq<Block>, r: Repairs, f: Filters, k: nat, x: nat)
    requires k < |blocks| && k != x && x !in Joined(r, k) && k in r.lists && x in r.lists[k]
    ensures Carries(blocks, r, f, k, x) <==> RendersList(blocks, r, f, k)
  {
    BranchesExclude(blocks, r, f, k);
  }

  lemma HeadHasChain(blocks: seq<Block>, r: Repairs, x: nat)
    requires Repaired(blocks, r) && x in r.contOf
    ensures x < |blocks|
    ensures var k := HeadOf(r.contOf, x); k in r.chains && x in r.chains[k] && k < x
  {
    var k := HeadOf(r.contOf, x);
    ContinuationIsInHeadsChain(r.contOf, r.next, |blocks|, x);
    assert k in r.next && k !in r.contOf;
  }

  lemma NoItem(blocks: seq<Block>, r: Repairs, k: nat, x: nat)
    requires Repaired(blocks, r) && (x in r.contOf || Glues(blocks, x))
    ensures k in r.lists ==> x !in r.lists[k]
  {
    if k in r.lists && x in r.lists[k] {
      ListItemIsFree(blocks, r, k, x);
    }
  }

  lemma ItemIsNotJoined(blocks: seq<Block>, r: Repairs, k: nat, x: nat)
    requires Repaired(blocks, r) && x !in r.contOf && k < x
    ensures x !in Joined(r, k)
  {
    JoinedMembers(r, k, x);
    if k in r.chains && x in r.chains[k] {
      ChainMemberFacts(blocks, r, k, x);
    }
  }

  lemma OwnChunksCarried(blocks: seq<Block>, r: Repairs, f: Filters, x: nat)
    requires Repaired(blocks, r) && x < |blocks|
    ensures Carries(blocks, r, f, x, x) <==>
            || RendersAlone(blocks, r, f, x) || RendersListing(blocks, r, f, x)
            || RendersList(blocks, r, f, x) || RendersProse(blocks, r, f, x)
  {
    JoinedMembers(r, x, x);
    if x in r.lists {
      assert r.lists[x] == Span(x, |r.lists[x]|) && IsRun(blocks, LinkedAway(blocks, r.clusterSkip) + r.contOf.Keys + r.clusterSkip, x, 3);
      RunsWithinMaximal(blocks, LinkedAway(blocks, r.clusterSkip) + r.contOf.Keys + r.clusterSkip, x, 3, |r.lists[x]|);
      assert r.lists[x][0] == x;
    }
  }

  lemma ContinuationCarried(blocks: seq<Block>, r: Repairs, f: Filters, x: nat)
    requires Repaired(blocks, r) && x < |blocks| && x in r.contOf
    ensures Carries(blocks, r, f, Keeper(blocks, r, x), x) <==> ComesOut(blocks, r, f, x)
  {
    var k := Keeper(blocks, r, x);
    HeadHasChain(blocks, r, x);
    NoItem(blocks, r, k, x);
    JoinedMembers(r, k, x);
    ProseCarries(blocks, r, f, k, x);
  }

  lemma ItemCarried(blocks: seq<Block>, r: Repairs, f: Filters, x: nat)
    requires Repaired(blocks, r) && x < |blocks| && x !in r.contOf && Absorbed(r.lists, x)
    ensures Carries(blocks, r, f, Keeper(blocks, r, x), x) <==> ComesOut(blocks, r, f, x)
  {
    var k := Keeper(blocks, r, x);
    ListItemIsFree(blocks, r, k, x);
    ItemIsNotJoined(blocks, r, k, x);
    ListCarries(blocks, r, f, k, x);
  }

  lemma PrependedHere(blocks: seq<Block>, prepended: map<nat, nat>, x: nat, k: nat)
    requires HeadingsJoined(blocks, prepended) && Prepends(blocks, x) && k == x + 1
    ensures k < |blocks| && Glues(blocks, x) && k in prepended && prepended[k] == x
  {
    assert PrependedTo(blocks, k);
  }

  // A prepended heading is joined to the next block, and is no item of it.
  lemma JoinsNext(blocks: seq<Block>, r: Repairs, x: nat, k: nat)
    requires Repaired(blocks, r) && Glues(blocks, x) && k in r.prepended && r.prepended[k] == x
    ensures x in Joined(r, k)
    ensures k in r.lists ==> x !in r.lists[k]
  {
    NoItem(blocks, r, k, x);
    JoinedMembers(r, k, x);
  }

  lemma PrependedKeeper(blocks: seq<Block>, r: Repairs, f: Filters, x: nat, k: nat)
    requires Repaired(blocks, r) && x !in r.contOf && !Absorbed(r.lists, x) && Prepends(blocks, x) && k == x + 1
    ensures Keeper(blocks, r, x) == k
    ensures ComesOut(blocks, r, f, x) <==> RendersProse(blocks, r, f, k)
  {
  }

  lemma PrependedCarried(blocks: seq<Block>, r: Repairs, f: Filters, x: nat)
    requires Repaired(blocks, r) && x !in r.contOf && !Absorbed(r.lists, x) && Prepends(blocks, x)
    ensures Carries(blocks, r, f, Keeper(blocks, r, x), x) <==> ComesOut(blocks, r, f, x)
  {
    var k: nat := x + 1;
    PrependedHere(blocks, r.prepended, x, k);
    JoinsNext(blocks, r, x, k);
    PrependedKeeper(blocks, r, f, x, k);
    ProseCarries(blocks, r, f, k, x);
  }

  // A block's chunks are carried exactly in these branches.
  lemma CarriedIff(blocks: seq<Block>, r: Repairs, f: Filters, x: nat)
    requires Repaired(blocks, r) && x < |blocks|
    ensures Carries(blocks, r, f, Keeper(blocks, r, x), x) <==> ComesOut(blocks, r, f, x)
  {
    if x in r.contOf {
      ContinuationCarried(blocks, r, f, x);
    } else if Absorbed(r.lists, x) {
      ItemCarried(blocks, r, f, x);
    } else if Prepends(blocks, x) {
      PrependedCarried(blocks, r, f, x);
    } else {
      OwnChunksCarried(blocks, r, f, x);
    }
  }

  // What is shown beside a unit's chunks is the first title of an untranslated
  // heading's section, or a figure's caption, and never the unit's own block.
  lemma ShownIsTitleOrCaption(blocks: seq<Block>, r: Repairs, f: Filters, i: nat, x: nat)
    requires CaptionsShown(blocks, f) && Shows(blocks, r, f, i, x)
    ensures x != i && x < |blocks|
    ensures if blocks[i].kind.Heading? then
              && !blocks[i].translated && blocks[i].section.Some? && Titles(blocks, blocks[i].section.value, x)
              && forall y: nat :: y < x ==> !Titles(blocks, blocks[i].section.value, y)
            else blocks[i].kind.Figure? && blocks[x].kind.Caption?
  {
    if blocks[i].kind.Heading? {
      TitleIff(blocks, blocks[i].section.value, |blocks|, x);
    }
  }

  // Whatever part of x a unit holds, it is the keeper's unit, the unit of a listing
  // that printed x, or one that shows x.
  lemma OnlyTheseHold(blocks: seq<Block>, r: Repairs, f: Filters, i: nat, x: nat)
    requires Repaired(blocks, r) && i < |blocks| && UnitOf(blocks, r, f, i).Some?
    requires var u := UnitOf(blocks, r, f, i).value; x in u.chunks || x in u.code || u.aside == Some(x)
    ensures i == Keeper(blocks, r, x) || ListedIn(blocks, r, f, i, x) || Shows(blocks, r, f, i, x)
  {
    ShowsIff(blocks, r, f, i, x);
    PrintsIff(blocks, r, f, i, x);
    if Carries(blocks, r, f, i, x) {
      OnlyKeeperCarries(blocks, r, f, i, x);
    }
  }

  // ----- Counting -----

  function Times(s: seq<nat>, x: nat): nat {
    multiset(s)[x]
  }

  // How often the chapter carries x's translated chunks.
  function ChunkCount(units: seq<Unit>, x: nat): nat {
    if units == [] then 0
    else ChunkCount(units[..|units| - 1], x) + Times(units[|units| - 1].chunks, x)
  }

  // How often the chapter prints x's source in a code body.
  function CodeCount(units: seq<Unit>, x: nat): nat {
    if units == [] then 0
    else CodeCount(units[..|units| - 1], x) + Times(units[|units| - 1].code, x)
  }

  lemma CountAppend(units: seq<Unit>, u: Unit, x: nat)
    ensures ChunkCount(units + [u], x) == ChunkCount(units, x) + Times(u.chunks, x)
    ensures CodeCount(units + [u], x) == CodeCount(units, x) + Times(u.code, x)
  {
    assert (units + [u])[..|units|] == units;
  }

  lemma {:induction false} TimesInAscending(s: seq<nat>, x: nat)
    requires Ascends(s)
    ensures Times(s, x) == if x in s then 1 else 0
  {
    if s != [] {
      var rest := s[..|s| - 1];
      TimesInAscending(rest, x);
      assert s == rest + [s[|s| - 1]];
      if x == s[|s| - 1] {
        assert forall a :: 0 <= a < |rest| ==> rest[a] == s[a] < x;
      }
    }
  }

  ghost predicate Ascends(s: seq<nat>) {
    forall a, b :: 0 <= a < b < |s| ==> s[a] < s[b]
  }

  lemma JoinedAscends(r: Repairs, i: nat)
    requires i in r.prepended ==> r.prepended[i] < i
    requires i in r.chains ==> Ascends(r.chains[i]) && forall t :: 0 <= t < |r.chains[i]| ==> i < r.chains[i][t]
    ensures Ascends(Joined(r, i))
  {
  }

  lemma ChainsAscend(blocks: seq<Block>, r: Repairs, i: nat)
    requires Repaired(blocks, r) && i in r.chains
    ensures Ascends(r.chains[i]) && forall t :: 0 <= t < |r.chains[i]| ==> i < r.chains[i][t]
  {
    ChainAscends(r.contOf, r.next, |blocks|, i);
  }

  lemma ChainAscends(contOf: map<nat, nat>, next: map<nat, nat>, n: nat, i: nat)
    requires Forward(next, n) && i in ChainsBelow(contOf, next, n, n)
    ensures var chain := ChainsBelow(contOf, next, n, n)[i];
            Ascends(chain) && forall t :: 0 <= t < |chain| ==> i < chain[t]
  {
    ChainIsReadingOrder(next, n, i);
    assert ChainsBelow(contOf, next, n, n)[i] == Chain(next, n, i);
  }

  lemma PartsAscend(blocks: seq<Block>, r: Repairs, i: nat)
    requires Repaired(blocks, r)
    ensures Ascends(Joined(r, i)) && (i in r.lists ==> Ascends(r.lists[i])) && (i in r.bodies ==> Ascends(r.bodies[i]))
  {
    if i in r.prepended {
      PrependedPlace(blocks, r, i);
    }
    if i in r.chains {
      ChainsAscend(blocks, r, i);
    }
    JoinedAscends(r, i);
    if i in r.lists {
      assert r.lists[i] == Span(i, |r.lists[i]|);
    }
    if i in r.bodies {
      assert r.bodies[i] == Printed(blocks, i, |blocks|);
    }
  }

  // No unit repeats a block.
  lemma UnitsAscend(blocks: seq<Block>, r: Repairs, f: Filters, i: nat)
    requires Repaired(blocks, r) && i < |blocks| && UnitOf(blocks, r, f, i).Some?
    ensures Ascends(UnitOf(blocks, r, f, i).value.chunks) && Ascends(UnitOf(blocks, r, f, i).value.code)
  {
    PartsAscend(blocks, r, i);
  }

  function ChunkShare(u: Option<Unit>, x: nat): nat {
    if u.Some? then Times(u.value.chunks, x) else 0
  }

  function CodeShare(u: Option<Unit>, x: nat): nat {
    if u.Some? then Times(u.value.code, x) else 0
  }

  // What each position contributes to the two counts.
  function Slots(blocks: seq<Block>, r: Repairs, f: Filters, m: nat): (s: seq<Option<Unit>>)
    ensures |s| == m && forall i :: 0 <= i < m ==> s[i] == UnitOf(blocks, r, f, i)
  {
    seq(m, (i: nat) => UnitOf(blocks, r, f, i))
  }

  function Present(slots: seq<Option<Unit>>): seq<Unit> {
    if slots == [] then []
    else
      var u := slots[|slots| - 1];
      Present(slots[..|slots| - 1]) + (if u.Some? then [u.value] else [])
  }

  lemma {:induction false} UnitsAreSlots(blocks: seq<Block>, r: Repairs, f: Filters, m: nat)
    ensures UnitsBelow(blocks, r, f, m) == Present(Slots(blocks, r, f, m))
  {
    if m > 0 {
      UnitsAreSlots(blocks, r, f, m - 1);
      assert Slots(blocks, r, f, m)[..m - 1] == Slots(blocks, r, f, m - 1);
    }
  }

  function ChunkTotal(slots: seq<Option<Unit>>, x: nat): nat {
    if slots == [] then 0 else ChunkTotal(slots[..|slots| - 1], x) + ChunkShare(slots[|slots| - 1], x)
  }

  function CodeTotal(slots: seq<Option<Unit>>, x: nat): nat {
    if slots == [] then 0 else CodeTotal(slots[..|slots| - 1], x) + CodeShare(slots[|slots| - 1], x)
  }

  lemma {:induction false} CountsAreTotals(slots: seq<Option<Unit>>, x: nat)
    ensures ChunkCount(Present(slots), x) == ChunkTotal(slots, x)
    ensures CodeCount(Present(slots), x) == CodeTotal(slots, x)
  {
    if slots != [] {
      var rest := slots[..|slots| - 1];
      CountsAreTotals(rest, x);
      var u := slots[|slots| - 1];
      if u.Some? {
        CountAppend(Present(rest), u.value, x);
      } else {
        assert Present(slots) == Present(rest);
      }
    }
  }

  lemma {:induction false} SoleCarrier(slots: seq<Option<Unit>>, x: nat, k: nat, b: bool)
    requires forall i :: 0 <= i < |slots| ==> ChunkShare(slots[i], x) == if i == k && b then 1 else 0
    ensures ChunkTotal(slots, x) == if k < |slots| && b then 1 else 0
  {
    if slots != [] {
      SoleCarrier(slots[..|slots| - 1], x, k, b);
    }
  }

  lemma {:induction false} SolePrinter(slots: seq<Option<Unit>>, x: nat, k: nat, b: bool)
    requires forall i :: 0 <= i < |slots| ==> CodeShare(slots[i], x) == if i == k && b then 1 else 0
    ensures CodeTotal(slots, x) == if k < |slots| && b then 1 else 0
  {
    if slots != [] {
      SolePrinter(slots[..|slots| - 1], x, k, b);
    }
  }

  // Every chapter carries a block's translated chunks exactly once if the
  // block's keeper renders them, and never otherwise.
  lemma ChunkAccount(blocks: seq<Block>, r: Repairs, f: Filters, x: nat)
    requires Repaired(blocks, r) && x < |blocks|
    ensures ChunkCount(UnitsBelow(blocks, r, f, |blocks|), x)
         == if Carries(blocks, r, f, Keeper(blocks, r, x), x) then 1 else 0
  {
    var k := Keeper(blocks, r, x);
    var slots := Slots(blocks, r, f, |blocks|);
    forall i: nat | i < |blocks|
      ensures ChunkShare(slots[i], x) == if i == k && Carries(blocks, r, f, k, x) then 1 else 0
    {
      var u := UnitOf(blocks, r, f, i);
      if u.Some? {
        UnitsAscend(blocks, r, f, i);
        TimesInAscending(u.value.chunks, x);
        if Carries(blocks, r, f, i, x) {
          OnlyKeeperCarries(blocks, r, f, i, x);
        }
      }
    }
    SoleCarrier(slots, x, k, Carries(blocks, r, f, k, x));
    UnitsAreSlots(blocks, r, f, |blocks|);
    CountsAreTotals(slots, x);
  }

  // Every chapter prints a block's source as code exactly once if some rendered
  // listing took the block in, and never otherwise.
  lemma CodeAccount(blocks: seq<Block>, r: Repairs, f: Filters, x: nat)
    requires Repaired(blocks, r)
    ensures CodeCount(UnitsBelow(blocks, r, f, |blocks|), x)
         == if exists h: nat :: PrintsIn(blocks, r, f, h, x) then 1 else 0
  {
    var b := exists h: nat :: PrintsIn(blocks, r, f, h, x);
    var k: nat := 0;
    if b {
      k :| PrintsIn(blocks, r, f, k, x);
    }
    var slots := Slots(blocks, r, f, |blocks|);
    forall i: nat | i < |blocks|
      ensures CodeShare(slots[i], x) == if i == k && b then 1 else 0
    {
      var u := UnitOf(blocks, r, f, i);
      if u.Some? {
        UnitsAscend(blocks, r, f, i);
        TimesInAscending(u.value.code, x);
        if PrintsIn(blocks, r, f, i, x) {
          OnePrinter(blocks, r, f, i, k, x);
        }
      }
    }
    SolePrinter(slots, x, k, b);
    UnitsAreSlots(blocks, r, f, |blocks|);
    CountsAreTotals(slots, x);
  }

  // How often the chapter shows x beside some unit's own chunks.
  function AsideCount(units: seq<Unit>, x: nat): nat {
    if units == [] then 0
    else AsideCount(units[..|units| - 1], x) + (if units[|units| - 1].aside == Some(x) then 1 else 0)
  }

  // The units that show x, by position.
  function Showers(blocks: seq<Block>, r: Repairs, f: Filters, x: nat, m: nat): set<nat> {
    set i: nat | i < m && Shows(blocks, r, f, i, x)
  }

  lemma AsideAppend(units: seq<Unit>, u: Unit, x: nat)
    ensures AsideCount(units + [u], x) == AsideCount(units, x) + if u.aside == Some(x) then 1 else 0
  {
    assert (units + [u])[..|units|] == units;
  }

  lemma ShowersStep(blocks: seq<Block>, r: Repairs, f: Filters, x: nat, m: nat)
    ensures |Showers(blocks, r, f, x, m + 1)|
         == |Showers(blocks, r, f, x, m)| + if Shows(blocks, r, f, m, x) then 1 else 0
  {
    var before := Showers(blocks, r, f, x, m);
    assert Showers(blocks, r, f, x, m + 1) == before + if Shows(blocks, r, f, m, x) then {m} else {};
  }

  lemma AsideStep(blocks: seq<Block>, r: Repairs, f: Filters, x: nat, i: nat)
    requires i < |blocks|
    ensures AsideCount(UnitsBelow(blocks, r, f, i + 1), x)
         == AsideCount(UnitsBelow(blocks, r, f, i), x) + if Shows(blocks, r, f, i, x) then 1 else 0
  {
    ShowsIff(blocks, r, f, i, x);
    var u := UnitOf(blocks, r, f, i);
    if u.Some? {
      AsideAppend(UnitsBelow(blocks, r, f, i), u.value, x);
    } else {
      assert UnitsBelow(blocks, r, f, i + 1) == UnitsBelow(blocks, r, f, i);
    }
  }

  lemma {:induction false} AsideAccount(blocks: seq<Block>, r: Repairs, f: Filters, x: nat, m: nat)
    requires m <= |blocks|
    ensures AsideCount(UnitsBelow(blocks, r, f, m), x) == |Showers(blocks, r, f, x, m)|
  {
    if m == 0 {
      assert Showers(blocks, r, f, x, m) == {};
    } else {
      var i: nat := m - 1;
      AsideAccount(blocks, r, f, x, i);
      ShowersStep(blocks, r, f, x, i);
      AsideStep(blocks, r, f, x, i);
    }
  }

  // How often the content of x appears in the chapter, whichever way.
  function Appearances(units: seq<Unit>, x: nat): nat {
    ChunkCount(units, x) + CodeCount(units, x) + AsideCount(units, x)
  }

  // The exact account: once for the branch that renders x's chunks, once for a
  // rendered listing around x, and once for every unit that shows x as a title or
  // caption.
  lemma ContentAccount(blocks: seq<Block>, r: Repairs, f: Filters, x: nat)
    requires Repaired(blocks, r) && x < |blocks|
    ensures Appearances(UnitsBelow(blocks, r, f, |blocks|), x)
         == (if ComesOut(blocks, r, f, x) then 1 else 0)
            + (if exists h: nat :: ListedIn(blocks, r, f, h, x) then 1 else 0)
            + |Showers(blocks, r, f, x, |blocks|)|
  {
    ChunkAccount(blocks, r, f, x);
    CarriedIff(blocks, r, f, x);
    CodeAccount(blocks, r, f, x);
    forall h: nat ensures PrintsIn(blocks, r, f, h, x) <==> ListedIn(blocks, r, f, h, x) {
      PrintsIff(blocks, r, f, h, x);
    }
    AsideAccount(blocks, r, f, x, |blocks|);
  }

  // Chunks come out inside a rendered listing around them only for a curated or
  // promoted block that renders alone.
  lemma ListedAndOut(blocks: seq<Block>, r: Repairs, f: Filters, h: nat, x: nat)
    requires Repaired(blocks, r) && x < |blocks| && ListedIn(blocks, r, f, h, x)
    ensures ComesOut(blocks, r, f, x) <==> RendersAlone(blocks, r, f, x)
  {
    PrintsIff(blocks, r, f, h, x);
    CarriedIff(blocks, r, f, x);
    var k := Keeper(blocks, r, x);
    if Carries(blocks, r, f, k, x) {
      PrintedMeansNotPulled(blocks, r, f, k, h, x);
    }
    if RendersAlone(blocks, r, f, x) {
      OnlyKeeperCarries(blocks, r, f, x, x);
    }
  }

  lemma ListedIsNotShown(blocks: seq<Block>, r: Repairs, f: Filters, h: nat, i: nat, x: nat)
    requires CaptionsShown(blocks, f) && ListedIn(blocks, r, f, h, x)
    ensures !Shows(blocks, r, f, i, x)
  {
    assert InListing(blocks[x]);
    if Shows(blocks, r, f, i, x) {
      ShownIsTitleOrCaption(blocks, r, f, i, x);
    }
  }

  // The content of a block appears at most once in the chapter, except exactly when
  // it renders alone inside a rendered listing that also prints it, or is shown
  // beside some unit although it also comes out, or is shown by two units.
  lemma AtMostOnceIff(blocks: seq<Block>, r: Repairs, f: Filters, x: nat)
    requires Repaired(blocks, r) && x < |blocks| && CaptionsShown(blocks, f)
    ensures Appearances(UnitsBelow(blocks, r, f, |blocks|), x) <= 1 <==>
              && !(RendersAlone(blocks, r, f, x) && exists h: nat :: ListedIn(blocks, r, f, h, x))
              && !(ComesOut(blocks, r, f, x) && exists i: nat :: Shows(blocks, r, f, i, x))
              && (forall i: nat, j: nat :: Shows(blocks, r, f, i, x) && Shows(blocks, r, f, j, x) ==> i == j)
  {
    ContentAccount(blocks, r, f, x);
    ShowersCount(blocks, r, f, x);
    if h: nat :| ListedIn(blocks, r, f, h, x) {
      ListedAndOut(blocks, r, f, h, x);
      forall i: nat ensures !Shows(blocks, r, f, i, x) {
        ListedIsNotShown(blocks, r, f, h, i, x);
      }
    }
  }

  lemma ShowersCount(blocks: seq<Block>, r: Repairs, f: Filters, x: nat)
    ensures var n := |Showers(blocks, r, f, x, |blocks|)|;
            && (n == 0 <==> !exists i: nat :: Shows(blocks, r, f, i, x))
            && (n <= 1 <==>
                  forall i: nat, j: nat :: Shows(blocks, r, f, i, x) && Shows(blocks, r, f, j, x) ==> i == j)
  {
    var showers := Showers(blocks, r, f, x, |blocks|);
    assert forall i: nat :: Shows(blocks, r, f, i, x) <==> i in showers;
    if showers != {} {
      var i :| i in showers;
      assert |showers - {i}| == |showers| - 1;
      assert (forall j :: j in showers ==> j == i) ==> showers - {i} == {};
    }
  }

  // Only headings and captions can appear beside somebody else's chunks, so every
  // other block appears at most twice, and twice in one way only.
  lemma AtMostTwice(blocks: seq<Block>, r: Repairs, f: Filters, x: nat)
    requires Repaired(blocks, r) && x < |blocks| && CaptionsShown(blocks, f)
    requires !blocks[x].kind.Heading? && !blocks[x].kind.Caption?
    ensures Appearances(UnitsBelow(blocks, r, f, |blocks|), x)
         == (if ComesOut(blocks, r, f, x) then 1 else 0)
            + (if exists h: nat :: ListedIn(blocks, r, f, h, x) then 1 else 0)
    ensures Appearances(UnitsBelow(blocks, r, f, |blocks|), x) == 2 <==>
            RendersAlone(blocks, r, f, x) && exists h: nat :: ListedIn(blocks, r, f, h, x)
  {
    ContentAccount(blocks, r, f, x);
    ShowersCount(blocks, r, f, x);
    forall i: nat ensures !Shows(blocks, r, f, i, x) {
      if Shows(blocks, r, f, i, x) {
        ShownIsTitleOrCaption(blocks, r, f, i, x);
      }
    }
    if h: nat :| ListedIn(blocks, r, f, h, x) {
      ListedAndOut(blocks, r, f, h, x);
    }
  }
}
