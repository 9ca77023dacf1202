// The repair passes in sequence, and the loop that renders what they leave.
module ChapterRender {
  // scripts/export_chapter_zh_html.py:2865-3129, 3346-3446, 3469-4077.
  //
  // The passes communicate only through sets and maps over block positions. The
  // render loop pulls the translated chunks of absorbed blocks back into the unit
  // of the block that absorbed them. What is proved here is the account of every
  // block: which unit carries its text, and how often it appears in the chapter.

  import opened Wrappers
  import opened ChapterBlocks
  import opened Continuations
  import opened OrderedLists
  import opened Headings
  import opened Listings
  import opened PanelClusters

  // Everything the passes hand to the render loop.
  datatype Repairs = Repairs(
    clusterSkip: set<nat>,
    prepended: map<nat, nat>,
    contOf: map<nat, nat>,
    next: map<nat, nat>,
    chains: map<nat, seq<nat>>,
    lists: map<nat, seq<nat>>,
    bodies: map<nat, seq<nat>>,
    absorbed: set<nat>,
    skip: set<nat>)

  // Filters of the render loop that neither read nor write the repair state.
  // The results below hold for any choice of them.
  datatype Filters = Filters(
    early: set<nat>,      // consumed captions, back matter, duplicate title, text inside figures, sidebars
    promoted: set<nat>,   // running headers rendered as section headings
    late: set<nat>,       // page artifacts, figure labels, code side-annotations
    curated: set<nat>,    // paragraphs with a hand-made sidebar or chapter-cover rendering
    stubbed: set<nat>,    // tiny blocks whose translation is a stub
    emptyList: set<nat>,  // list heads none of whose items has text
    silent: set<nat>,     // units that come out empty
    captions: map<nat, nat>)  // the caption whose text a figure shows, if any

  // A rendered unit: whose chunks it carries, whose source it prints as code, and
  // whose text it shows besides: a heading of the same section, or a caption.
  datatype Unit = Unit(owner: nat, chunks: seq<nat>, code: seq<nat>, aside: Option<nat>)

  // The skip set after heading glue, after linking, after chaining.
  ghost function GluedAway(blocks: seq<Block>): set<nat> {
    set i: nat | 0 <= i < |blocks| && Glues(blocks, i)
  }

  ghost function LinkedAway(blocks: seq<Block>, clusterSkip: set<nat>): set<nat> {
    var s := GluedAway(blocks);
    s + set h: nat | 0 <= h < |blocks| && SteppedOver(blocks, s + clusterSkip, h)
  }

  // Exactly the fragments to be put back in front are, each right before its block.
  ghost predicate HeadingsJoined(blocks: seq<Block>, prepended: map<nat, nat>) {
    && (forall k: nat :: k in prepended <==> PrependedTo(blocks, k))
    && (forall k: nat :: k in prepended ==> prepended[k] + 1 == k)
  }

  ghost predicate ListingsTaken(blocks: seq<Block>, bodies: map<nat, seq<nat>>, absorbed: set<nat>) {
    && (forall h: nat :: h in bodies <==> IsHeader(blocks, h))
    && (forall h: nat :: h in bodies ==> h < |blocks| && bodies[h] == Printed(blocks, h, |blocks|))
    && (forall x: nat :: x in absorbed <==> exists h: nat :: Absorbs(blocks, h, x))
  }

  // The state the passes establish, whatever the chapter.
  ghost predicate Repaired(blocks: seq<Block>, r: Repairs) {
    var n := |blocks|;
    var s0 := GluedAway(blocks);
    var s2 := LinkedAway(blocks, r.clusterSkip) + r.contOf.Keys;
    && HeadingsJoined(blocks, r.prepended)
    && Records(blocks, s0 + r.clusterSkip, r.contOf, n)
    && Inverse(r.contOf, r.next) && Forward(r.next, n)
    && r.chains == ChainsBelow(r.contOf, r.next, n, n)
    && ListsBelow(blocks, s2 + r.clusterSkip, r.lists, n)
    && (forall k: nat :: k in r.skip <==> k in s2 || Absorbed(r.lists, k))
    && ListingsTaken(blocks, r.bodies, r.absorbed)
  }

  method Repair(blocks: seq<Block>, clusterSkip: set<nat>) returns (r: Repairs)
    ensures Repaired(blocks, r) && r.clusterSkip == clusterSkip
  {
    var glued, prepended, skip := GlueHeadings(blocks);
    assert skip == GluedAway(blocks);
    var contOf, skip1 := LinkContinuations(blocks, skip, clusterSkip);
    assert skip1 == LinkedAway(blocks, clusterSkip) by {
      forall h: nat | SteppedOver(blocks, skip + clusterSkip, h) ensures h < |blocks| {
      }
    }
    LinksInvert(blocks, skip + clusterSkip, contOf);
    var next := Invert(contOf);
    RecordedLinksGoForward(blocks, skip + clusterSkip, contOf, next);
    var chains, skip2 := BuildChains(|blocks|, contOf, next, skip1);
    var lists, skip3 := GroupOrderedLists(blocks, skip2, clusterSkip);
    var bodies, absorbed := AbsorbListings(blocks);
    r := Repairs(clusterSkip, prepended, contOf, next, chains, lists, bodies, absorbed, skip3);
  }

  lemma LinksInvert(blocks: seq<Block>, hidden: set<nat>, contOf: map<nat, nat>)
    requires Records(blocks, hidden, contOf, |blocks|)
    ensures forall j, k :: j in contOf && k in contOf && contOf[j] == contOf[k] ==> j == k
  {
    forall j, k | j in contOf && k in contOf && contOf[j] == contOf[k] ensures j == k {
      LinksAreAMatching(blocks, hidden, contOf[j], j, contOf[k], k);
    }
  }

  // The block reaches the branch that renders it with its own plain chunk list.
  predicate ReachesBody(blocks: seq<Block>, r: Repairs, f: Filters, i: nat) {
    && i < |blocks|
    && i !in f.early && i !in r.clusterSkip && i !in r.skip
    && i !in f.promoted && i !in f.late && !blocks[i].annotated
    && !(i in f.curated && blocks[i].kind.Paragraph?)
    && !blocks[i].kind.Footnote?
    && i !in r.absorbed
  }

  predicate RendersListing(blocks: seq<Block>, r: Repairs, f: Filters, i: nat) {
    ReachesBody(blocks, r, f, i) && i in r.bodies
  }

  predicate RendersList(blocks: seq<Block>, r: Repairs, f: Filters, i: nat) {
    && ReachesBody(blocks, r, f, i) && i !in r.bodies && i !in f.stubbed
    && i in r.lists && blocks[i].kind.Paragraph? && i !in f.emptyList
  }

  predicate RendersProse(blocks: seq<Block>, r: Repairs, f: Filters, i: nat) {
    && ReachesBody(blocks, r, f, i) && i !in r.bodies && i !in f.stubbed && i !in f.silent
    && !(i in r.lists && blocks[i].kind.Paragraph? && i !in f.emptyList)
  }

  // Rendered by itself before the listing state is looked at.
  predicate RendersAlone(blocks: seq<Block>, r: Repairs, f: Filters, i: nat) {
    && i < |blocks|
    && i !in f.early && i !in r.clusterSkip && i !in r.skip
    && if i in f.promoted then i !in f.silent
       else i !in f.late && !blocks[i].annotated && i in f.curated && blocks[i].kind.Paragraph?
  }

  function Joined(r: Repairs, i: nat): seq<nat> {
    (if i in r.prepended then [r.prepended[i]] else []) + [i] + (if i in r.chains then r.chains[i] else [])
  }

  // A translated heading of the section.
  predicate Titles(blocks: seq<Block>, section: nat, x: nat) {
    && x < |blocks| && blocks[x].kind.Heading? && blocks[x].section == Some(section)
    && blocks[x].translated && blocks[x].titled
  }

  // The first one below m.
  function TitleBelow(blocks: seq<Block>, section: nat, m: nat): Option<nat> {
    if m == 0 then None
    else
      var before := TitleBelow(blocks, section, m - 1);
      if before.None? && Titles(blocks, section, m - 1) then Some(m - 1) else before
  }

  // What the unit of i shows besides its chunks. A heading without a translation
  // borrows the title of its section.
  function Aside(blocks: seq<Block>, f: Filters, i: nat): Option<nat>
    requires i < |blocks|
  {
    var b := blocks[i];
    if b.kind.Heading? && !b.translated && b.section.Some? then TitleBelow(blocks, b.section.value, |blocks|)
    else if b.kind.Figure? && i in f.captions then Some(f.captions[i])
    else None
  }

  function UnitOf(blocks: seq<Block>, r: Repairs, f: Filters, i: nat): Option<Unit> {
    if RendersAlone(blocks, r, f, i) then Some(Unit(i, [i], [], None))
    else if RendersListing(blocks, r, f, i) then Some(Unit(i, [i], r.bodies[i], None))
    else if RendersList(blocks, r, f, i) then Some(Unit(i, r.lists[i], [], None))
    else if RendersProse(blocks, r, f, i) then Some(Unit(i, Joined(r, i), [], Aside(blocks, f, i)))
    else None
  }

  function UnitsBelow(blocks: seq<Block>, r: Repairs, f: Filters, m: nat): seq<Unit> {
    if m == 0 then []
    else
      var u := UnitOf(blocks, r, f, m - 1);
      UnitsBelow(blocks, r, f, m - 1) + (if u.Some? then [u.value] else [])
  }

  // The first translated heading of every section.
  method IndexTitles(blocks: seq<Block>) returns (titles: map<nat, nat>)
    ensures forall section: nat :: section in titles <==> TitleBelow(blocks, section, |blocks|).Some?
    ensures forall section: nat :: section in titles ==>
      TitleBelow(blocks, section, |blocks|) == Some(titles[section])
  {
    titles := map[];
    for i := 0 to |blocks|
      invariant forall section: nat :: section in titles <==> TitleBelow(blocks, section, i).Some?
      invariant forall section: nat :: section in titles ==> TitleBelow(blocks, section, i) == Some(titles[section])
    {
      var b := blocks[i];
      if !b.kind.Heading? || !b.translated || b.section.None? {
        continue;
      }
      if b.section.value !in titles && b.titled {
        titles := titles[b.section.value := i];
      }
    }
  }

  lemma {:induction false} TitleIff(blocks: seq<Block>, section: nat, m: nat, x: nat)
    ensures TitleBelow(blocks, section, m) == Some(x) <==>
            x < m && Titles(blocks, section, x) && forall y: nat :: y < x ==> !Titles(blocks, section, y)
    ensures TitleBelow(blocks, section, m).None? ==> forall y: nat :: y < m ==> !Titles(blocks, section, y)
  {
    if m > 0 {
      TitleIff(blocks, section, m - 1, x);
      if TitleBelow(blocks, section, m - 1).Some? {
        TitleIff(blocks, section, m - 1, TitleBelow(blocks, section, m - 1).value);
      }
    }
  }

  // The render loop.
  method Render(blocks: seq<Block>, r: Repairs, f: Filters) returns (units: seq<Unit>)
    ensures units == UnitsBelow(blocks, r, f, |blocks|)
  {
    var titles := IndexTitles(blocks);
    units := [];
    for i := 0 to |blocks|
      invariant units == UnitsBelow(blocks, r, f, i)
    {
      var paragraph := blocks[i].kind.Paragraph?;
      if i in f.early || i in r.clusterSkip || i in r.skip {
        continue;
      }
      if i in f.promoted {
        if i !in f.silent {
          units := units + [Unit(i, [i], [], None)];
        }
        continue;
      }
      if i in f.late || blocks[i].annotated {
        continue;
      }
      if i in f.curated && paragraph {
        units := units + [Unit(i, [i], [], None)];
        continue;
      }
      if blocks[i].kind.Footnote? || i in r.absorbed {
        continue;
      }
      if i in r.bodies {
        units := units + [Unit(i, [i], r.bodies[i], None)];
        continue;
      }
      if i in f.stubbed {
        continue;
      }
      var chunks := [i];
      if i in r.prepended {
        chunks := [r.prepended[i]] + chunks;
      }
      if i in r.chains {
        chunks := chunks + r.chains[i];
      }
      if i in r.lists && paragraph && i !in f.emptyList {
        units := units + [Unit(i, r.lists[i], [], None)];
        continue;
      }
      if i in f.silent {
        continue;
      }
      var aside := None;
      if blocks[i].kind.Figure? && i in f.captions {
        aside := Some(f.captions[i]);
      }
      if blocks[i].kind.Heading? && !blocks[i].translated && blocks[i].section.Some? {
        var section := blocks[i].section.value;
        if section in titles {
          aside := Some(titles[section]);
        }
      }
      assert chunks == Joined(r, i);
      units := units + [Unit(i, chunks, [], aside)];
    }
  }

  // The passes and the render loop, one after the other.
  method RenderChapter(blocks: seq<Block>, f: Filters)
    returns (caps: map<nat, nat>, r: Repairs, units: seq<Unit>)
    ensures ClustersBelow(blocks, caps, |blocks|)
    ensures Repaired(blocks, r) && forall x: nat :: x in r.clusterSkip <==> Inside(blocks, caps, x)
    ensures units == UnitsBelow(blocks, r, f, |blocks|)
  {
    var clusterSkip;
    caps, clusterSkip := DetectClusters(blocks);
    r := Repair(blocks, clusterSkip);
    units := Render(blocks, r, f);
  }
}
