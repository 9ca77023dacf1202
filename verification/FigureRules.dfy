// Multi-panel figures and captions, told by the attributes of the blocks.
module FigureRules {
  // scripts/export_chapter_zh_html.py:2511-2551, 2703-2862.

  import opened Wrappers
  import opened ChapterBlocks
  import P = PanelClusters
  import C = CaptionPairing

  // ----- Figures of several panels -----

  predicate IsPanel(blocks: seq<Block>, page: int, j: nat) {
    j < |blocks| && blocks[j].boxPage == Some(page) && blocks[j].kind == Figure && blocks[j].embedded
  }

  predicate IsCaption(blocks: seq<Block>, page: int, j: nat) {
    j < |blocks| && blocks[j].boxPage == Some(page) && blocks[j].kind == Caption && blocks[j].realCaption
  }

  predicate LeadsTo(blocks: seq<Block>, page: int, j: nat, k: nat) {
    j < k <= j + 5 && (IsPanel(blocks, page, k) || IsCaption(blocks, page, k)) &&
    forall m: nat :: j < m < k && m < |blocks| ==>
      blocks[m].boxPage.None? || (blocks[m].boxPage == Some(page) && blocks[m].kind == Paragraph)
  }

  // Within five blocks behind j comes a panel or the caption, with only paragraphs of
  // the page and blocks without a box before it.
  ghost predicate FigureGoesOn(blocks: seq<Block>, page: int, j: nat) {
    exists k: nat :: LeadsTo(blocks, page, j, k)
  }

  // Block m is a panel, c a real caption of the same page at most eleven blocks behind
  // it, with another panel between them, and nothing but panels, paragraphs behind
  // which the figure goes on, and blocks without a box.
  ghost predicate IsFigure(blocks: seq<Block>, m: nat, c: nat) {
    && m < c < |blocks| && c <= m + 11 && blocks[m].boxPage.Some?
    && var page := blocks[m].boxPage.value;
    && IsPanel(blocks, page, m) && IsCaption(blocks, page, c)
    && (exists p: nat :: m < p < c && IsPanel(blocks, page, p))
    && forall j: nat :: m < j < c ==>
         || blocks[j].boxPage.None? || IsPanel(blocks, page, j)
         || (blocks[j].boxPage == Some(page) && blocks[j].kind == Paragraph && FigureGoesOn(blocks, page, j))
  }

  lemma GoesOnIff(blocks: seq<Block>, page: int, j: nat)
    ensures P.Backed(blocks, page, j) <==> FigureGoesOn(blocks, page, j)
  {
    if k :| j < k < j + 6 && (P.Panel(blocks, page, k) || P.EndCaption(blocks, page, k))
            && forall m :: j < m < k ==> P.Passes(blocks, page, m)
    {
      forall m: nat | j < m < k && m < |blocks|
        ensures blocks[m].boxPage.None? || (blocks[m].boxPage == Some(page) && blocks[m].kind == Paragraph)
      {
        assert P.Passes(blocks, page, m);
      }
      assert LeadsTo(blocks, page, j, k);
    }
    if k: nat :| LeadsTo(blocks, page, j, k) {
      assert P.Panel(blocks, page, k) || P.EndCaption(blocks, page, k);
      assert forall m :: j < m < k ==> P.Passes(blocks, page, m);
    }
  }

  lemma AbsorbableIff(blocks: seq<Block>, page: int, j: nat)
    ensures P.Boxless(blocks, j) || P.Absorbable(blocks, page, j) <==>
              j < |blocks| &&
              (|| blocks[j].boxPage.None? || IsPanel(blocks, page, j)
               || (blocks[j].boxPage == Some(page) && blocks[j].kind == Paragraph && FigureGoesOn(blocks, page, j)))
  {
    GoesOnIff(blocks, page, j);
  }

  lemma SpansIsFigure(blocks: seq<Block>, m: nat, c: nat)
    requires P.Spans(blocks, m, c)
    ensures IsFigure(blocks, m, c)
  {
    var page := blocks[m].boxPage.value;
    forall j: nat | m < j < c
      ensures || blocks[j].boxPage.None? || IsPanel(blocks, page, j)
              || (blocks[j].boxPage == Some(page) && blocks[j].kind == Paragraph && FigureGoesOn(blocks, page, j))
    {
      AbsorbableIff(blocks, page, j);
    }
    var p :| m < p < c && P.Panel(blocks, page, p);
    assert IsPanel(blocks, page, p);
  }

  lemma FigureSpans(blocks: seq<Block>, m: nat, c: nat)
    requires IsFigure(blocks, m, c)
    ensures P.Spans(blocks, m, c)
  {
    var page := blocks[m].boxPage.value;
    forall j | m < j < c ensures P.Boxless(blocks, j) || P.Absorbable(blocks, page, j) {
      AbsorbableIff(blocks, page, j);
    }
    var p: nat :| m < p < c && IsPanel(blocks, page, p);
    assert P.Panel(blocks, page, p);
  }

  lemma FigureIff(blocks: seq<Block>, m: nat, c: nat)
    ensures P.Spans(blocks, m, c) <==> IsFigure(blocks, m, c)
  {
    if P.Spans(blocks, m, c) {
      SpansIsFigure(blocks, m, c);
    }
    if IsFigure(blocks, m, c) {
      FigureSpans(blocks, m, c);
    }
  }

  // A figure that no earlier one reaches into is found, and takes in every block with
  // a box between its first panel and its caption.
  lemma FigureOutcome(blocks: seq<Block>, caps: map<nat, nat>, m: nat, c: nat)
    requires P.ClustersBelow(blocks, caps, |blocks|) && IsFigure(blocks, m, c)
    requires forall m': nat, c': nat :: m' < m && IsFigure(blocks, m', c') ==> c' <= m
    ensures m in caps && caps[m] == c
    ensures forall x: nat :: m < x < c && blocks[x].boxPage.Some? ==> P.Inside(blocks, caps, x)
  {
    FigureIff(blocks, m, c);
    assert P.Settled(blocks, caps, m);
    if P.Inside(blocks, caps, m) {
      var m': nat :| m' in caps && m' < m < caps[m'];
      assert P.Settled(blocks, caps, m');
      FigureIff(blocks, m', caps[m']);
    }
    if m in caps {
      P.CaptionIsDetermined(blocks, m, c, caps[m]);
    }
    forall x: nat | m < x < c && blocks[x].boxPage.Some? ensures P.Inside(blocks, caps, x) {
      assert m in caps && m < x < caps[m] && !P.Boxless(blocks, x);
    }
  }

  // And nothing else is taken in.
  lemma InsideIsFigure(blocks: seq<Block>, caps: map<nat, nat>, x: nat) returns (m: nat, c: nat)
    requires P.ClustersBelow(blocks, caps, |blocks|) && P.Inside(blocks, caps, x)
    ensures IsFigure(blocks, m, c) && m < x < c && x < |blocks| && blocks[x].boxPage.Some?
  {
    m :| m in caps && m < x < caps[m] && x < |blocks| && !P.Boxless(blocks, x);
    c := caps[m];
    assert P.Settled(blocks, caps, m);
    FigureIff(blocks, m, c);
  }

  // ----- Captions of figures without one -----

  function Apart(a: int, b: int): nat {
    if a < b then b - a else a - b
  }

  // A real caption on the figure's page, at most ten ordinals away.
  predicate Fits(blocks: seq<Block>, f: nat, c: nat) {
    && f < |blocks| && c < |blocks| && blocks[c].kind == Caption && blocks[c].realCaption
    && blocks[f].page.Some? && blocks[c].page == blocks[f].page
    && Apart(blocks[f].ordinal, blocks[c].ordinal) <= 10
  }

  // Not spoken for, and not given to an earlier figure.
  ghost predicate Free(taken: set<nat>, pairs: map<nat, nat>, f: nat, c: nat) {
    c !in taken && forall g: nat :: g in pairs && g < f ==> pairs[g] != c
  }

  lemma FreeIff(blocks: seq<Block>, taken: set<nat>, pairs: map<nat, nat>, f: nat, c: nat)
    ensures C.Eligible(blocks, taken + C.GivenBefore(pairs, f), f, c) <==> Fits(blocks, f, c) && Free(taken, pairs, f, c)
  {
    if !Free(taken, pairs, f, c) && c !in taken {
      var g: nat :| g in pairs && g < f && pairs[g] == c;
      assert c in C.GivenBefore(pairs, f);
    }
  }

  // A figure gets a caption if and only if it has no linked one and some free one
  // fits; it gets the nearest of these, the earlier of two equally near.
  lemma CaptionOutcome(blocks: seq<Block>, taken: set<nat>, pairs: map<nat, nat>, f: nat)
    requires C.Greedy(blocks, taken, pairs, |blocks|) && f < |blocks|
    ensures f in pairs <==>
              && blocks[f].kind == Figure && blocks[f].linkedAnchor.None?
              && exists c: nat :: Fits(blocks, f, c) && Free(taken, pairs, f, c)
    ensures f in pairs ==>
              && Fits(blocks, f, pairs[f]) && Free(taken, pairs, f, pairs[f])
              && forall c: nat :: Fits(blocks, f, c) && Free(taken, pairs, f, c) ==>
                   var d, e := Apart(blocks[f].ordinal, blocks[pairs[f]].ordinal), Apart(blocks[f].ordinal, blocks[c].ordinal);
                   d < e || (d == e && pairs[f] <= c)
  {
    assert C.Served(blocks, taken + C.GivenBefore(pairs, f), pairs, f);
    forall c: nat
      ensures C.Eligible(blocks, taken + C.GivenBefore(pairs, f), f, c) <==> Fits(blocks, f, c) && Free(taken, pairs, f, c)
    {
      FreeIff(blocks, taken, pairs, f, c);
    }
  }
}
