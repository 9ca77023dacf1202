// Multi-panel figures (scripts/export_chapter_zh_html.py:2703-2862).
module PanelClusters {
  // Embedded images stored as separate blocks are merged into one figure under the
  // caption that ends them.

  import opened Wrappers
  import opened ChapterBlocks

  predicate Panel(blocks: seq<Block>, page: int, j: nat) {
    j < |blocks| && blocks[j].boxPage == Some(page) && blocks[j].kind.Figure? && blocks[j].embedded
  }

  predicate Boxless(blocks: seq<Block>, j: nat) {
    j < |blocks| && blocks[j].boxPage.None?
  }

  // A block that lets the look-ahead behind a paragraph go on: no box, or another
  // paragraph of the page.
  predicate Passes(blocks: seq<Block>, page: int, k: nat) {
    k < |blocks| && (blocks[k].boxPage.None? || (blocks[k].boxPage == Some(page) && blocks[k].kind.Paragraph?))
  }

  predicate EndCaption(blocks: seq<Block>, page: int, k: nat) {
    k < |blocks| && blocks[k].boxPage == Some(page) && blocks[k].kind.Caption? && blocks[k].realCaption
  }

  // Within five blocks of the paragraph at `j` comes another panel or the caption.
  predicate Backed(blocks: seq<Block>, page: int, j: nat) {
    exists k :: j < k < j + 6 && (Panel(blocks, page, k) || EndCaption(blocks, page, k))
             && forall m :: j < m < k ==> Passes(blocks, page, m)
  }

  // A paragraph inside the figure.
  predicate InnerText(blocks: seq<Block>, page: int, j: nat) {
    j < |blocks| && blocks[j].boxPage == Some(page) && blocks[j].kind.Paragraph? && Backed(blocks, page, j)
  }

  predicate Absorbable(blocks: seq<Block>, page: int, j: nat) {
    Panel(blocks, page, j) || InnerText(blocks, page, j)
  }

  // The blocks from panel `m` to caption `c` form one figure.
  predicate Spans(blocks: seq<Block>, m: nat, c: nat) {
    && m < c < |blocks| && c < m + 12
    && blocks[m].boxPage.Some?
    && var page := blocks[m].boxPage.value;
    && Panel(blocks, page, m) && EndCaption(blocks, page, c)
    && (forall j :: m < j < c ==> Boxless(blocks, j) || Absorbable(blocks, page, j))
    && exists p :: m < p < c && Panel(blocks, page, p)
  }

  // A panel's figure ends at one caption only.
  lemma CaptionIsDetermined(blocks: seq<Block>, m: nat, c: nat, c': nat)
    requires Spans(blocks, m, c) && Spans(blocks, m, c')
    ensures c == c'
  {
    var page := blocks[m].boxPage.value;
    assert c < c' ==> Boxless(blocks, c) || Absorbable(blocks, page, c);
    assert c' < c ==> Boxless(blocks, c') || Absorbable(blocks, page, c');
  }

  // `m` is a master with its caption exactly if it is a panel that starts a figure
  // and was not already absorbed into an earlier one.
  ghost predicate Settled(blocks: seq<Block>, caps: map<nat, nat>, m: nat) {
    if m in caps then Spans(blocks, m, caps[m]) && !Inside(blocks, caps, m)
    else Inside(blocks, caps, m) || forall c: nat :: !Spans(blocks, m, c)
  }

  ghost predicate ClustersBelow(blocks: seq<Block>, caps: map<nat, nat>, bound: nat) {
    && (forall m: nat :: m in caps ==> m < bound)
    && (forall m: nat :: m < bound ==> Settled(blocks, caps, m))
  }

  // `x` is absorbed by the figure of an earlier master.
  ghost predicate Inside(blocks: seq<Block>, caps: map<nat, nat>, x: nat) {
    exists m: nat :: m in caps && m < x < caps[m] && x < |blocks| && !Boxless(blocks, x)
  }

  // Figures never overlap: the next one starts after the previous one's caption.
  lemma ClustersAreDisjoint(blocks: seq<Block>, caps: map<nat, nat>, m: nat, m': nat)
    requires ClustersBelow(blocks, caps, |blocks|) && m in caps && m' in caps && m < m'
    ensures caps[m] < m' && caps[m] < caps[m']
  {
    assert Settled(blocks, caps, m') && Settled(blocks, caps, m);
    assert !Boxless(blocks, m');
  }

  // Every figure has at least two panels and one caption, all on one page, and
  // every block it absorbs has a box on that page.
  lemma ClusterShape(blocks: seq<Block>, caps: map<nat, nat>, m: nat)
    requires ClustersBelow(blocks, caps, |blocks|) && m in caps
    ensures caps[m] < |blocks|
    ensures exists p :: m < p < caps[m] && blocks[p].kind.Figure? && blocks[p].embedded
    ensures blocks[caps[m]].kind.Caption? && blocks[caps[m]].boxPage == blocks[m].boxPage
    ensures forall x :: m < x < caps[m] && !Boxless(blocks, x) ==>
              blocks[x].boxPage == blocks[m].boxPage && (blocks[x].kind.Figure? || blocks[x].kind.Paragraph?)
  {
    assert Settled(blocks, caps, m);
    var page := blocks[m].boxPage.value;
    var p :| m < p < caps[m] && Panel(blocks, page, p);
    assert blocks[p].kind.Figure? && blocks[p].embedded;
  }

  // The look-ahead behind a paragraph.
  method LooksAhead(blocks: seq<Block>, page: int, j: nat) returns (backed: bool)
    requires j < |blocks|
    ensures backed <==> Backed(blocks, page, j)
  {
    var k := j + 1;
    var end := Min(j + 6, |blocks|);
    while k < end
      invariant j < k <= end
      invariant forall m :: j < m < k ==> Passes(blocks, page, m)
    {
      var b := blocks[k];
      if b.boxPage.None? {
        k := k + 1;
        continue;
      }
      if b.boxPage.value != page {
        break;
      }
      if b.kind.Figure? {
        if b.embedded {
          assert Panel(blocks, page, k);
          return true;
        }
        break;
      }
      if b.kind.Caption? {
        if b.realCaption {
          assert EndCaption(blocks, page, k);
          return true;
        }
        break;
      }
      if !b.kind.Paragraph? {
        break;
      }
      k := k + 1;
    }
    assert k < end ==> !Passes(blocks, page, k);
    forall m | j < m < k ensures !Panel(blocks, page, m) && !EndCaption(blocks, page, m) {
      assert Passes(blocks, page, m);
    }
    return false;
  }

  // The walk from one panel to the caption that ends its figure.
  method WalkCluster(blocks: seq<Block>, i: nat) returns (members: set<nat>, panels: nat, cap: Option<nat>)
    requires i < |blocks| && blocks[i].kind.Figure? && blocks[i].embedded && blocks[i].boxPage.Some?
    ensures forall c: nat :: Spans(blocks, i, c) <==> cap == Some(c) && panels >= 2
    ensures cap.Some? ==> forall x: nat :: x in members <==> i < x < cap.value && !Boxless(blocks, x)
  {
    var page := blocks[i].boxPage.value;
    members, panels, cap := {}, 1, None;
    var j := i + 1;
    while j < |blocks| && j < i + 12
      invariant i < j <= |blocks| && j <= i + 12
      invariant forall k :: i < k < j ==> Boxless(blocks, k) || Absorbable(blocks, page, k)
      invariant forall x: nat :: x in members <==> i < x < j && !Boxless(blocks, x)
      invariant panels >= 1 && (panels >= 2 <==> exists p :: i < p < j && Panel(blocks, page, p))
      invariant cap.None?
    {
      var b := blocks[j];
      if b.boxPage.None? {
        j := j + 1;
        continue;
      }
      if b.boxPage.value != page {
        break;
      }
      if b.kind.Caption? {
        if b.realCaption {
          cap := Some(j);
        }
        break;
      }
      if b.kind.Figure? {
        if !b.embedded {
          break;
        }
        assert Panel(blocks, page, j);
        members, panels := members + {j}, panels + 1;
      } else if b.kind.Paragraph? {
        var backed := LooksAhead(blocks, page, j);
        if !backed {
          break;
        }
        members := members + {j};
      } else {
        break;
      }
      j := j + 1;
    }
    forall c: nat | Spans(blocks, i, c) ensures cap == Some(c) && panels >= 2 {
      assert j < c ==> Boxless(blocks, j) || Absorbable(blocks, page, j);
      assert c < j ==> Boxless(blocks, c) || Absorbable(blocks, page, c);
    }
  }

  // `skip` is the exporter's cluster_skip_block_ids.
  method DetectClusters(blocks: seq<Block>) returns (caps: map<nat, nat>, skip: set<nat>)
    ensures ClustersBelow(blocks, caps, |blocks|)
    ensures forall x: nat :: x in skip <==> Inside(blocks, caps, x)
  {
    caps, skip := map[], {};
    for i := 0 to |blocks|
      invariant ClustersBelow(blocks, caps, i)
      invariant forall x: nat :: x in skip <==> Inside(blocks, caps, x)
    {
      if i in skip {
        continue;
      }
      if !blocks[i].kind.Figure? || !blocks[i].embedded || blocks[i].boxPage.None? {
        assert forall c: nat :: !Spans(blocks, i, c);
        continue;
      }
      var members, panels, cap := WalkCluster(blocks, i);
      if panels < 2 || cap.None? {
        continue;
      }
      assert Spans(blocks, i, cap.value);
      ClusterStep(blocks, caps, i, cap.value);
      InsideStep(blocks, caps, i, cap.value);
      skip := skip + members;
      caps := caps[i := cap.value];
    }
  }

  lemma InsideStep(blocks: seq<Block>, caps: map<nat, nat>, i: nat, c: nat)
    requires i !in caps
    ensures forall x: nat :: Inside(blocks, caps[i := c], x) <==>
              Inside(blocks, caps, x) || (i < x < c && x < |blocks| && !Boxless(blocks, x))
  {
    var after := caps[i := c];
    forall x: nat ensures Inside(blocks, after, x) <==>
        Inside(blocks, caps, x) || (i < x < c && x < |blocks| && !Boxless(blocks, x))
    {
      if Inside(blocks, caps, x) {
        var m: nat :| m in caps && m < x < caps[m] && x < |blocks| && !Boxless(blocks, x);
        assert m in after && after[m] == caps[m];
      }
      if i < x < c && x < |blocks| && !Boxless(blocks, x) {
        assert i in after && after[i] == c;
      }
    }
  }

  lemma ClusterStep(blocks: seq<Block>, caps: map<nat, nat>, i: nat, c: nat)
    requires ClustersBelow(blocks, caps, i) && Spans(blocks, i, c) && !Inside(blocks, caps, i)
    ensures i !in caps && ClustersBelow(blocks, caps[i := c], i + 1)
  {
    var after := caps[i := c];
    assert i !in caps;
    InsideStep(blocks, caps, i, c);
    forall m: nat | m < i + 1 ensures Settled(blocks, after, m) {
      assert Inside(blocks, after, m) <==> Inside(blocks, caps, m);
      if m < i {
        StaysSettled(blocks, caps, after, m);
      }
    }
  }

  lemma StaysSettled(blocks: seq<Block>, a: map<nat, nat>, b: map<nat, nat>, m: nat)
    requires Settled(blocks, a, m)
    requires (m in a <==> m in b) && (m in a ==> a[m] == b[m])
    requires Inside(blocks, a, m) <==> Inside(blocks, b, m)
    ensures Settled(blocks, b, m)
  {
  }
}
