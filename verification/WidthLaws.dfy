// What the column-wrap heuristic decides, line by line.
module WidthLaws {
  // scripts/export_chapter_zh_html.py:857-899, 2231-2266: the width of the column by
  // counting, and with it every paragraph break.

  import opened PyText
  import opened Reflow
  import opened ParagraphBreaks

  // ----- The width of the column -----

  // A line that carries more than 25 characters.
  predicate IsLong(line: string) {
    |Strip(line)| > 25
  }

  // The long lines from k on.
  ghost function Long(lines: seq<string>, k: nat): set<nat> {
    set i: nat | k <= i < |lines| && IsLong(lines[i])
  }

  ghost function Shorter(lines: seq<string>, k: nat, w: nat): set<nat> {
    set i: nat | i in Long(lines, k) && i < |lines| && |lines[i]| < w
  }

  // The larger of 1 and nine tenths, rounded down.
  function Rank(n: nat): nat {
    if 9 * n / 10 > 1 then 9 * n / 10 else 1
  }

  // The length of some long line; fewer than nine tenths of them are shorter, and at
  // least nine tenths are no longer.
  ghost predicate IsWidth(lines: seq<string>, w: nat) {
    if |Long(lines, 0)| == 0 then w == 80
    else HasLength(lines, w) && |Shorter(lines, 0, w)| < Rank(|Long(lines, 0)|) <= |Shorter(lines, 0, w + 1)|
  }

  ghost predicate HasLength(lines: seq<string>, w: nat) {
    exists i: nat :: i in Long(lines, 0) && i < |lines| && |lines[i]| == w
  }

  function CountBelow(s: seq<nat>, w: nat): (n: nat)
    ensures n <= |s|
  {
    if s == [] then 0 else (if s[0] < w then 1 else 0) + CountBelow(s[1..], w)
  }

  lemma {:induction false} LengthsCounted(lines: seq<string>, k: nat, w: nat)
    requires k <= |lines|
    ensures |Lengths(lines[k..])| == |Long(lines, k)|
    ensures CountBelow(Lengths(lines[k..]), w) == |Shorter(lines, k, w)|
    decreases |lines| - k
  {
    if k == |lines| {
      assert Long(lines, k) == {} && Shorter(lines, k, w) == {};
    } else {
      LengthsCounted(lines, k + 1, w);
      LengthsStep(lines, k);
      LongStep(lines, k);
      ShorterStep(lines, k, w);
      CountStep(lines, k, w);
    }
  }

  lemma OneMore(all: set<nat>, more: set<nat>, k: nat, gained: bool)
    requires k !in more && forall i: nat :: i in all <==> i in more || (gained && i == k)
    ensures |all| == |more| + if gained then 1 else 0
  {
    assert all == if gained then more + {k} else more;
  }

  lemma LongStep(lines: seq<string>, k: nat)
    requires k < |lines|
    ensures |Long(lines, k)| == |Long(lines, k + 1)| + if IsLong(lines[k]) then 1 else 0
  {
    OneMore(Long(lines, k), Long(lines, k + 1), k, IsLong(lines[k]));
  }

  lemma ShorterStep(lines: seq<string>, k: nat, w: nat)
    requires k < |lines|
    ensures |Shorter(lines, k, w)|
         == |Shorter(lines, k + 1, w)| + if IsLong(lines[k]) && |lines[k]| < w then 1 else 0
  {
    OneMore(Shorter(lines, k, w), Shorter(lines, k + 1, w), k, IsLong(lines[k]) && |lines[k]| < w);
  }

  lemma CountStep(lines: seq<string>, k: nat, w: nat)
    requires k < |lines|
    ensures CountBelow(Lengths(lines[k..]), w)
         == CountBelow(Lengths(lines[k + 1..]), w) + if IsLong(lines[k]) && |lines[k]| < w then 1 else 0
  {
    LengthsStep(lines, k);
    var rest := Lengths(lines[k + 1..]);
    assert ([|lines[k]|] + rest)[1..] == rest;
  }

  lemma LengthsStep(lines: seq<string>, k: nat)
    requires k < |lines|
    ensures Lengths(lines[k..])
         == (if IsLong(lines[k]) then [|lines[k]|] + Lengths(lines[k + 1..]) else Lengths(lines[k + 1..]))
  {
    assert lines[k..][1..] == lines[k + 1..];
  }

  lemma {:induction false} LengthsHold(lines: seq<string>, k: nat, x: nat)
    requires k <= |lines|
    ensures x in Lengths(lines[k..]) <==> exists i: nat :: i in Long(lines, k) && i < |lines| && |lines[i]| == x
    decreases |lines| - k
  {
    if k < |lines| {
      LengthsHold(lines, k + 1, x);
      LengthsStep(lines, k);
      if i: nat :| i in Long(lines, k) && i < |lines| && |lines[i]| == x {
        assert i == k || i in Long(lines, k + 1);
      }
      if IsLong(lines[k]) {
        assert k in Long(lines, k);
      }
    }
  }

  lemma {:induction false} InsertCounts(x: nat, s: seq<nat>, w: nat)
    ensures CountBelow(Insert(x, s), w) == CountBelow(s, w) + if x < w then 1 else 0
    ensures |Insert(x, s)| == |s| + 1
  {
    if s == [] || x <= s[0] {
      assert ([x] + s)[1..] == s;
    } else {
      InsertCounts(x, s[1..], w);
      assert ([s[0]] + Insert(x, s[1..]))[1..] == Insert(x, s[1..]);
    }
  }

  lemma {:induction false} SortedCounts(s: seq<nat>, w: nat)
    ensures CountBelow(Sorted(s), w) == CountBelow(s, w) && |Sorted(s)| == |s|
  {
    if s != [] {
      SortedCounts(s[1..], w);
      InsertCounts(s[0], Sorted(s[1..]), w);
    }
  }

  // In an ascending list, what stands at i has at most i smaller ones, and more than i
  // that are no larger.
  lemma {:induction false} CountsAt(s: seq<nat>, i: nat, w: nat)
    requires Ascending(s) && i < |s|
    ensures w <= s[i] ==> CountBelow(s, w) <= i
    ensures s[i] < w ==> CountBelow(s, w) > i
  {
    if i == 0 {
      if w <= s[0] {
        NoneBelow(s, w);
      }
    } else {
      CountsAt(s[1..], i - 1, w);
    }
  }

  lemma {:induction false} NoneBelow(s: seq<nat>, w: nat)
    requires forall j :: 0 <= j < |s| ==> w <= s[j]
    ensures CountBelow(s, w) == 0
  {
    if s != [] {
      NoneBelow(s[1..], w);
    }
  }

  lemma SortedEntry(sorted: seq<nat>, lengths: seq<nat>, i: nat, w: nat)
    requires sorted == Sorted(lengths) && i < |sorted| && sorted[i] == w
    ensures w in lengths && CountBelow(lengths, w) <= i < CountBelow(lengths, w + 1)
  {
    SortedCounts(lengths, w);
    SortedCounts(lengths, w + 1);
    SortedSorts(lengths);
    CountsAt(sorted, i, w);
    CountsAt(sorted, i, w + 1);
    assert w in multiset(sorted) && w in multiset(lengths);
  }

  // The entry that the width is taken from.
  lemma WidthEntry(lines: seq<string>)
    requires Lengths(lines) != []
    ensures var lengths, w := Lengths(lines), Width(lines);
            w in lengths && CountBelow(lengths, w) < Rank(|lengths|) <= CountBelow(lengths, w + 1)
  {
    var lengths, w := Lengths(lines), Width(lines);
    SortedLength(lengths);
    SortedEntry(Sorted(lengths), lengths, Rank(|lengths|) - 1, w);
  }

  lemma SortedLength(s: seq<nat>)
    ensures |Sorted(s)| == |s|
  {
    SortedCounts(s, 0);
  }

  lemma AllLengths(lines: seq<string>, w: nat)
    ensures |Lengths(lines)| == |Long(lines, 0)| && CountBelow(Lengths(lines), w) == |Shorter(lines, 0, w)|
    ensures w in Lengths(lines) <==> HasLength(lines, w)
  {
    LengthsCounted(lines, 0, w);
    LengthsHold(lines, 0, w);
    assert lines[0..] == lines;
  }

  lemma WidthIsWidth(lines: seq<string>)
    ensures IsWidth(lines, Width(lines))
  {
    AllLengths(lines, Width(lines));
    AllLengths(lines, Width(lines) + 1);
    if Lengths(lines) != [] {
      WidthEntry(lines);
    }
  }

  lemma {:induction false} SubsetCount(a: set<nat>, b: set<nat>)
    requires a <= b
    ensures |a| <= |b|
  {
    if a != {} {
      var x :| x in a;
      SubsetCount(a - {x}, b - {x});
    }
  }

  lemma ShorterGrows(lines: seq<string>, v: nat, w: nat)
    requires v <= w
    ensures |Shorter(lines, 0, v)| <= |Shorter(lines, 0, w)|
  {
    SubsetCount(Shorter(lines, 0, v), Shorter(lines, 0, w));
  }

  lemma OneWidth(lines: seq<string>, v: nat, w: nat)
    requires IsWidth(lines, v) && IsWidth(lines, w)
    ensures v == w
  {
    if v < w {
      ShorterGrows(lines, v + 1, w);
    } else if w < v {
      ShorterGrows(lines, w + 1, v);
    }
  }

  // The width is what the counting says, and nothing else is.
  lemma WidthIff(lines: seq<string>, w: nat)
    ensures IsWidth(lines, w) <==> w == Width(lines)
  {
    WidthIsWidth(lines);
    if IsWidth(lines, w) {
      OneWidth(lines, w, Width(lines));
    }
  }

  // ----- A line that ends a paragraph -----

  // The n characters before trailing whitespace fill less than 65% of the column and
  // end a sentence, perhaps in a closing quote or bracket.
  predicate StopsAt(line: string, w: nat, n: nat) {
    && 1 <= n <= |line| && !IsSpace(line[n - 1]) && IsBlank(line[n..]) && 100 * n < 65 * w
    && (line[n - 1] in ".?!。？！" || (n > 1 && line[n - 1] in "\"”’')）]" && line[n - 2] in ".?!。？！"))
  }

  ghost predicate Stops(line: string, w: nat) {
    exists n: nat :: StopsAt(line, w, n)
  }

  lemma StrippedAt(line: string) returns (n: nat)
    ensures n <= |line| && RStrip(line) == line[..n] && IsBlank(line[n..]) && (n > 0 ==> !IsSpace(line[n - 1]))
  {
    n := RStripIsSlice(line);
    var s := RStrip(line);
    assert n > 0 ==> s[|s| - 1] == line[n - 1];
  }

  lemma StopsIff(line: string, w: nat)
    ensures Stops(line, w) <==> ShortEnd(line, w)
  {
    var n := StrippedAt(line);
    var s := RStrip(line);
    if ShortEnd(line, w) {
      assert s[|s| - 1] == line[n - 1] && (n > 1 ==> s[|s| - 2] == line[n - 2]);
      assert StopsAt(line, w, n);
    }
    if m: nat :| StopsAt(line, w, m) {
      OneEnd(line, m, n);
      assert s[|s| - 1] == line[n - 1] && (n > 1 ==> s[|s| - 2] == line[n - 2]);
    }
  }

  lemma OneEnd(line: string, m: nat, n: nat)
    requires 1 <= m <= |line| && !IsSpace(line[m - 1]) && IsBlank(line[m..])
    requires n <= |line| && IsBlank(line[n..]) && (n > 0 ==> !IsSpace(line[n - 1]))
    ensures m == n
  {
    BlankBehind(line, n, m);
    BlankBehind(line, m, n);
  }

  lemma BlankBehind(line: string, n: nat, m: nat)
    requires n <= |line| && m <= |line| && IsBlank(line[n..]) && (m > 0 ==> !IsSpace(line[m - 1]))
    ensures m <= n
  {
    assert forall i :: n <= i < |line| ==> line[i] == line[n..][i - n];
  }

  // ----- The offsets -----

  // Where line k starts.
  function LineStart(lines: seq<string>, k: nat): nat
    requires k <= |lines|
  {
    if k == 0 then 0 else LineStart(lines, k - 1) + |lines[k - 1]| + 1
  }

  // Line i opens a slice at x.
  ghost predicate SliceAt(lines: seq<string>, w: nat, total: nat, i: nat, x: nat) {
    0 < i < |lines| && Breaks(lines[i - 1], w) && x == LineStart(lines, i) < total
  }

  lemma {:induction false} OffsetsIff(lines: seq<string>, w: nat, k: nat, total: nat, x: nat)
    requires k < |lines|
    ensures x in Offsets(lines[k..], w, LineStart(lines, k), total) <==>
              exists i: nat :: k < i && SliceAt(lines, w, total, i, x)
    decreases |lines| - k
  {
    if k + 1 < |lines| {
      OffsetsIff(lines, w, k + 1, total, x);
      OffsetStep(lines, w, k, total);
      if SliceAt(lines, w, total, k + 1, x) {
        assert x in [LineStart(lines, k + 1)];
      }
    }
  }

  lemma OffsetStep(lines: seq<string>, w: nat, k: nat, total: nat)
    requires k + 1 < |lines|
    ensures var rest, after := Offsets(lines[k + 1..], w, LineStart(lines, k + 1), total), LineStart(lines, k + 1);
            Offsets(lines[k..], w, LineStart(lines, k), total) ==
              if Breaks(lines[k], w) && after < total then [after] + rest else rest
  {
    assert lines[k..][1..] == lines[k + 1..];
  }

  // Line i is not at the very end and comes after a blank line or one that stops short.
  ghost predicate StartsSlice(lines: seq<string>, w: nat, total: nat, i: nat) {
    0 < i < |lines| && (IsBlank(lines[i - 1]) || Stops(lines[i - 1], w)) && LineStart(lines, i) < total
  }

  lemma StartsIff(lines: seq<string>, w: nat, total: nat, i: nat, x: nat)
    ensures SliceAt(lines, w, total, i, x) <==> StartsSlice(lines, w, total, i) && x == LineStart(lines, i)
  {
    if 0 < i < |lines| {
      StopsIff(lines[i - 1], w);
    }
  }

  lemma OffsetsStart(lines: seq<string>, w: nat, total: nat, x: nat)
    requires lines != []
    ensures x in Offsets(lines, w, 0, total) <==>
              exists i: nat :: StartsSlice(lines, w, total, i) && x == LineStart(lines, i)
  {
    OffsetsIff(lines, w, 0, total, x);
    assert lines[0..] == lines;
    forall i: nat ensures SliceAt(lines, w, total, i, x) <==> StartsSlice(lines, w, total, i) && x == LineStart(lines, i) {
      StartsIff(lines, w, total, i, x);
    }
  }

  // The detector's offsets are 0 and the starts of these lines.
  lemma DetectedIff(u: string, w: nat, x: nat)
    requires IsWidth(Split(u), w)
    ensures x in Detected(u) <==>
              x == 0 || exists i: nat :: StartsSlice(Split(u), w, |u|, i) && x == LineStart(Split(u), i)
  {
    var lines := Split(u);
    WidthIff(lines, w);
    DetectedMembers(u, lines, w, x);
    OffsetsStart(lines, w, |u|, x);
  }

  lemma DetectedMembers(u: string, lines: seq<string>, w: nat, x: nat)
    requires lines == Split(u) && w == Width(lines)
    ensures x in Detected(u) <==> x == 0 || x in Offsets(lines, w, 0, |u|)
  {
    var offsets := Offsets(lines, w, 0, |u|);
    assert x in [0] + offsets <==> x == 0 || x in offsets;
  }

  // ----- The paragraphs -----

  // What a line is to the heuristic.
  datatype Sort = Blank | Content(stops: bool)

  function Sorts(lines: seq<string>, w: nat): (r: seq<Sort>)
    ensures |r| == |lines|
    ensures forall i: nat :: i < |r| ==> r[i] == if IsBlank(lines[i]) then Blank else Content(ShortEnd(lines[i], w))
  {
    seq(|lines|, i requires 0 <= i < |lines| => if IsBlank(lines[i]) then Blank else Content(ShortEnd(lines[i], w)))
  }

  datatype Place = Place(at: nat, opens: bool)

  // The content lines from k on, by number, each with whether it opens a paragraph.
  function Places(sorts: seq<Sort>, k: nat, ended: bool): seq<Place>
    requires k <= |sorts|
    decreases |sorts| - k
  {
    if k == |sorts| then []
    else if sorts[k].Blank? then Places(sorts, k + 1, true)
    else [Place(k, ended)] + Places(sorts, k + 1, sorts[k].stops)
  }

  function Grouped(places: seq<Place>): (g: seq<seq<nat>>)
    ensures g == [] <==> places == []
    ensures forall i :: 0 <= i < |g| ==> g[i] != []
  {
    if places == [] then []
    else
      var g := Grouped(places[1..]);
      if g != [] && !places[1].opens then [[places[0].at] + g[0]] + g[1..] else [[places[0].at]] + g
  }

  ghost predicate Are(lines: seq<string>, places: seq<Place>, marks: seq<Mark>) {
    && |places| == |marks|
    && forall m :: 0 <= m < |marks| ==>
         places[m].at < |lines| && marks[m] == Mark(lines[places[m].at], places[m].opens)
  }

  lemma {:induction false} PlacesAreMarks(lines: seq<string>, w: nat, k: nat, ended: bool)
    requires k <= |lines|
    ensures Are(lines, Places(Sorts(lines, w), k, ended), Marked(lines[k..], w, ended))
    decreases |lines| - k
  {
    if k < |lines| {
      assert lines[k..][1..] == lines[k + 1..];
      PlacesAreMarks(lines, w, k + 1, IsBlank(lines[k]) || ShortEnd(lines[k], w));
    }
  }

  // These lines make up these paragraphs.
  ghost predicate MadeOf(lines: seq<string>, at: seq<seq<nat>>, paras: seq<seq<string>>) {
    |at| == |paras| && forall k :: 0 <= k < |at| ==> MadeUp(lines, at[k], paras[k])
  }

  ghost predicate MadeUp(lines: seq<string>, at: seq<nat>, para: seq<string>) {
    |at| == |para| && forall t :: 0 <= t < |at| ==> at[t] < |lines| && para[t] == lines[at[t]]
  }

  lemma {:induction false} GroupedAreGroups(lines: seq<string>, places: seq<Place>, marks: seq<Mark>)
    requires Are(lines, places, marks)
    ensures MadeOf(lines, Grouped(places), Group(marks))
  {
    if places != [] {
      GroupedAreGroups(lines, places[1..], marks[1..]);
      var g, h := Grouped(places[1..]), Group(marks[1..]);
      if g != [] && !places[1].opens {
        MadeUpCons(lines, places[0].at, g[0], h[0]);
        MadeOfCons(lines, [places[0].at] + g[0], g[1..], [marks[0].line] + h[0], h[1..]);
      } else {
        MadeOfCons(lines, [places[0].at], g, [marks[0].line], h);
      }
    }
  }

  lemma MadeUpCons(lines: seq<string>, i: nat, at: seq<nat>, para: seq<string>)
    requires i < |lines| && MadeUp(lines, at, para)
    ensures MadeUp(lines, [i] + at, [lines[i]] + para)
  {
  }

  lemma MadeOfCons(lines: seq<string>, at: seq<nat>, g: seq<seq<nat>>, para: seq<string>, h: seq<seq<string>>)
    requires MadeUp(lines, at, para) && MadeOf(lines, g, h)
    ensures MadeOf(lines, [at] + g, [para] + h)
  {
  }

  function Numbers(places: seq<Place>): (r: seq<nat>)
    ensures |r| == |places| && forall m :: 0 <= m < |r| ==> r[m] == places[m].at
  {
    seq(|places|, m requires 0 <= m < |places| => places[m].at)
  }

  ghost predicate Increases(s: seq<nat>) {
    forall m, n :: 0 <= m < n < |s| ==> s[m] < s[n]
  }

  ghost predicate OpensAt(sorts: seq<Sort>, k: nat, ended: bool, place: Place) {
    k <= place.at < |sorts| &&
    (place.opens <==>
      if place.at == k then ended
      else sorts[place.at - 1].Blank? || sorts[place.at - 1].stops)
  }

  ghost predicate Covered(sorts: seq<Sort>, k: nat, at: seq<nat>, i: nat) {
    i in at <==> k <= i < |sorts| && sorts[i].Content?
  }

  // Exactly the content lines from k on, in order, and a line opens a paragraph
  // exactly if it comes after a blank line or one that stops short; `ended` says so
  // for line k.
  ghost predicate Placed(sorts: seq<Sort>, k: nat, ended: bool, places: seq<Place>) {
    && (forall i: nat :: Covered(sorts, k, Numbers(places), i))
    && Increases(Numbers(places))
    && (forall m :: 0 <= m < |places| ==> OpensAt(sorts, k, ended, places[m]))
  }

  lemma {:induction false} PlacesArePlaced(sorts: seq<Sort>, k: nat, ended: bool)
    requires k <= |sorts|
    ensures Placed(sorts, k, ended, Places(sorts, k, ended))
    decreases |sorts| - k
  {
    if k < |sorts| {
      if sorts[k].Blank? {
        PlacesArePlaced(sorts, k + 1, true);
        BlankStep(sorts, k, ended, Places(sorts, k + 1, true));
      } else {
        PlacesArePlaced(sorts, k + 1, sorts[k].stops);
        ContentStep(sorts, k, ended, Places(sorts, k + 1, sorts[k].stops));
      }
    }
  }

  lemma OpensStep(sorts: seq<Sort>, k: nat, ended: bool, next: bool, rest: seq<Place>)
    requires k < |sorts| && next == (sorts[k].Blank? || sorts[k].stops) && Placed(sorts, k + 1, next, rest)
    ensures forall m :: 0 <= m < |rest| ==> OpensAt(sorts, k, ended, rest[m])
  {
    forall m | 0 <= m < |rest| ensures OpensAt(sorts, k, ended, rest[m]) {
      assert OpensAt(sorts, k + 1, next, rest[m]);
    }
  }

  lemma BlankStep(sorts: seq<Sort>, k: nat, ended: bool, rest: seq<Place>)
    requires k < |sorts| && sorts[k].Blank? && Placed(sorts, k + 1, true, rest)
    ensures Placed(sorts, k, ended, rest)
  {
    OpensStep(sorts, k, ended, true, rest);
    forall i: nat ensures Covered(sorts, k, Numbers(rest), i) {
      assert Covered(sorts, k + 1, Numbers(rest), i);
    }
  }

  lemma NumbersCons(place: Place, rest: seq<Place>)
    requires Increases(Numbers(rest)) && forall i :: i in Numbers(rest) ==> place.at < i
    ensures Increases(Numbers([place] + rest))
    ensures forall i: nat :: i in Numbers([place] + rest) <==> i == place.at || i in Numbers(rest)
  {
    IncreasesCons(place.at, Numbers(rest));
    assert Numbers([place] + rest) == [place.at] + Numbers(rest);
  }

  lemma IncreasesCons(i: nat, at: seq<nat>)
    requires Increases(at) && forall j :: j in at ==> i < j
    ensures Increases([i] + at)
    ensures forall j: nat :: j in [i] + at <==> j == i || j in at
  {
    forall n | 0 <= n < |at| ensures i < at[n] {
      assert at[n] in at;
    }
  }

  lemma ContentStep(sorts: seq<Sort>, k: nat, ended: bool, rest: seq<Place>)
    requires k < |sorts| && sorts[k].Content? && Placed(sorts, k + 1, sorts[k].stops, rest)
    ensures Placed(sorts, k, ended, [Place(k, ended)] + rest)
  {
    OpensStep(sorts, k, ended, sorts[k].stops, rest);
    forall i: nat ensures i in Numbers(rest) <==> k + 1 <= i < |sorts| && sorts[i].Content? {
      assert Covered(sorts, k + 1, Numbers(rest), i);
    }
    NumbersCons(Place(k, ended), rest);
  }

  // Two content lines with none between them; the second opens a paragraph if there
  // is a gap or the first one stops short.
  ghost predicate Adjacent(sorts: seq<Sort>, p: Place, q: Place) {
    && p.at < q.at < |sorts| && sorts[p.at].Content?
    && (q.opens <==> q.at != p.at + 1 || sorts[p.at].stops)
  }

  ghost predicate NextAdjacent(sorts: seq<Sort>, places: seq<Place>, m: nat) {
    m + 1 < |places| ==> Adjacent(sorts, places[m], places[m + 1])
  }

  ghost predicate Chained(sorts: seq<Sort>, places: seq<Place>) {
    forall m: nat :: NextAdjacent(sorts, places, m)
  }

  lemma PlacedIsChained(sorts: seq<Sort>, k: nat, ended: bool, places: seq<Place>)
    requires Placed(sorts, k, ended, places)
    ensures Chained(sorts, places)
  {
    forall m: nat ensures NextAdjacent(sorts, places, m) {
      NextIsAdjacent(sorts, k, ended, places, m);
    }
  }

  lemma NextIsAdjacent(sorts: seq<Sort>, k: nat, ended: bool, places: seq<Place>, m: nat)
    requires Placed(sorts, k, ended, places)
    ensures NextAdjacent(sorts, places, m)
  {
    if m + 1 < |places| {
      PlaceFacts(sorts, k, ended, places, m);
      PlaceFacts(sorts, k, ended, places, m + 1);
      BlankBefore(sorts, k, ended, places, m);
      OpensIff(sorts, k, ended, places[m], places[m + 1]);
    }
  }

  lemma PlaceFacts(sorts: seq<Sort>, k: nat, ended: bool, places: seq<Place>, m: nat)
    requires Placed(sorts, k, ended, places) && m < |places|
    ensures OpensAt(sorts, k, ended, places[m]) && sorts[places[m].at].Content?
  {
    assert Numbers(places)[m] in Numbers(places);
    assert Covered(sorts, k, Numbers(places), places[m].at);
  }

  lemma BlankBefore(sorts: seq<Sort>, k: nat, ended: bool, places: seq<Place>, m: nat)
    requires Placed(sorts, k, ended, places) && m + 1 < |places|
    ensures var i, j := places[m].at, places[m + 1].at;
            i < j && (i + 1 < j <= |sorts| ==> sorts[j - 1].Blank?)
  {
    var at := Numbers(places);
    var i, j := at[m], at[m + 1];
    PlaceFacts(sorts, k, ended, places, m);
    assert i < j;
    if i < j - 1 {
      NothingBetween(at, m, j - 1);
      assert Covered(sorts, k, at, j - 1);
    }
  }

  lemma OpensIff(sorts: seq<Sort>, k: nat, ended: bool, p: Place, q: Place)
    requires OpensAt(sorts, k, ended, p) && OpensAt(sorts, k, ended, q) && sorts[p.at].Content?
    requires p.at < q.at && (p.at + 1 < q.at <= |sorts| ==> sorts[q.at - 1].Blank?)
    ensures Adjacent(sorts, p, q)
  {
  }

  lemma NothingBetween(at: seq<nat>, m: nat, i: nat)
    requires Increases(at) && m + 1 < |at| && at[m] < i < at[m + 1]
    ensures i !in at
  {
    forall n | 0 <= n < |at| ensures at[n] != i {
      assert n < m ==> at[n] < at[m];
      assert n > m + 1 ==> at[m + 1] < at[n];
    }
  }

  predicate Follows(sorts: seq<Sort>, i: nat, j: nat) {
    j == i + 1 && i < |sorts| && sorts[i] == Content(false)
  }

  // Inside a paragraph lines follow each other and none stops short.
  ghost predicate RunsOn(sorts: seq<Sort>, at: seq<nat>) {
    && at != [] && at[|at| - 1] < |sorts|
    && forall t: nat, u: nat :: u == t + 1 && u < |at| ==> Follows(sorts, at[t], at[u])
  }

  // Between two paragraphs there is a gap, or the first one stops short.
  ghost predicate Parts(sorts: seq<Sort>, a: seq<nat>, b: seq<nat>) {
    a != [] && b != [] && var i := a[|a| - 1];
    i < b[0] && i < |sorts| && (b[0] != i + 1 || sorts[i] == Content(true))
  }

  ghost predicate Shaped(sorts: seq<Sort>, g: seq<seq<nat>>) {
    && (forall k :: 0 <= k < |g| ==> RunsOn(sorts, g[k]))
    && (forall k: nat, l: nat :: l == k + 1 && l < |g| ==> Parts(sorts, g[k], g[l]))
  }

  lemma {:induction false} GroupedIsShaped(sorts: seq<Sort>, places: seq<Place>)
    requires Chained(sorts, places) && forall m :: 0 <= m < |places| ==> places[m].at < |sorts|
    ensures Shaped(sorts, Grouped(places))
    ensures places != [] ==> Grouped(places)[0][0] == places[0].at
  {
    if places != [] {
      var rest := places[1..];
      forall m: nat ensures NextAdjacent(sorts, rest, m) {
        assert NextAdjacent(sorts, places, m + 1);
      }
      GroupedIsShaped(sorts, rest);
      var g, i := Grouped(rest), places[0].at;
      if rest == [] {
        assert Grouped(places) == [[i]];
      } else {
        assert NextAdjacent(sorts, places, 0);
        if places[1].opens {
          ShapeCons(sorts, [i], g);
        } else {
          RunsOnCons(sorts, i, g[0]);
          ShapeGrow(sorts, [i] + g[0], g);
        }
      }
    }
  }

  lemma RunsOnCons(sorts: seq<Sort>, i: nat, at: seq<nat>)
    requires RunsOn(sorts, at) && at[0] == i + 1 && i < |sorts| && sorts[i] == Content(false)
    ensures RunsOn(sorts, [i] + at)
  {
    var all := [i] + at;
    assert all[|all| - 1] == at[|at| - 1];
    forall t: nat, u: nat | u == t + 1 && u < |all| ensures Follows(sorts, all[t], all[u]) {
      if t > 0 {
        assert Follows(sorts, at[t - 1], at[u - 1]);
      }
    }
  }

  lemma ShapeCons(sorts: seq<Sort>, a: seq<nat>, g: seq<seq<nat>>)
    requires RunsOn(sorts, a) && Shaped(sorts, g) && (g != [] ==> Parts(sorts, a, g[0]))
    ensures Shaped(sorts, [a] + g)
  {
    var all := [a] + g;
    forall k: nat, l: nat | l == k + 1 && l < |all| ensures Parts(sorts, all[k], all[l]) {
      if k > 0 {
        assert Parts(sorts, g[k - 1], g[l - 1]);
      }
    }
  }

  lemma ShapeGrow(sorts: seq<Sort>, a: seq<nat>, g: seq<seq<nat>>)
    requires g != [] && Shaped(sorts, g) && RunsOn(sorts, a) && a[|a| - 1] == g[0][|g[0]| - 1]
    ensures Shaped(sorts, [a] + g[1..])
  {
    var rest := g[1..];
    forall k: nat, l: nat | l == k + 1 && l < |rest| ensures Parts(sorts, rest[k], rest[l]) {
      assert Parts(sorts, g[k + 1], g[l + 1]);
    }
    if rest != [] {
      assert Parts(sorts, g[0], g[1]);
    }
    ShapeCons(sorts, a, rest);
  }

  // Line i is in some paragraph.
  ghost predicate Somewhere(at: seq<seq<nat>>, i: nat) {
    exists k: nat :: k < |at| && i in at[k]
  }

  lemma {:induction false} GroupedHolds(places: seq<Place>, i: nat)
    ensures Somewhere(Grouped(places), i) <==> i in Numbers(places)
  {
    if places != [] {
      GroupedHolds(places[1..], i);
      assert Numbers(places) == [places[0].at] + Numbers(places[1..]);
      var g := Grouped(places[1..]);
      if g != [] && !places[1].opens {
        SomewhereCons([places[0].at] + g[0], g[1..], i);
        SomewhereCons(g[0], g[1..], i);
        assert g == [g[0]] + g[1..];
      } else {
        SomewhereCons([places[0].at], g, i);
      }
    }
  }

  lemma SomewhereCons(a: seq<nat>, g: seq<seq<nat>>, i: nat)
    ensures Somewhere([a] + g, i) <==> i in a || Somewhere(g, i)
  {
    var all := [a] + g;
    if k: nat :| k < |g| && i in g[k] {
      assert i in all[k + 1];
    }
    if i in a {
      assert i in all[0];
    }
    if k: nat :| k < |all| && i in all[k] && k > 0 {
      assert i in g[k - 1];
    }
  }

  // A division of the content lines into paragraphs: a line goes on in the next one
  // exactly if nothing lies between and it does not stop short.
  ghost predicate Divides(lines: seq<string>, w: nat, at: seq<seq<nat>>) {
    && (forall i: nat :: Somewhere(at, i) <==> i < |lines| && !IsBlank(lines[i]))
    && (forall k :: 0 <= k < |at| ==> at[k] != [])
    && (forall k: nat, t: nat, u: nat :: k < |at| && u == t + 1 && u < |at[k]| ==>
          at[k][u] == at[k][t] + 1 && at[k][t] < |lines| && !Stops(lines[at[k][t]], w))
    && (forall k: nat, l: nat :: l == k + 1 && l < |at| && at[k] != [] && at[l] != [] ==>
          var i := at[k][|at[k]| - 1];
          i < at[l][0] && i < |lines| && (at[l][0] != i + 1 || Stops(lines[i], w)))
  }

  lemma ShapedDivides(lines: seq<string>, w: nat, at: seq<seq<nat>>)
    requires Shaped(Sorts(lines, w), at)
    requires forall i: nat :: Somewhere(at, i) <==> i < |lines| && !IsBlank(lines[i])
    ensures Divides(lines, w, at)
  {
    var sorts := Sorts(lines, w);
    forall i: nat | i < |lines| ensures Stops(lines[i], w) <==> ShortEnd(lines[i], w) {
      StopsIff(lines[i], w);
    }
    forall k: nat, t: nat, u: nat | k < |at| && u == t + 1 && u < |at[k]|
      ensures at[k][u] == at[k][t] + 1 && at[k][t] < |lines| && !Stops(lines[at[k][t]], w)
    {
      assert RunsOn(sorts, at[k]);
    }
    forall k: nat, l: nat | l == k + 1 && l < |at| ensures Parts(sorts, at[k], at[l]) {
    }
  }

  // The paragraphs that the reflow prints are these, for the width found by counting.
  lemma ParagraphsDivide(u: string, w: nat) returns (at: seq<seq<nat>>)
    requires IsWidth(Split(u), w)
    ensures Divides(Split(u), w, at) && MadeOf(Split(u), at, Paragraphs(u))
  {
    var lines := Split(u);
    WidthIff(lines, w);
    var sorts := Sorts(lines, w);
    var places := Places(sorts, 0, true);
    PlacesAreMarks(lines, w, 0, true);
    assert lines[0..] == lines;
    GroupedAreGroups(lines, places, Marked(lines, w, true));
    PlacesArePlaced(sorts, 0, true);
    PlacedIsChained(sorts, 0, true, places);
    GroupedIsShaped(sorts, places);
    at := Grouped(places);
    forall i: nat ensures Somewhere(at, i) <==> i < |lines| && !IsBlank(lines[i]) {
      GroupedHolds(places, i);
      assert Covered(sorts, 0, Numbers(places), i);
    }
    ShapedDivides(lines, w, at);
  }

  // ----- A text of three long lines -----

  // Sixty characters, a sentence end after twenty-nine, sixty characters.
  ghost predicate ShortMiddle(lines: seq<string>) {
    && |lines| == 3 && |lines[0]| == 60 && |lines[1]| == 29 && |lines[2]| == 60
    && (forall i :: 0 <= i < 3 ==> NoSpaces(lines[i]))
    && lines[1][28] == '.'
  }

  ghost predicate NoSpaces(s: string) {
    forall i :: 0 <= i < |s| ==> !IsSpace(s[i])
  }

  lemma StripsToItself(s: string)
    requires s != [] && NoSpaces(s)
    ensures LStrip(s) == s && RStrip(s) == s && Strip(s) == s && !IsBlank(s) && '\n' !in s
  {
    assert !IsSpace(s[0]);
  }

  lemma MiddleWidth(lines: seq<string>)
    requires ShortMiddle(lines)
    ensures Width(lines) == 60
  {
    forall i | 0 <= i < 3 ensures IsLong(lines[i]) {
      assert NoSpaces(lines[i]);
      StripsToItself(lines[i]);
    }
    assert Long(lines, 0) == {0, 1, 2};
    assert Shorter(lines, 0, 60) == {1};
    assert Shorter(lines, 0, 61) == {0, 1, 2};
    assert 0 in Long(lines, 0) && |lines[0]| == 60;
    WidthIff(lines, 60);
  }

  lemma MiddleMarks(lines: seq<string>)
    requires ShortMiddle(lines)
    ensures Marked(lines, 60, true) == [Mark(lines[0], true), Mark(lines[1], false), Mark(lines[2], true)]
    ensures Offsets(lines, 60, 0, 151) == [91]
  {
    forall i | 0 <= i < 3 ensures RStrip(lines[i]) == lines[i] && !IsBlank(lines[i]) {
      assert NoSpaces(lines[i]);
      StripsToItself(lines[i]);
    }
    var one, two := lines[1..], lines[2..];
    assert one[1..] == two && two[1..] == [];
    assert ShortEnd(lines[1], 60) && !ShortEnd(lines[0], 60);
    assert Marked([], 60, ShortEnd(lines[2], 60)) == [];
    assert Marked(two, 60, true) == [Mark(lines[2], true)];
    assert Marked(one, 60, false) == [Mark(lines[1], false), Mark(lines[2], true)];
    assert Offsets(two, 60, 91, 151) == [];
    assert Offsets(one, 60, 61, 151) == [91];
  }

  lemma TwoGroups(a: string, b: string, c: string)
    ensures |Group([Mark(a, true), Mark(b, false), Mark(c, true)])| == 2
  {
    GroupCons(Mark(b, false), [Mark(c, true)]);
    GroupSingle(c, true);
    GroupCons(Mark(a, true), [Mark(b, false), Mark(c, true)]);
  }

  // The short line in the middle ends a paragraph, for both heuristics.
  lemma ShortMiddleBreaks(lines: seq<string>)
    requires ShortMiddle(lines)
    ensures |Paragraphs(Join(lines, "\n"))| == 2 && Detected(Join(lines, "\n")) == [0, 91]
  {
    forall i | 0 <= i < 3 ensures '\n' !in lines[i] {
      assert NoSpaces(lines[i]);
      StripsToItself(lines[i]);
    }
    SplitOfJoin(lines);
    MiddleWidth(lines);
    MiddleMarks(lines);
    TwoGroups(lines[0], lines[1], lines[2]);
    MiddleLength(lines);
  }

  lemma MiddleLength(lines: seq<string>)
    requires ShortMiddle(lines)
    ensures |Join(lines, "\n")| == 151
  {
    assert lines[1..][1..] == [lines[2]];
    assert |Join(lines[1..], "\n")| == 90;
  }

  // There is such a text.
  lemma ShortMiddleExists() returns (lines: seq<string>)
    ensures ShortMiddle(lines)
  {
    lines := [seq(60, _ => 'x'), seq(28, _ => 'x') + ".", seq(60, _ => 'x')];
  }
}
