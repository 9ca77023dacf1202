// Splitting a run-on bibliography into its entries
// (scripts/export_chapter_zh_html.py:1567-1605).
module References {
  import opened Wrappers
  import opened PyText
  import L = ReflowLaws

  // Where the whitespace that starts at p ends.
  function SpacesEnd(s: string, p: nat): (n: nat)
    requires p <= |s|
    ensures p <= n <= |s| && (n < |s| ==> !IsSpace(s[n]))
    ensures forall i: nat :: p <= i < n ==> IsSpace(s[i])
    decreases |s| - p
  {
    if p == |s| || !IsSpace(s[p]) then p else SpacesEnd(s, p + 1)
  }

  function DigitsEnd(s: string, p: nat): (n: nat)
    requires p <= |s|
    ensures p <= n <= |s| && (n < |s| ==> !IsDigit(s[n]))
    ensures forall i: nat :: p <= i < n ==> IsDigit(s[i])
    decreases |s| - p
  {
    if p == |s| || !IsDigit(s[p]) then p else DigitsEnd(s, p + 1)
  }

  // Where the [N] marker at p ends; 0 if there is none.
  function MarkerEnd(s: string, p: nat): (n: nat)
    requires p < |s|
    ensures n == 0 || (p + 2 < n <= |s| && s[p] == '[' && s[n - 1] == ']')
    ensures forall i: nat :: p < i < n ==> s[i] != '['
  {
    if s[p] != '[' then 0
    else
      var a := SpacesEnd(s, p + 1);
      var b := DigitsEnd(s, a);
      var c := SpacesEnd(s, b);
      if a < b && c < |s| && s[c] == ']' then c + 1 else 0
  }

  predicate MarkerAt(s: string, p: nat) {
    p < |s| && MarkerEnd(s, p) > 0
  }

  // For every position where the marker there ends.
  function Ends(s: string): (ends: seq<nat>)
    ensures |ends| == |s|
    ensures forall p: nat :: p < |s| ==> ends[p] == MarkerEnd(s, p)
  {
    seq(|s|, (p: nat) requires p < |s| => MarkerEnd(s, p))
  }

  // Markers are not empty and do not overlap.
  ghost predicate Apart(ends: seq<nat>) {
    && (forall p: nat :: p < |ends| ==> ends[p] == 0 || p < ends[p] <= |ends|)
    && (forall p: nat, q: nat :: p < q < |ends| && q < ends[p] ==> ends[q] == 0)
  }

  lemma MarkersAreApart(s: string)
    ensures Apart(Ends(s))
  {
    forall p: nat, q: nat | p < q < |s| && q < MarkerEnd(s, p) ensures MarkerEnd(s, q) == 0 {
      assert s[q] != '[';
    }
  }

  // Where markers start, from p on, each searched for behind the last.
  function Markers(ends: seq<nat>, p: nat): (r: seq<nat>)
    decreases |ends| - p
  {
    if p >= |ends| then []
    else if ends[p] > p then [p] + Markers(ends, ends[p])
    else Markers(ends, p + 1)
  }

  // The text without a leading list mark.
  function WithoutListMark(text: string): string {
    var n := SpacesEnd(text, 0);
    if n < |text| && text[n] in "-*+" && SpacesEnd(text, n + 1) > n + 1 then text[SpacesEnd(text, n + 1)..] else text
  }

  ghost predicate Ordered(markers: seq<nat>, total: nat) {
    && (forall i: nat :: i < |markers| ==> markers[i] < total)
    && (forall i: nat, j: nat :: i < j < |markers| ==> markers[i] < markers[j])
  }

  // The search finds every marker, in order.
  lemma {:induction false} MarkersIff(ends: seq<nat>, p: nat, q: nat)
    requires Apart(ends)
    ensures q in Markers(ends, p) <==> p <= q < |ends| && ends[q] > 0
    decreases |ends| - p
  {
    if p < |ends| {
      MarkersIff(ends, if ends[p] > p then ends[p] else p + 1, q);
    }
  }

  lemma {:induction false} MarkersAscend(ends: seq<nat>, p: nat)
    ensures Ordered(Markers(ends, p), |ends|)
    ensures forall i: nat :: i < |Markers(ends, p)| ==> p <= Markers(ends, p)[i]
    decreases |ends| - p
  {
    if p < |ends| {
      MarkersAscend(ends, if ends[p] > p then ends[p] else p + 1);
    }
  }

  // Entry i runs from its marker to the next; the first also has what comes before.
  function Start(markers: seq<nat>, i: nat): nat
    requires i < |markers|
  {
    if i == 0 then 0 else markers[i]
  }

  function End(total: nat, markers: seq<nat>, i: nat): nat
    requires i < |markers|
  {
    if i + 1 < |markers| then markers[i + 1] else total
  }

  function EntryOf(body: string, markers: seq<nat>, i: nat): string
    requires Ordered(markers, |body|) && i < |markers|
  {
    Strip(body[Start(markers, i)..End(|body|, markers, i)])
  }

  function Entries(body: string, markers: seq<nat>, n: nat): (r: seq<string>)
    requires Ordered(markers, |body|) && n <= |markers|
    ensures |r| == n
    ensures forall i: nat :: i < n ==> r[i] == EntryOf(body, markers, i)
  {
    if n == 0 then [] else Entries(body, markers, n - 1) + [EntryOf(body, markers, n - 1)]
  }

  method SplitReferenceCitations(text: string, minMarkers: int) returns (r: Option<seq<string>>)
    ensures var body := WithoutListMark(text);
            var markers := Markers(Ends(body), 0);
            && Ordered(markers, |body|)
            && (r.Some? <==> text != "" && |markers| >= 1 && |markers| >= minMarkers)
            && (r.Some? ==> r.value == Entries(body, markers, |markers|))
  {
    var body := WithoutListMark(text);
    var markers := Markers(Ends(body), 0);
    MarkersAscend(Ends(body), 0);
    if text == "" {
      return None;
    }
    if |markers| < (if minMarkers > 1 then minMarkers else 1) {
      return None;
    }
    var entries: seq<string> := [];
    for i := 0 to |markers|
      invariant entries == Entries(body, markers, i)
    {
      var entry := Strip(body[Start(markers, i)..End(|body|, markers, i)]);
      EntryIsNotEmpty(body, markers, i);
      if entry != "" {
        entries := entries + [entry];
      }
    }
    r := if entries != [] then Some(entries) else None;
  }

  // ----- What an entry holds -----

  // Stripping takes spaces off both ends.
  lemma StripIsSlice(s: string) returns (i: nat, j: nat)
    ensures i <= j <= |s| && Strip(s) == s[i..j]
    ensures forall k: nat :: k < i || j <= k < |s| ==> IsSpace(s[k])
  {
    i := LStripIsSlice(s);
    var n := RStripIsSlice(s[i..]);
    j := i + n;
    forall k: nat | j <= k < |s| ensures IsSpace(s[k]) {
      assert s[k] == s[i..][k - i];
    }
    assert s[i..][..n] == s[i..j];
  }

  ghost predicate IsSlice(t: string, s: string, a: nat) {
    a + |t| <= |s| && forall i: nat :: i < |t| ==> t[i] == s[a + i]
  }

  lemma {:induction false} SpacesInSlice(t: string, s: string, a: nat, p: nat)
    requires IsSlice(t, s, a) && p <= |t|
    ensures a + SpacesEnd(t, p) == if SpacesEnd(s, a + p) < a + |t| then SpacesEnd(s, a + p) else a + |t|
    decreases |t| - p
  {
    if p < |t| && IsSpace(t[p]) {
      SpacesInSlice(t, s, a, p + 1);
    }
  }

  lemma {:induction false} DigitsInSlice(t: string, s: string, a: nat, p: nat)
    requires IsSlice(t, s, a) && p <= |t|
    ensures a + DigitsEnd(t, p) == if DigitsEnd(s, a + p) < a + |t| then DigitsEnd(s, a + p) else a + |t|
    decreases |t| - p
  {
    if p < |t| && IsDigit(t[p]) {
      DigitsInSlice(t, s, a, p + 1);
    }
  }

  function Least(m: nat, n: nat): nat {
    if m < n then m else n
  }

  lemma SpacesCut(t: string, s: string, a: nat, p: nat, q: nat)
    requires IsSlice(t, s, a) && p <= |t| && q <= |s| && a + p == Least(q, a + |t|)
    ensures a + SpacesEnd(t, p) == Least(SpacesEnd(s, q), a + |t|)
  {
    if q <= a + |t| {
      SpacesInSlice(t, s, a, p);
    }
  }

  lemma DigitsCut(t: string, s: string, a: nat, p: nat, q: nat)
    requires IsSlice(t, s, a) && p <= |t| && q <= |s| && a + p == Least(q, a + |t|)
    ensures a + DigitsEnd(t, p) == Least(DigitsEnd(s, q), a + |t|)
  {
    if q <= a + |t| {
      DigitsInSlice(t, s, a, p);
    }
  }

  // The three positions of a marker in the slice are those in the text, cut at its end.
  lemma PositionsInSlice(t: string, s: string, a: nat, p: nat)
    requires IsSlice(t, s, a) && p < |t|
    ensures var x, xs := SpacesEnd(t, p + 1), SpacesEnd(s, a + p + 1);
            var y, ys := DigitsEnd(t, x), DigitsEnd(s, xs);
            var z, zs := SpacesEnd(t, y), SpacesEnd(s, ys);
            && a + x == Least(xs, a + |t|) && a + y == Least(ys, a + |t|) && a + z == Least(zs, a + |t|)
  {
    SpacesCut(t, s, a, p + 1, a + p + 1);
    var x, xs := SpacesEnd(t, p + 1), SpacesEnd(s, a + p + 1);
    DigitsCut(t, s, a, x, xs);
    SpacesCut(t, s, a, DigitsEnd(t, x), DigitsEnd(s, xs));
  }

  // A slice has the markers that lie in it whole.
  lemma MarkerInSlice(t: string, s: string, a: nat, p: nat)
    requires IsSlice(t, s, a) && p < |t|
    ensures MarkerAt(t, p) <==> MarkerAt(s, a + p) && MarkerEnd(s, a + p) <= a + |t|
  {
    assert t[p] == s[a + p];
    if t[p] == '[' {
      PositionsInSlice(t, s, a, p);
      var z := SpacesEnd(t, DigitsEnd(t, SpacesEnd(t, p + 1)));
      assert z < |t| ==> t[z] == s[a + z];
    }
  }

  // The next entry starts behind the marker.
  lemma MarkerFits(ends: seq<nat>, markers: seq<nat>, i: nat)
    requires Apart(ends) && markers == Markers(ends, 0) && Ordered(markers, |ends|) && i < |markers|
    ensures Start(markers, i) <= markers[i] < ends[markers[i]] <= End(|ends|, markers, i)
  {
    MarkersIff(ends, 0, markers[i]);
    if i + 1 < |markers| {
      MarkersIff(ends, 0, markers[i + 1]);
    }
  }

  lemma OnlyMarker(ends: seq<nat>, markers: seq<nat>, i: nat, p: nat)
    requires Apart(ends) && markers == Markers(ends, 0) && Ordered(markers, |ends|) && i < |markers|
    requires Start(markers, i) <= p < End(|ends|, markers, i) && p < |ends| && ends[p] > 0
    ensures p == markers[i]
  {
    MarkersIff(ends, 0, p);
  }

  // Stripping a slice keeps what stands between brackets in it.
  lemma StripKeeps(body: string, a: nat, b: nat, q: nat, n: nat) returns (x: nat)
    requires a <= q < n <= b <= |body| && body[q] == '[' && body[n - 1] == ']'
    ensures IsSlice(Strip(body[a..b]), body, x)
    ensures a <= x <= q && n <= x + |Strip(body[a..b])| <= b
  {
    var slice := body[a..b];
    var j, k := StripIsSlice(slice);
    assert slice[q - a] == '[' && slice[n - 1 - a] == ']';
    x := a + j;
  }

  lemma OneInSlice(t: string, body: string, x: nat, q: nat)
    requires IsSlice(t, body, x) && x <= q < x + |t| && MarkerAt(body, q) && MarkerEnd(body, q) <= x + |t|
    requires forall p: nat :: x <= p < x + |t| && MarkerAt(body, p) ==> p == q
    ensures forall m: nat :: MarkerAt(t, m) <==> m == q - x
  {
    MarkerInSlice(t, body, x, q - x);
    forall m: nat | MarkerAt(t, m) ensures m == q - x {
      MarkerInSlice(t, body, x, m);
    }
  }

  lemma OneInEntry(body: string, markers: seq<nat>, i: nat)
    requires markers == Markers(Ends(body), 0) && Ordered(markers, |body|) && i < |markers|
    ensures var q := markers[i];
            && Start(markers, i) <= q && MarkerAt(body, q) && MarkerEnd(body, q) <= End(|body|, markers, i)
            && (forall p: nat :: Start(markers, i) <= p < End(|body|, markers, i) && MarkerAt(body, p) ==> p == q)
  {
    var ends := Ends(body);
    MarkersAreApart(body);
    MarkerFits(ends, markers, i);
    forall p: nat | Start(markers, i) <= p < End(|body|, markers, i) && MarkerAt(body, p) ensures p == markers[i] {
      OnlyMarker(ends, markers, i, p);
    }
  }

  // An entry holds its own marker, whole, and no other; behind the first entry it is
  // also what the entry starts with.
  lemma EntryHoldsMarker(body: string, markers: seq<nat>, i: nat) returns (k: nat)
    requires markers == Markers(Ends(body), 0) && Ordered(markers, |body|) && i < |markers|
    ensures EntryOf(body, markers, i) != ""
    ensures forall m: nat :: MarkerAt(EntryOf(body, markers, i), m) <==> m == k
    ensures i > 0 ==> k == 0
  {
    var a, b, q := Start(markers, i), End(|body|, markers, i), markers[i];
    OneInEntry(body, markers, i);
    var x := StripKeeps(body, a, b, q, MarkerEnd(body, q));
    OneInSlice(Strip(body[a..b]), body, x, q);
    k := q - x;
  }

  lemma EntryIsNotEmpty(body: string, markers: seq<nat>, i: nat)
    requires markers == Markers(Ends(body), 0) && Ordered(markers, |body|) && i < |markers|
    ensures EntryOf(body, markers, i) != ""
  {
    var k := EntryHoldsMarker(body, markers, i);
  }

  lemma InkOfEntry(body: string, markers: seq<nat>, i: nat)
    requires Ordered(markers, |body|) && i < |markers|
    ensures Ink(EntryOf(body, markers, i)) == Ink(body[Start(markers, i)..End(|body|, markers, i)])
  {
    InkLStrip(body[Start(markers, i)..End(|body|, markers, i)]);
    InkRStrip(LStrip(body[Start(markers, i)..End(|body|, markers, i)]));
  }

  lemma InkSplit(body: string, a: nat, b: nat)
    requires a <= b <= |body|
    ensures Ink(body[..b]) == Ink(body[..a]) + Ink(body[a..b])
  {
    assert body[..b] == body[..a] + body[a..b];
    InkConcat(body[..a], body[a..b]);
  }

  // How far the first n entries reach.
  function Reach(total: nat, markers: seq<nat>, n: nat): nat
    requires n <= |markers|
  {
    if n == 0 then 0 else End(total, markers, n - 1)
  }

  lemma {:induction false} EntriesKeepInk(body: string, markers: seq<nat>, n: nat)
    requires Ordered(markers, |body|) && n <= |markers|
    ensures Reach(|body|, markers, n) <= |body|
    ensures L.InkOfLines(Entries(body, markers, n)) == Ink(body[..Reach(|body|, markers, n)])
  {
    if n > 0 {
      EntriesKeepInk(body, markers, n - 1);
      InkOfEntry(body, markers, n - 1);
      L.InkOfSnoc(Entries(body, markers, n - 1), EntryOf(body, markers, n - 1));
      InkSplit(body, Start(markers, n - 1), End(|body|, markers, n - 1));
    }
  }

  // Nothing is lost: the entries together are the text without its list mark.
  lemma AllInkIsKept(text: string)
    requires Markers(Ends(WithoutListMark(text)), 0) != []
    ensures var body := WithoutListMark(text);
            var markers := Markers(Ends(body), 0);
            Ordered(markers, |body|) && L.InkOfLines(Entries(body, markers, |markers|)) == Ink(body)
  {
    var body := WithoutListMark(text);
    MarkersAscend(Ends(body), 0);
    EntriesKeepInk(body, Markers(Ends(body), 0), |Markers(Ends(body), 0)|);
    assert body[..|body|] == body;
  }

  // ----- Marks, character by character -----

  ghost predicate AllSpaces(s: string, a: nat, b: nat) {
    a <= b <= |s| && forall i: nat :: a <= i < b ==> IsSpace(s[i])
  }

  ghost predicate AllDigits(s: string, a: nat, b: nat) {
    a <= b <= |s| && forall i: nat :: a <= i < b ==> '0' <= s[i] <= '9'
  }

  // From p to n stands a number in brackets, perhaps with spaces around the number.
  ghost predicate IsMarker(s: string, p: nat, a: nat, b: nat, c: nat) {
    && p < a < b <= c < |s| && s[p] == '[' && s[c] == ']'
    && AllSpaces(s, p + 1, a) && AllDigits(s, a, b) && AllSpaces(s, b, c)
  }

  lemma SpacesEndAt(s: string, p: nat, a: nat)
    requires AllSpaces(s, p, a) && (a < |s| ==> !IsSpace(s[a]))
    ensures SpacesEnd(s, p) == a
  {
  }

  lemma DigitsEndAt(s: string, p: nat, a: nat)
    requires AllDigits(s, p, a) && (a < |s| ==> !IsDigit(s[a]))
    ensures DigitsEnd(s, p) == a
  {
  }

  // The search accepts exactly these.
  lemma MarkerIff(s: string, p: nat, c: nat)
    requires p < |s|
    ensures MarkerEnd(s, p) == c + 1 <==> exists a: nat, b: nat :: IsMarker(s, p, a, b, c)
  {
    if MarkerEnd(s, p) == c + 1 {
      var a := SpacesEnd(s, p + 1);
      assert IsMarker(s, p, a, DigitsEnd(s, a), c);
    }
    if a: nat, b: nat :| IsMarker(s, p, a, b, c) {
      MarkerEnds(s, p, a, b, c);
    }
  }

  lemma MarkerEnds(s: string, p: nat, a: nat, b: nat, c: nat)
    requires IsMarker(s, p, a, b, c)
    ensures MarkerEnd(s, p) == c + 1
  {
    assert IsDigit(s[a]) && !IsSpace(s[a]) && !IsSpace(s[c]);
    SpacesEndAt(s, p + 1, a);
    assert IsSpace(s[b]) || s[b] == ']';
    DigitsEndAt(s, a, b);
    SpacesEndAt(s, b, c);
  }

  // A dash, star or plus at a, with nothing but spaces before it, and with spaces
  // behind it up to n.
  ghost predicate IsListMark(s: string, a: nat, n: nat) {
    && a + 1 < n <= |s| && AllSpaces(s, 0, a) && s[a] in "-*+" && AllSpaces(s, a + 1, n)
    && (n < |s| ==> !IsSpace(s[n]))
  }

  // Such a mark goes, together with the spaces; nothing else does.
  lemma ListMarkGoes(text: string)
    ensures forall a: nat, n: nat :: IsListMark(text, a, n) ==> WithoutListMark(text) == text[n..]
    ensures (forall a: nat, n: nat :: !IsListMark(text, a, n)) ==> WithoutListMark(text) == text
  {
    forall a: nat, n: nat | IsListMark(text, a, n) ensures WithoutListMark(text) == text[n..] {
      assert !IsSpace(text[a]);
      SpacesEndAt(text, 0, a);
      SpacesEndAt(text, a + 1, n);
    }
    var a := SpacesEnd(text, 0);
    if a < |text| && text[a] in "-*+" && SpacesEnd(text, a + 1) > a + 1 {
      assert IsListMark(text, a, SpacesEnd(text, a + 1));
    }
  }
}
