// The offset-based paragraph detector (scripts/export_chapter_zh_html.py:857-899)
// and its agreement with the reflow: cut at the detector's offsets, and without
// blank lines, a text falls into exactly the paragraphs that the reflow prints.
module ParagraphBreaks {
  import opened PyText
  import opened Reflow

  // Offsets at which the lines after the first open a paragraph. `cursor` is the
  // offset of lines[0], `total` the length of the text.
  function Offsets(lines: seq<string>, width: nat, cursor: nat, total: nat): seq<nat> {
    if |lines| <= 1 then []
    else
      var after := cursor + |lines[0]| + 1;
      var rest := Offsets(lines[1..], width, after, total);
      if Breaks(lines[0], width) && after < total then [after] + rest else rest
  }

  function Detected(raw: string): seq<nat> {
    var lines := Split(raw);
    [0] + Offsets(lines, Width(lines), 0, |raw|)
  }

  method DetectBreakPositions(raw: string) returns (breaks: seq<nat>)
    ensures breaks == Detected(raw)
  {
    if raw == [] {
      return [0];
    }
    var lines := Split(raw);
    if |lines| <= 1 {
      return [0];
    }
    var width := Width(lines);
    breaks := [0];
    var cursor: nat := 0;
    for i := 0 to |lines| - 1
      invariant breaks + Offsets(lines[i..], width, cursor, |raw|) == Detected(raw)
    {
      var line := lines[i];
      var after: nat := cursor + |line| + 1;
      ghost var before := breaks;
      if IsBlank(line) {
        if after < |raw| {
          breaks := breaks + [after];
        }
      } else if 20 * |RStrip(line)| < 13 * width && EndsSentence(RStrip(line)) {
        if after < |raw| {
          breaks := breaks + [after];
        }
      }
      OffsetsStep(before, breaks, lines, width, i, cursor, |raw|);
      cursor := after;
    }
    assert |lines[|lines| - 1..]| == 1;
    assert breaks + [] == breaks;
  }

  // One round of the loop.
  lemma OffsetsStep(before: seq<nat>, after: seq<nat>, lines: seq<string>, width: nat, i: nat, cursor: nat, total: nat)
    requires i < |lines| - 1
    requires var next := cursor + |lines[i]| + 1;
             after == if Breaks(lines[i], width) && next < total then before + [next] else before
    ensures before + Offsets(lines[i..], width, cursor, total)
         == after + Offsets(lines[i + 1..], width, cursor + |lines[i]| + 1, total)
  {
    assert lines[i..][1..] == lines[i + 1..];
    var next := cursor + |lines[i]| + 1;
    var rest := Offsets(lines[i + 1..], width, next, total);
    assert before + [next] + rest == before + ([next] + rest);
  }

  // ----- The detector's paragraphs: the slices between its offsets -----

  ghost predicate Ascend(start: nat, breaks: seq<nat>, end: nat)
    decreases breaks
  {
    start <= end && (breaks == [] || (start < breaks[0] && Ascend(breaks[0], breaks[1..], end)))
  }

  ghost function Slices(raw: string, start: nat, breaks: seq<nat>): seq<string>
    requires Ascend(start, breaks, |raw|)
    decreases breaks
  {
    if breaks == [] then [raw[start..]]
    else
      assert Ascend(breaks[0], breaks[1..], |raw|);
      [raw[start..breaks[0]]] + Slices(raw, breaks[0], breaks[1..])
  }

  lemma {:induction false} OffsetsAscend(lines: seq<string>, width: nat, cursor: nat, start: nat)
    requires lines != [] && start <= cursor
    ensures var total := cursor + |Join(lines, "\n")|;
            Ascend(start, Offsets(lines, width, cursor, total), total)
    decreases lines
  {
    if |lines| > 1 {
      var after := cursor + |lines[0]| + 1;
      OffsetsAscend(lines[1..], width, after, start);
      OffsetsAscend(lines[1..], width, after, after);
      var total := cursor + |Join(lines, "\n")|;
      var rest := Offsets(lines[1..], width, after, total);
      assert total == after + |Join(lines[1..], "\n")|;
      assert ([after] + rest)[1..] == rest;
    }
  }

  lemma DetectedOffsets(raw: string) returns (offsets: seq<nat>)
    ensures offsets == Offsets(Split(raw), Width(Split(raw)), 0, |raw|)
    ensures Detected(raw) == [0] + offsets && Ascend(0, offsets, |raw|)
  {
    SplitJoin(raw);
    OffsetsAscend(Split(raw), Width(Split(raw)), 0, 0);
    offsets := Offsets(Split(raw), Width(Split(raw)), 0, |raw|);
  }

  // The offsets found are a strictly ascending list that starts at 0.
  lemma DetectedAscends(raw: string)
    ensures Detected(raw) != [] && Detected(raw)[0] == 0 && Ascend(0, Detected(raw)[1..], |raw|)
  {
    var offsets := DetectedOffsets(raw);
    FirstOffset(offsets);
  }

  lemma FirstOffset(offsets: seq<nat>)
    ensures ([0] + offsets)[0] == 0 && ([0] + offsets)[1..] == offsets
  {
  }

  // ----- Lines between the offsets -----

  // The lines grouped as the offsets group them.
  function LineGroups(lines: seq<string>, width: nat): (g: seq<seq<string>>)
    requires lines != []
    ensures g != [] && g[0] != [] && g[0][0] == lines[0]
  {
    if |lines| == 1 then [lines]
    else
      var g := LineGroups(lines[1..], width);
      if Breaks(lines[0], width) && lines[1..] != [""] then [[lines[0]]] + g
      else [[lines[0]] + g[0]] + g[1..]
  }

  // The text of each group; all but the last end with their line break.
  function GroupTexts(groups: seq<seq<string>>): (t: seq<string>)
    ensures |t| == |groups|
  {
    if groups == [] then []
    else [Join(groups[0], "\n") + (if |groups| > 1 then "\n" else "")] + GroupTexts(groups[1..])
  }

  lemma EmptyTail(lines: seq<string>)
    requires lines != []
    ensures Join(lines, "\n") == "" <==> lines == [""]
  {
  }

  // Cut at `offsets`, the text from `start` on consists of `texts`, the first of
  // them prefixed by what lies between `start` and `cursor`.
  ghost predicate Cuts(raw: string, start: nat, cursor: nat, offsets: seq<nat>, texts: seq<string>)
    requires start <= cursor <= |raw|
  {
    && Ascend(start, offsets, |raw|) && texts != []
    && Slices(raw, start, offsets) == [raw[start..cursor] + texts[0]] + texts[1..]
  }

  // Cutting the text at the offsets cuts it between the groups.
  lemma {:induction false} SlicesAreGroups(raw: string, lines: seq<string>, width: nat, start: nat, cursor: nat)
    requires lines != [] && start <= cursor <= |raw| && raw[cursor..] == Join(lines, "\n")
    ensures Cuts(raw, start, cursor, Offsets(lines, width, cursor, |raw|), GroupTexts(LineGroups(lines, width)))
    decreases lines
  {
    var line, rest := lines[0], lines[1..];
    assert lines == [line] + rest;
    if rest == [] {
      LastSlice(raw, line, start, cursor);
    } else {
      var after := cursor + |line| + 1;
      AfterLine(raw, line, rest, start, cursor);
      EmptyTail(rest);
      var g := LineGroups(rest, width);
      var offsets := Offsets(rest, width, after, |raw|);
      if Breaks(line, width) && after < |raw| {
        SlicesAreGroups(raw, rest, width, after, after);
        NewGroupTexts(line, g);
        NewSlice(raw, start, cursor, after, line, offsets, GroupTexts(g), GroupTexts([[line]] + g));
      } else {
        SlicesAreGroups(raw, rest, width, start, after);
        GrownGroupTexts(line, g);
        GrownSlice(raw, start, cursor, after, line, offsets, GroupTexts(g), GroupTexts([[line] + g[0]] + g[1..]));
      }
    }
  }

  lemma LastSlice(raw: string, line: string, start: nat, cursor: nat)
    requires start <= cursor <= |raw| && raw[cursor..] == line
    ensures Cuts(raw, start, cursor, [], GroupTexts([[line]]))
  {
    assert raw[start..] == raw[start..cursor] + line;
    assert line + "" == line;
    assert GroupTexts([[line]]) == [line];
    assert [line][1..] == [];
  }

  lemma AfterLine(raw: string, line: string, rest: seq<string>, start: nat, cursor: nat)
    requires start <= cursor <= |raw| && rest != []
    requires raw[cursor..] == line + "\n" + Join(rest, "\n")
    ensures var after := cursor + |line| + 1;
            && after <= |raw| && raw[after..] == Join(rest, "\n")
            && raw[start..after] == raw[start..cursor] + (line + "\n")
  {
    var after := cursor + |line| + 1;
    assert raw[cursor..][|line| + 1..] == raw[after..];
    assert raw[cursor..][..|line| + 1] == raw[cursor..after] == line + "\n";
    assert raw[start..after] == raw[start..cursor] + raw[cursor..after];
  }

  lemma GrownSlice(raw: string, start: nat, cursor: nat, after: nat, line: string,
                   offsets: seq<nat>, texts: seq<string>, grown: seq<string>)
    requires start <= cursor <= after <= |raw| && raw[start..after] == raw[start..cursor] + (line + "\n")
    requires Cuts(raw, start, after, offsets, texts)
    requires grown == [line + "\n" + texts[0]] + texts[1..]
    ensures Cuts(raw, start, cursor, offsets, grown)
  {
    Assoc(raw[start..cursor], line + "\n", texts[0]);
    assert grown[1..] == texts[1..];
  }

  lemma NewSlice(raw: string, start: nat, cursor: nat, after: nat, line: string,
                 offsets: seq<nat>, texts: seq<string>, all: seq<string>)
    requires start <= cursor < after <= |raw| && raw[start..after] == raw[start..cursor] + (line + "\n")
    requires Cuts(raw, after, after, offsets, texts)
    requires all == [line + "\n"] + texts
    ensures Cuts(raw, start, cursor, [after] + offsets, all)
  {
    assert ([after] + offsets)[1..] == offsets;
    assert raw[after..after] + texts[0] == texts[0];
    assert [texts[0]] + texts[1..] == texts;
    assert all[1..] == texts;
  }

  lemma NewGroupTexts(line: string, g: seq<seq<string>>)
    requires g != []
    ensures GroupTexts([[line]] + g) == [line + "\n"] + GroupTexts(g)
  {
    assert ([[line]] + g)[1..] == g;
  }

  lemma GrownGroupTexts(line: string, g: seq<seq<string>>)
    requires g != [] && g[0] != []
    ensures GroupTexts([[line] + g[0]] + g[1..]) == [line + "\n" + GroupTexts(g)[0]] + GroupTexts(g)[1..]
  {
    var grown := [[line] + g[0]] + g[1..];
    assert grown[1..] == g[1..];
    JoinCons(line, g[0], "\n");
    Assoc(line + "\n", Join(g[0], "\n"), if |g| > 1 then "\n" else "");
  }

  // ----- Agreement -----

  function NonBlank(lines: seq<string>): seq<string> {
    if lines == [] then []
    else if IsBlank(lines[0]) then NonBlank(lines[1..])
    else [lines[0]] + NonBlank(lines[1..])
  }

  function Compact(groups: seq<seq<string>>): seq<seq<string>> {
    if groups == [] then []
    else if NonBlank(groups[0]) == [] then Compact(groups[1..])
    else [NonBlank(groups[0])] + Compact(groups[1..])
  }

  lemma CompactCons(group: seq<string>, rest: seq<seq<string>>)
    ensures Compact([group] + rest) == if NonBlank(group) == [] then Compact(rest) else [NonBlank(group)] + Compact(rest)
  {
    assert ([group] + rest)[1..] == rest;
  }

  lemma NonBlankCons(line: string, rest: seq<string>)
    ensures NonBlank([line] + rest) == if IsBlank(line) then NonBlank(rest) else [line] + NonBlank(rest)
  {
    assert ([line] + rest)[1..] == rest;
  }

  // The reflow's paragraphs are the detector's groups without their blank lines.
  lemma {:induction false} GroupsAgree(lines: seq<string>, width: nat, ended: bool)
    requires lines != []
    ensures Group(Marked(lines, width, ended)) == Compact(LineGroups(lines, width))
    decreases lines
  {
    var line, rest := lines[0], lines[1..];
    assert lines == [line] + rest;
    if rest == [] {
      OneLineAgrees(line, width, ended);
    } else {
      GroupsAgree(rest, width, IsBlank(line) || ShortEnd(line, width));
      if IsBlank(line) {
        BlankLineAgrees(line, rest, width, ended);
      } else if ShortEnd(line, width) && rest != [""] {
        NewGroupAgrees(line, rest, width, ended);
      } else {
        ContinuesNext(line, rest, width, ended);
        GrownGroupAgrees(line, rest, width);
      }
    }
  }

  lemma NewGroupAgrees(line: string, rest: seq<string>, width: nat, ended: bool)
    requires rest != [] && rest != [""] && !IsBlank(line) && ShortEnd(line, width)
    ensures Group(Marked([line] + rest, width, ended)) == [[line]] + Group(Marked(rest, width, true))
    ensures Compact(LineGroups([line] + rest, width)) == [[line]] + Compact(LineGroups(rest, width))
  {
    OpensNext(line, rest, width, ended);
    assert ([line] + rest)[1..] == rest;
    NonBlankCons(line, []);
    assert [line] + [] == [line];
    CompactCons([line], LineGroups(rest, width));
  }

  lemma GrownGroupAgrees(line: string, rest: seq<string>, width: nat)
    requires rest != [] && !IsBlank(line) && (ShortEnd(line, width) ==> rest == [""])
    ensures var g := LineGroups(rest, width);
            Compact(LineGroups([line] + rest, width)) == [[line] + NonBlank(g[0])] + Compact(g[1..])
  {
    var g := LineGroups(rest, width);
    assert ([line] + rest)[1..] == rest;
    NonBlankCons(line, g[0]);
    CompactCons([line] + g[0], g[1..]);
  }

  lemma BlankLineAgrees(line: string, rest: seq<string>, width: nat, ended: bool)
    requires rest != [] && IsBlank(line)
    ensures Marked([line] + rest, width, ended) == Marked(rest, width, true)
    ensures Compact(LineGroups([line] + rest, width)) == Compact(LineGroups(rest, width))
  {
    var g := LineGroups(rest, width);
    assert ([line] + rest)[1..] == rest;
    if rest == [""] {
      assert g == [[""]];
      assert [line] + [""] == [line, ""];
      NonBlankCons(line, [""]);
      CompactCons([line, ""], []);
      CompactCons([""], []);
    } else {
      NonBlankCons(line, []);
      CompactCons([line], g);
    }
  }

  lemma OneLineAgrees(line: string, width: nat, ended: bool)
    ensures Group(Marked([line], width, ended)) == Compact([[line]])
  {
    assert [line][1..] == [];
    assert [[line]][1..] == [];
    assert NonBlank([line]) == if IsBlank(line) then [] else [line];
    assert Marked([line], width, ended) == if IsBlank(line) then [] else [Mark(line, ended)];
    GroupSingle(line, ended);
  }

  lemma GroupSingle(line: string, ended: bool)
    ensures Group([Mark(line, ended)]) == [[line]]
  {
  }

  lemma {:induction false} FirstMark(lines: seq<string>, width: nat, ended: bool)
    requires Marked(lines, width, ended) != []
    ensures Marked(lines, width, ended)[0].opens == (ended || IsBlank(lines[0]))
    ensures !IsBlank(lines[0]) ==> Marked(lines, width, ended)[0].line == lines[0]
  {
    if IsBlank(lines[0]) {
      FirstMark(lines[1..], width, true);
    }
  }

  lemma GroupCons(mark: Mark, rest: seq<Mark>)
    ensures rest != [] && !rest[0].opens ==>
              Group([mark] + rest) == [[mark.line] + Group(rest)[0]] + Group(rest)[1..]
    ensures rest == [] || rest[0].opens ==> Group([mark] + rest) == [[mark.line]] + Group(rest)
  {
    assert ([mark] + rest)[1..] == rest;
  }

  lemma OpensNext(line: string, rest: seq<string>, width: nat, ended: bool)
    requires !IsBlank(line) && ShortEnd(line, width)
    ensures Group(Marked([line] + rest, width, ended)) == [[line]] + Group(Marked(rest, width, true))
  {
    assert ([line] + rest)[1..] == rest;
    var marks := Marked(rest, width, true);
    GroupCons(Mark(line, ended), marks);
    if marks != [] {
      FirstMark(rest, width, true);
    }
  }

  lemma BlankGroup(rest: seq<string>, width: nat)
    requires rest != [] && IsBlank(rest[0])
    ensures NonBlank(LineGroups(rest, width)[0]) == []
  {
    var g0 := LineGroups(rest, width)[0];
    if |rest| > 1 && rest[1..] == [""] {
      var g := LineGroups(rest[1..], width);
      assert g == [[""]];
      assert g0 == [rest[0], ""];
      NonBlankCons(rest[0], [""]);
    } else {
      assert g0 == [rest[0]];
      NonBlankCons(rest[0], []);
    }
  }

  lemma ContinuesNext(line: string, rest: seq<string>, width: nat, ended: bool)
    requires rest != [] && !IsBlank(line) && (ShortEnd(line, width) ==> rest == [""])
    requires Group(Marked(rest, width, ShortEnd(line, width))) == Compact(LineGroups(rest, width))
    ensures var g := LineGroups(rest, width);
            Group(Marked([line] + rest, width, ended)) == [[line] + NonBlank(g[0])] + Compact(g[1..])
  {
    var g := LineGroups(rest, width);
    var marks := Marked(rest, width, ShortEnd(line, width));
    assert ([line] + rest)[1..] == rest;
    assert Marked([line] + rest, width, ended) == [Mark(line, ended)] + marks;
    GroupCons(Mark(line, ended), marks);
    CompactCons(g[0], g[1..]);
    assert g == [g[0]] + g[1..];
    if IsBlank(rest[0]) {
      BlankGroup(rest, width);
      if marks != [] {
        FirstMark(rest, width, ShortEnd(line, width));
      }
      assert [line] + NonBlank(g[0]) == [line];
    } else {
      assert g[0] == [rest[0]] + g[0][1..];
      NonBlankCons(rest[0], g[0][1..]);
      FirstMark(rest, width, ShortEnd(line, width));
    }
  }

  // The non-blank slices of the detector, as lists of non-blank lines.
  ghost function SliceParagraphs(raw: string, breaks: seq<nat>): seq<seq<string>>
    requires breaks != [] && Ascend(breaks[0], breaks[1..], |raw|)
  {
    Compact(SplitAll(Slices(raw, breaks[0], breaks[1..])))
  }

  function SplitAll(texts: seq<string>): seq<seq<string>> {
    if texts == [] then [] else [Split(texts[0])] + SplitAll(texts[1..])
  }

  ghost predicate LineBreakFree(groups: seq<seq<string>>) {
    forall i :: 0 <= i < |groups| ==> groups[i] != [] && forall j :: 0 <= j < |groups[i]| ==> '\n' !in groups[i][j]
  }

  lemma {:induction false} GroupsAreLineBreakFree(lines: seq<string>, width: nat)
    requires lines != [] && forall i :: 0 <= i < |lines| ==> '\n' !in lines[i]
    ensures LineBreakFree(LineGroups(lines, width))
    decreases lines
  {
    if |lines| > 1 {
      GroupsAreLineBreakFree(lines[1..], width);
    }
  }

  // A group's text splits back into its lines, up to a blank one.
  lemma {:induction false} SplitOfGroupTexts(groups: seq<seq<string>>)
    requires LineBreakFree(groups)
    ensures Compact(SplitAll(GroupTexts(groups))) == Compact(groups)
  {
    if groups != [] {
      var group, rest := groups[0], groups[1..];
      SplitOfGroupTexts(rest);
      SplitOfJoin(group);
      var text := GroupTexts(groups)[0];
      assert GroupTexts(groups)[1..] == GroupTexts(rest);
      if rest != [] {
        SplitOfJoinLn(group);
        NonBlankAppendEmpty(group);
      } else {
        assert text == Join(group, "\n");
      }
      assert NonBlank(Split(text)) == NonBlank(group);
      CompactCons(Split(text), SplitAll(GroupTexts(rest)));
      CompactCons(group, rest);
    }
  }

  lemma SplitOfJoinLn(group: seq<string>)
    requires group != [] && forall j :: 0 <= j < |group| ==> '\n' !in group[j]
    ensures Split(Join(group, "\n") + "\n") == group + [""]
  {
    SplitOfJoin(group + [""]);
    JoinSnocEmpty(group);
  }

  lemma {:induction false} JoinSnocEmpty(group: seq<string>)
    requires group != []
    ensures Join(group + [""], "\n") == Join(group, "\n") + "\n"
  {
    var all := group + [""];
    assert all[1..] == group[1..] + [""];
    if |group| > 1 {
      JoinSnocEmpty(group[1..]);
      Assoc(group[0] + "\n", Join(group[1..], "\n"), "\n");
    } else {
      assert Join([""], "\n") == "";
      assert all[0] + "\n" + "" == all[0] + "\n";
    }
  }

  lemma {:induction false} NonBlankAppendEmpty(group: seq<string>)
    ensures NonBlank(group + [""]) == NonBlank(group)
  {
    if group == [] {
      NonBlankCons("", []);
    } else {
      NonBlankAppendEmpty(group[1..]);
      assert (group + [""])[1..] == group[1..] + [""];
    }
  }

  // The two heuristics agree on every repaired text: cut it at the
  // detector's offsets, drop blank lines and blank slices, and what remains are
  // exactly the paragraphs the reflow prints.
  lemma HeuristicsAgree(u: string)
    ensures Detected(u) != [] && Ascend(Detected(u)[0], Detected(u)[1..], |u|)
    ensures SliceParagraphs(u, Detected(u)) == Paragraphs(u)
  {
    DetectedAscends(u);
    SplitJoin(u);
    FirstOffset(Offsets(Split(u), Width(Split(u)), 0, |u|));
    SlicesMatchLines(u, Split(u), Width(Split(u)));
  }

  lemma SlicesMatchLines(u: string, lines: seq<string>, width: nat)
    requires lines != [] && u == Join(lines, "\n") && forall i :: 0 <= i < |lines| ==> '\n' !in lines[i]
    ensures var offsets := Offsets(lines, width, 0, |u|);
            Ascend(0, offsets, |u|) && Compact(SplitAll(Slices(u, 0, offsets))) == Group(Marked(lines, width, true))
  {
    assert u[0..] == u;
    SlicesAreGroups(u, lines, width, 0, 0);
    var texts := GroupTexts(LineGroups(lines, width));
    assert u[0..0] + texts[0] == texts[0];
    assert [texts[0]] + texts[1..] == texts;
    GroupsAreLineBreakFree(lines, width);
    SplitOfGroupTexts(LineGroups(lines, width));
    GroupsAgree(lines, width, true);
  }

  // What the exporter's reflow prints is determined by the offsets of the other heuristic.
  lemma ReflowFollowsOffsets(text: string)
    ensures var u := Clean(text);
            && Detected(u) != [] && Ascend(Detected(u)[0], Detected(u)[1..], |u|)
            && Reflowed(text) == TextOf(SliceParagraphs(u, Detected(u)))
  {
    HeuristicsAgree(Clean(text));
  }
}
