// Where a sentence starts in its block (scripts/export_chapter_zh_html.py:1062-1085).
module SentenceSearch {
  import opened PyText

  // The whitespace at the front of s.
  function Spaces(s: string): (n: nat)
    ensures n <= |s|
    ensures n < |s| ==> !IsSpace(s[n])
  {
    if s == [] || !IsSpace(s[0]) then 0 else 1 + Spaces(s[1..])
  }

  // Where the run of other characters that p stands in ends.
  function WordEnd(s: string, p: nat): (e: nat)
    requires p <= |s|
    ensures p <= e <= |s| && (e < |s| ==> IsSpace(s[e]))
    ensures forall i :: p <= i < e ==> !IsSpace(s[i])
    decreases |s| - p
  {
    if p == |s| || IsSpace(s[p]) then p else WordEnd(s, p + 1)
  }

  function WordsFrom(s: string, p: nat): (words: seq<string>)
    requires p <= |s|
    ensures forall i :: 0 <= i < |words| ==> IsWord(words[i])
    decreases |s| - p
  {
    if p == |s| then []
    else if IsSpace(s[p]) then WordsFrom(s, p + 1)
    else [s[p..WordEnd(s, p + 1)]] + WordsFrom(s, WordEnd(s, p + 1))
  }

  // s.split()
  function Words(s: string): (words: seq<string>)
    ensures forall i :: 0 <= i < |words| ==> IsWord(words[i])
  {
    WordsFrom(s, 0)
  }

  predicate IsWord(w: string) {
    w != [] && forall i :: 0 <= i < |w| ==> !IsSpace(w[i])
  }

  // The words in order, whitespace of any kind and length between them.
  predicate Reads(s: string, words: seq<string>)
    decreases |words|
  {
    words == [] ||
    (StartsWith(s, words[0]) &&
     var rest := s[|words[0]|..];
     |words| == 1 || (Spaces(rest) > 0 && Reads(rest[Spaces(rest)..], words[1..])))
  }

  // raw.find(probe, start)
  function FindText(probe: string, raw: string, start: nat): int
    decreases |raw| - start
  {
    if start > |raw| then -1
    else if StartsWith(raw[start..], probe) then start
    else FindText(probe, raw, start + 1)
  }

  // pattern.search(raw, start)
  function FindWords(words: seq<string>, raw: string, start: nat): int
    decreases |raw| - start
  {
    if start > |raw| then -1
    else if Reads(raw[start..], words) then start
    else FindWords(words, raw, start + 1)
  }

  // The first three words of the sentence.
  function Probe(sentence: string): (words: seq<string>)
    ensures forall i :: 0 <= i < |words| ==> IsWord(words[i])
  {
    var words := Words(sentence);
    if |words| > 3 then words[..3] else words
  }

  function FindSentence(sentence: string, raw: string, start: nat): int {
    var probe := Probe(sentence);
    if raw == [] || probe == [] then -1
    else
      var direct := FindText(Join(probe, " "), raw, start);
      if direct >= 0 then direct else FindWords(probe, raw, start)
  }

  lemma {:induction false} FindTextFinds(probe: string, raw: string, start: nat)
    ensures var p := FindText(probe, raw, start);
            p == -1 || (start <= p <= |raw| && StartsWith(raw[p..], probe))
    ensures forall q: nat :: start <= q <= |raw| && (FindText(probe, raw, start) == -1 || q < FindText(probe, raw, start)) ==>
              !StartsWith(raw[q..], probe)
    decreases |raw| - start
  {
    if start <= |raw| && !StartsWith(raw[start..], probe) {
      FindTextFinds(probe, raw, start + 1);
    }
  }

  lemma {:induction false} FindWordsFinds(words: seq<string>, raw: string, start: nat)
    ensures var p := FindWords(words, raw, start);
            p == -1 || (start <= p <= |raw| && Reads(raw[p..], words))
    ensures forall q: nat :: start <= q <= |raw| && (FindWords(words, raw, start) == -1 || q < FindWords(words, raw, start)) ==>
              !Reads(raw[q..], words)
    decreases |raw| - start
  {
    if start <= |raw| && !Reads(raw[start..], words) {
      FindWordsFinds(words, raw, start + 1);
    }
  }

  lemma CutPrefix(s: string, a: string, b: string)
    requires StartsWith(s, a + b)
    ensures StartsWith(s, a) && StartsWith(s[|a|..], b)
  {
    assert s[..|a|] == (a + b)[..|a|] == a;
    assert s[|a|..][..|b|] == (a + b)[|a|..] == b;
  }

  lemma OneSpace(s: string, after: string)
    requires after != [] && IsWord(after[..1]) && StartsWith(s, " " + after)
    ensures Spaces(s) == 1 && StartsWith(s[1..], after)
  {
    CutPrefix(s, " ", after);
    assert s[..1] == " ";
    assert s[1..][0] == after[0] == after[..1][0];
  }

  lemma {:induction false} DirectReads(s: string, words: seq<string>)
    requires forall i :: 0 <= i < |words| ==> IsWord(words[i])
    requires StartsWith(s, Join(words, " "))
    ensures Reads(s, words)
    decreases |words|
  {
    if |words| > 1 {
      var after := Join(words[1..], " ");
      assert Join(words, " ") == words[0] + (" " + after) by { Assoc(words[0], " ", after); }
      CutPrefix(s, words[0], " " + after);
      JoinStarts(words[1..]);
      OneSpace(s[|words[0]|..], after);
      DirectReads(s[|words[0]|..][1..], words[1..]);
    }
  }

  lemma JoinStarts(words: seq<string>)
    requires words != [] && IsWord(words[0])
    ensures Join(words, " ") != [] && IsWord(Join(words, " ")[..1])
  {
    assert Join(words, " ")[0] == words[0][0];
  }

  // ----- What the search promises -----

  // The number of words that the search looks for.
  function Sought(sentence: string): nat {
    if |Words(sentence)| < 3 then |Words(sentence)| else 3
  }

  lemma ProbeIsFirstThree(sentence: string)
    ensures Probe(sentence) == Words(sentence)[..Sought(sentence)]
  {
  }

  // Where a sentence is found its first three words can be read, or all of them if
  // there are fewer.
  lemma FoundIsOccurrence(sentence: string, raw: string, start: nat)
    requires FindSentence(sentence, raw, start) >= 0
    ensures var p := FindSentence(sentence, raw, start);
            start <= p < |raw| && Words(sentence) != [] && Reads(raw[p..], Words(sentence)[..Sought(sentence)])
  {
    ProbeIsFirstThree(sentence);
    var probe := Probe(sentence);
    var p := FindSentence(sentence, raw, start);
    FindTextFinds(Join(probe, " "), raw, start);
    FindWordsFinds(probe, raw, start);
    if FindText(Join(probe, " "), raw, start) >= 0 {
      DirectReads(raw[p..], probe);
    }
    assert StartsWith(raw[p..], probe[0]) && IsWord(probe[0]);
  }

  // It is missed only if they can be read nowhere from `start` on.
  lemma NotFoundIff(sentence: string, raw: string, start: nat)
    ensures FindSentence(sentence, raw, start) == -1 <==>
            Words(sentence) == [] ||
            forall p: nat :: start <= p <= |raw| ==> !Reads(raw[p..], Words(sentence)[..Sought(sentence)])
  {
    ProbeIsFirstThree(sentence);
    var probe := Probe(sentence);
    FindWordsFinds(probe, raw, start);
    FindTextFinds(Join(probe, " "), raw, start);
    if probe != [] {
      if raw == [] {
        assert IsWord(probe[0]);
      } else if FindSentence(sentence, raw, start) >= 0 {
        FoundIsOccurrence(sentence, raw, start);
      }
    }
  }

  // The verbatim words win over the same words with other whitespace between them,
  // even further on; among equals the first wins.
  lemma FoundIsFirst(sentence: string, raw: string, start: nat)
    requires FindSentence(sentence, raw, start) >= 0
    ensures var p, words := FindSentence(sentence, raw, start), Words(sentence)[..Sought(sentence)];
            var verbatim := Join(words, " ");
            && (forall q: nat :: start <= q < p && q <= |raw| ==> !StartsWith(raw[q..], verbatim))
            && p <= |raw|
            && (!StartsWith(raw[p..], verbatim) ==>
                  && (forall q: nat :: start <= q <= |raw| ==> !StartsWith(raw[q..], verbatim))
                  && (forall q: nat :: start <= q < p && q <= |raw| ==> !Reads(raw[q..], words)))
  {
    ProbeIsFirstThree(sentence);
    FindTextFinds(Join(Probe(sentence), " "), raw, start);
    FindWordsFinds(Probe(sentence), raw, start);
  }

  // ----- Words and reading, by position -----

  // s[a..b] is a maximal run of characters that are not whitespace.
  ghost predicate IsRun(s: string, a: nat, b: nat) {
    && a < b <= |s| && (forall i :: a <= i < b ==> !IsSpace(s[i]))
    && (a > 0 ==> IsSpace(s[a - 1])) && (b < |s| ==> IsSpace(s[b]))
  }

  // The word stands at a, whole.
  ghost predicate RunAt(s: string, word: string, a: nat) {
    IsRun(s, a, a + |word|) && word == s[a..a + |word|]
  }

  // The words stand at these positions, from p on, and every run from p on is one of them.
  ghost predicate WordsAt(s: string, words: seq<string>, starts: seq<nat>, p: nat) {
    && |starts| == |words|
    && (forall i: nat :: i < |words| ==> p <= starts[i] && RunAt(s, words[i], starts[i]))
    && (forall i: nat, j: nat :: i < j < |words| ==> starts[i] < starts[j])
    && (forall a: nat, b: nat :: p <= a && IsRun(s, a, b) ==> a in starts)
  }

  lemma {:induction false} SpacesAreSpaces(s: string)
    ensures forall i :: 0 <= i < Spaces(s) ==> IsSpace(s[i])
  {
    if s != [] && IsSpace(s[0]) {
      SpacesAreSpaces(s[1..]);
      assert forall i :: 0 < i < Spaces(s) ==> s[i] == s[1..][i - 1];
    }
  }

  // No run reaches across p.
  ghost predicate Between(s: string, p: nat) {
    p <= |s| && (0 < p < |s| ==> IsSpace(s[p - 1]) || IsSpace(s[p]))
  }

  // Splitting finds the maximal runs of other characters, in order, and leaves none out.
  lemma {:induction false} WordsAreRuns(s: string, p: nat) returns (starts: seq<nat>)
    requires Between(s, p)
    ensures WordsAt(s, WordsFrom(s, p), starts, p)
    decreases |s| - p
  {
    if p == |s| {
      starts := [];
    } else if IsSpace(s[p]) {
      starts := WordsAreRuns(s, p + 1);
      SpaceIsNoRun(s, p, WordsFrom(s, p + 1), starts);
    } else {
      var e := WordEnd(s, p + 1);
      var more := WordsAreRuns(s, e);
      starts := OneMoreRun(s, p, e, WordsFrom(s, e), more);
    }
  }

  lemma SpaceIsNoRun(s: string, p: nat, words: seq<string>, starts: seq<nat>)
    requires p < |s| && IsSpace(s[p]) && WordsAt(s, words, starts, p + 1)
    ensures WordsAt(s, words, starts, p)
  {
    forall c: nat, d: nat | p <= c && IsRun(s, c, d) ensures c in starts {
      assert c != p;
    }
  }

  lemma OneMoreRun(s: string, a: nat, b: nat, words: seq<string>, more: seq<nat>) returns (starts: seq<nat>)
    requires IsRun(s, a, b) && WordsAt(s, words, more, b)
    ensures WordsAt(s, [s[a..b]] + words, starts, a)
  {
    starts := [a] + more;
    EveryRun(s, a, a, b, more);
    FirstThenRest(s, a, a, s[a..b], words, more);
  }

  lemma WordsOfText(s: string) returns (starts: seq<nat>)
    ensures WordsAt(s, Words(s), starts, 0)
  {
    starts := WordsAreRuns(s, 0);
  }

  lemma EveryRun(s: string, p: nat, a: nat, b: nat, more: seq<nat>)
    requires p <= a && IsRun(s, a, b) && forall i :: p <= i < a ==> IsSpace(s[i])
    requires forall c: nat, d: nat :: b <= c && IsRun(s, c, d) ==> c in more
    ensures forall c: nat, d: nat :: p <= c && IsRun(s, c, d) ==> c in [a] + more
  {
    forall c: nat, d: nat | p <= c && IsRun(s, c, d) ensures c in [a] + more {
      RunIsBehind(s, p, a, b, c, d);
    }
  }

  // A run from p on is the first one or starts behind it.
  lemma RunIsBehind(s: string, p: nat, a: nat, b: nat, c: nat, d: nat)
    requires p <= a && IsRun(s, a, b) && forall i :: p <= i < a ==> IsSpace(s[i])
    requires p <= c && IsRun(s, c, d)
    ensures c == a || c > b
  {
    assert !IsSpace(s[c]);
    assert c > 0 ==> IsSpace(s[c - 1]);
  }

  lemma FirstThenRest(s: string, p: nat, a: nat, word: string, words: seq<string>, rest: seq<nat>)
    requires p <= a && RunAt(s, word, a)
    requires WordsAt(s, words, rest, a + |word|)
    requires forall c: nat, d: nat :: p <= c && IsRun(s, c, d) ==> c in [a] + rest
    ensures WordsAt(s, [word] + words, [a] + rest, p)
  {
    var all, starts := [word] + words, [a] + rest;
    forall i: nat | i < |all| ensures p <= starts[i] && RunAt(s, all[i], starts[i]) {
      if i > 0 {
        assert RunAt(s, words[i - 1], rest[i - 1]);
      }
    }
    forall i: nat, j: nat | i < j < |all| ensures starts[i] < starts[j] {
      assert RunAt(s, words[j - 1], rest[j - 1]);
    }
  }

  // The words stand at these positions of s, with nothing but whitespace between
  // them, and some between each two.
  ghost predicate StandAt(s: string, words: seq<string>, starts: seq<nat>) {
    && |starts| == |words| && (words != [] ==> starts[0] == 0)
    && (forall i: nat :: i < |words| ==> starts[i] + |words[i]| <= |s| && s[starts[i]..starts[i] + |words[i]|] == words[i])
    && (forall i: nat :: i + 1 < |words| ==> Gap(s, starts[i] + |words[i]|, starts[i + 1]))
  }

  ghost predicate Gap(s: string, a: nat, b: nat) {
    a < b <= |s| && forall i :: a <= i < b ==> IsSpace(s[i])
  }

  lemma {:induction false} ReadsStand(s: string, words: seq<string>) returns (starts: seq<nat>)
    requires Reads(s, words)
    ensures StandAt(s, words, starts)
    decreases |words|
  {
    if |words| <= 1 {
      starts := if words == [] then [] else [0];
      assert words != [] ==> s[0..0 + |words[0]|] == s[..|words[0]|];
    } else {
      var n := ReadsRest(s, words);
      var more := ReadsStand(s[n..], words[1..]);
      starts := [0] + Shifted(more, n);
      StandShifted(s, words, more, n);
    }
  }

  lemma ReadsRest(s: string, words: seq<string>) returns (n: nat)
    requires Reads(s, words) && |words| > 1
    ensures |words[0]| < n <= |s| && s[..|words[0]|] == words[0]
    ensures (forall i :: |words[0]| <= i < n ==> IsSpace(s[i])) && Reads(s[n..], words[1..])
  {
    var m := |words[0]|;
    var rest := s[m..];
    n := m + Spaces(rest);
    SpacesAreSpaces(rest);
    assert rest[Spaces(rest)..] == s[n..];
    assert forall i :: m <= i < n ==> s[i] == rest[i - m];
  }

  function Shifted(starts: seq<nat>, n: nat): (r: seq<nat>)
    ensures |r| == |starts| && forall i :: 0 <= i < |r| ==> r[i] == starts[i] + n
  {
    seq(|starts|, i requires 0 <= i < |starts| => starts[i] + n)
  }

  lemma StandShifted(s: string, words: seq<string>, more: seq<nat>, n: nat)
    requires |words| > 1 && |words[0]| < n <= |s| && s[..|words[0]|] == words[0]
    requires forall i :: |words[0]| <= i < n ==> IsSpace(s[i])
    requires StandAt(s[n..], words[1..], more)
    ensures StandAt(s, words, [0] + Shifted(more, n))
  {
    var t, rest, starts := s[n..], words[1..], [0] + Shifted(more, n);
    forall i: nat | i < |words| ensures starts[i] + |words[i]| <= |s| && s[starts[i]..starts[i] + |words[i]|] == words[i] {
      if i > 0 {
        SliceOfTail(s, t, n, more[i - 1], |rest[i - 1]|);
      }
    }
    forall i: nat | i + 1 < |words| ensures Gap(s, starts[i] + |words[i]|, starts[i + 1]) {
      if i > 0 {
        GapOfTail(s, t, n, more[i - 1] + |rest[i - 1]|, more[i]);
      }
    }
  }

  lemma SliceOfTail(s: string, t: string, n: nat, a: nat, len: nat)
    requires n <= |s| && t == s[n..] && a + len <= |t|
    ensures s[a + n..a + n + len] == t[a..a + len]
  {
  }

  lemma GapOfTail(s: string, t: string, n: nat, a: nat, b: nat)
    requires n <= |s| && t == s[n..] && Gap(t, a, b)
    ensures Gap(s, a + n, b + n)
  {
    forall i | a + n <= i < b + n ensures IsSpace(s[i]) {
      assert t[i - n] == s[i];
    }
  }

  lemma {:induction false} SpacesOfGap(s: string, n: nat)
    requires n < |s| && (forall i :: 0 <= i < n ==> IsSpace(s[i])) && !IsSpace(s[n])
    ensures Spaces(s) == n
  {
    if n > 0 {
      assert forall i :: 0 <= i < n - 1 ==> s[1..][i] == s[i + 1];
      SpacesOfGap(s[1..], n - 1);
    }
  }

  lemma {:induction false} StandRead(s: string, words: seq<string>, starts: seq<nat>)
    requires forall i :: 0 <= i < |words| ==> IsWord(words[i])
    requires StandAt(s, words, starts)
    ensures Reads(s, words)
    decreases |words|
  {
    if words != [] {
      assert s[..|words[0]|] == s[starts[0]..starts[0] + |words[0]|] == words[0];
    }
    if |words| > 1 {
      var n, more := StandTail(s, words, starts);
      StandRead(s[n..], words[1..], more);
      assert s[|words[0]|..][n - |words[0]|..] == s[n..];
    }
  }

  // Behind the first word and the whitespace after it, the others stand.
  lemma StandTail(s: string, words: seq<string>, starts: seq<nat>) returns (n: nat, more: seq<nat>)
    requires StandAt(s, words, starts) && |words| > 1 && IsWord(words[1])
    ensures |words[0]| < n <= |s| && Spaces(s[|words[0]|..]) == n - |words[0]|
    ensures StandAt(s[n..], words[1..], more)
  {
    n := starts[1];
    assert Gap(s, starts[0] + |words[0]|, starts[0 + 1]);
    SecondWord(s, words, n, s[|words[0]|..]);
    more := seq(|words| - 1, i requires 0 <= i < |words| - 1 => if starts[i + 1] >= n then starts[i + 1] - n else 0);
    StandsBehind(s, words, starts, 1);
    StandUnshifted(s, words, starts, more);
  }

  lemma SecondWord(s: string, words: seq<string>, n: nat, rest: string)
    requires |words| > 1 && IsWord(words[1]) && |words[0]| < n && n + |words[1]| <= |s| && rest == s[|words[0]|..]
    requires s[n..n + |words[1]|] == words[1] && Gap(s, |words[0]|, n)
    ensures Spaces(rest) == n - |words[0]|
  {
    assert s[n] == words[1][0];
    assert forall i :: 0 <= i < n - |words[0]| ==> rest[i] == s[|words[0]| + i];
    SpacesOfGap(rest, n - |words[0]|);
  }

  // Later words stand further on.
  lemma {:induction false} StandsBehind(s: string, words: seq<string>, starts: seq<nat>, k: nat)
    requires StandAt(s, words, starts) && 1 <= k <= |words|
    ensures forall i: nat :: k <= i < |words| ==> starts[i] >= starts[k]
    decreases |words| - k
  {
    if k + 1 < |words| {
      assert Gap(s, starts[k] + |words[k]|, starts[k + 1]);
      StandsBehind(s, words, starts, k + 1);
    }
  }

  lemma StandUnshifted(s: string, words: seq<string>, starts: seq<nat>, more: seq<nat>)
    requires StandAt(s, words, starts) && |words| > 1 && |more| == |words| - 1
    requires forall i: nat :: 1 <= i < |words| ==> starts[i] >= starts[1]
    requires forall i: nat :: i < |more| ==> more[i] + starts[1] == starts[i + 1]
    requires starts[1] <= |s|
    ensures StandAt(s[starts[1]..], words[1..], more)
  {
    var n, t, tail := starts[1], s[starts[1]..], words[1..];
    forall i: nat | i < |tail| ensures more[i] + |tail[i]| <= |t| && t[more[i]..more[i] + |tail[i]|] == tail[i] {
      assert tail[i] == words[i + 1] && t[more[i]..more[i] + |tail[i]|] == s[starts[i + 1]..starts[i + 1] + |words[i + 1]|];
    }
    forall i: nat | i + 1 < |tail| ensures Gap(t, more[i] + |tail[i]|, more[i + 1]) {
      assert Gap(s, starts[i + 1] + |words[i + 1]|, starts[i + 1 + 1]);
      assert forall k :: more[i] + |tail[i]| <= k < more[i + 1] ==> t[k] == s[k + n];
    }
  }

  // To be read is to stand there, whatever whitespace lies between.
  lemma ReadsIff(s: string, words: seq<string>)
    requires forall i :: 0 <= i < |words| ==> IsWord(words[i])
    ensures Reads(s, words) <==> exists starts :: StandAt(s, words, starts)
  {
    if Reads(s, words) {
      var starts := ReadsStand(s, words);
    }
    if starts :| StandAt(s, words, starts) {
      StandRead(s, words, starts);
    }
  }
}
