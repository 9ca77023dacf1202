// The string operations the exporter is written in: stripping, splitting,
// joining and the two run-collapsing substitutions.
//
// The laws say how each operation acts on concatenations and on `Ink`, the
// characters of a text that are not whitespace.
module PyText {

  // str.isspace(), which is also the regex class \s.
  predicate IsSpace(c: char) {
    || '\t' <= c <= '\r' || c == ' '
    || '\U{001C}' <= c <= '\U{001F}' || c == '\U{0085}' || c == '\U{00A0}' || c == '\U{1680}'
    || '\U{2000}' <= c <= '\U{200A}' || c == '\U{2028}' || c == '\U{2029}'
    || c == '\U{202F}' || c == '\U{205F}' || c == '\U{3000}'
  }

  predicate IsDigit(c: char) {
    '0' <= c <= '9'
  }

  predicate StartsWith(s: string, p: string) {
    |p| <= |s| && s[..|p|] == p
  }

  predicate IsBlank(s: string) {
    forall i :: 0 <= i < |s| ==> IsSpace(s[i])
  }

  function LStrip(s: string): (t: string)
    ensures t == [] || !IsSpace(t[0])
    ensures t == [] <==> IsBlank(s)
  {
    if s == [] || !IsSpace(s[0]) then s else LStrip(s[1..])
  }

  function RStrip(s: string): (t: string)
    ensures t == [] || !IsSpace(t[|t| - 1])
    ensures t == [] <==> IsBlank(s)
  {
    if s == [] || !IsSpace(s[|s| - 1]) then s else RStrip(s[..|s| - 1])
  }

  function Strip(s: string): string {
    RStrip(LStrip(s))
  }

  // s.split("\n"): never empty, and no line contains a newline.
  function Split(s: string): (lines: seq<string>)
    ensures |lines| >= 1
    ensures forall i :: 0 <= i < |lines| ==> '\n' !in lines[i]
  {
    if s == [] then [[]]
    else
      var rest := Split(s[1..]);
      if s[0] == '\n' then [[]] + rest else [[s[0]] + rest[0]] + rest[1..]
  }

  // sep.join(parts)
  function Join(parts: seq<string>, sep: string): string {
    if parts == [] then []
    else if |parts| == 1 then parts[0]
    else parts[0] + sep + Join(parts[1..], sep)
  }

  // re.sub of runs: every maximal run of c longer than `keep` is cut down to `keep`.
  // `run` counts the copies of c directly before s.
  function SqueezeFrom(s: string, c: char, keep: nat, run: nat): string {
    if s == [] then []
    else if s[0] != c then [s[0]] + SqueezeFrom(s[1..], c, keep, 0)
    else (if run < keep then [c] else []) + SqueezeFrom(s[1..], c, keep, run + 1)
  }

  function Squeeze(s: string, c: char, keep: nat): string {
    SqueezeFrom(s, c, keep, 0)
  }

  // The characters that carry content.
  function Ink(s: string): string {
    if s == [] then [] else (if IsSpace(s[0]) then [] else [s[0]]) + Ink(s[1..])
  }

  // ----- Laws -----

  lemma Assoc(a: string, b: string, c: string)
    ensures a + b + c == a + (b + c)
  {
  }

  lemma Assoc4(a: string, b: string, c: string, d: string)
    ensures a + (b + c + d) == a + b + c + d
  {
  }

  lemma {:induction false} InkConcat(a: string, b: string)
    ensures Ink(a + b) == Ink(a) + Ink(b)
  {
    if a == [] {
      assert a + b == b;
    } else {
      assert (a + b)[1..] == a[1..] + b;
      InkConcat(a[1..], b);
    }
  }

  lemma {:induction false} InkOfBlank(s: string)
    requires IsBlank(s)
    ensures Ink(s) == []
  {
    if s != [] {
      InkOfBlank(s[1..]);
    }
  }

  lemma {:induction false} InkLStrip(s: string)
    ensures Ink(LStrip(s)) == Ink(s)
  {
    if s != [] && IsSpace(s[0]) {
      InkLStrip(s[1..]);
    }
  }

  lemma {:induction false} InkRStrip(s: string)
    ensures Ink(RStrip(s)) == Ink(s)
  {
    if s != [] && IsSpace(s[|s| - 1]) {
      var init, last := s[..|s| - 1], s[|s| - 1..];
      InkRStrip(init);
      InkConcat(init, last);
      assert s == init + last;
      InkOfBlank(last);
    }
  }

  // Where the leading white space ends.
  lemma {:induction false} LStripIsSlice(s: string) returns (i: nat)
    ensures i <= |s| && LStrip(s) == s[i..]
    ensures forall k: nat :: k < i ==> IsSpace(s[k])
  {
    if s == [] || !IsSpace(s[0]) {
      i := 0;
    } else {
      var k := LStripIsSlice(s[1..]);
      i := k + 1;
      assert forall m: nat :: 0 < m < i ==> s[m] == s[1..][m - 1];
    }
  }

  lemma {:induction false} RStripIsSlice(s: string) returns (n: nat)
    ensures n <= |s| && RStrip(s) == s[..n]
    ensures forall k: nat :: n <= k < |s| ==> IsSpace(s[k])
  {
    if s == [] || !IsSpace(s[|s| - 1]) {
      n := |s|;
      assert s[..n] == s;
    } else {
      n := RStripIsSlice(s[..|s| - 1]);
      assert s[..|s| - 1][..n] == s[..n];
      assert forall m: nat :: n <= m < |s| - 1 ==> s[m] == s[..|s| - 1][m];
    }
  }

  // Stripping the front of a text leaves what follows its leading white space.
  lemma {:induction false} LStripAfterBlank(a: string, b: string)
    requires IsBlank(a)
    ensures LStrip(a + b) == LStrip(b)
  {
    if a == [] {
      assert a + b == b;
    } else {
      assert (a + b)[1..] == a[1..] + b;
      LStripAfterBlank(a[1..], b);
    }
  }

  lemma {:induction false} LStripConcat(a: string, b: string)
    requires !IsBlank(a)
    ensures LStrip(a + b) == LStrip(a) + b
  {
    if IsSpace(a[0]) {
      assert (a + b)[1..] == a[1..] + b;
      LStripConcat(a[1..], b);
    }
  }

  lemma {:induction false} RStripConcat(a: string, b: string)
    requires !IsBlank(b)
    ensures RStrip(a + b) == a + RStrip(b)
  {
    var s := a + b;
    assert s[|s| - 1] == b[|b| - 1];
    if IsSpace(b[|b| - 1]) {
      assert s[..|s| - 1] == a + b[..|b| - 1];
      RStripConcat(a, b[..|b| - 1]);
    }
  }

  lemma {:induction false} StripMembers(s: string)
    ensures forall c :: c in LStrip(s) ==> c in s
    ensures forall c :: c in RStrip(s) ==> c in s
    decreases |s|
  {
    if s != [] {
      if IsSpace(s[0]) {
        StripMembers(s[1..]);
      }
      if IsSpace(s[|s| - 1]) {
        StripMembers(s[..|s| - 1]);
      }
    }
  }

  lemma {:induction false} SplitMembers(s: string, c: char)
    requires c !in s
    ensures forall i :: 0 <= i < |Split(s)| ==> c !in Split(s)[i]
  {
    if s != [] {
      SplitMembers(s[1..], c);
    }
  }

  lemma {:induction false} InkSqueezeFrom(s: string, c: char, keep: nat, run: nat)
    requires IsSpace(c)
    ensures Ink(SqueezeFrom(s, c, keep, run)) == Ink(s)
  {
    if s != [] {
      var run' := if s[0] != c then 0 else run + 1;
      InkSqueezeFrom(s[1..], c, keep, run');
      var head := if s[0] != c then [s[0]] else if run < keep then [c] else [];
      InkConcat(head, SqueezeFrom(s[1..], c, keep, run'));
    }
  }

  // Collapsing restarts at every character that is not c.
  lemma {:induction false} SqueezeConcat(a: string, b: string, c: char, keep: nat, run: nat)
    requires b == [] || b[0] != c
    ensures SqueezeFrom(a + b, c, keep, run) == SqueezeFrom(a, c, keep, run) + SqueezeFrom(b, c, keep, 0)
  {
    if a == [] {
      assert a + b == b;
    } else {
      assert (a + b)[1..] == a[1..] + b;
      SqueezeConcat(a[1..], b, c, keep, if a[0] != c then 0 else run + 1);
    }
  }

  // `run` copies of c stand before s, and no run of c in s reaches past `keep`.
  ghost predicate ShortRuns(s: string, c: char, keep: nat, run: nat) {
    s == [] || if s[0] != c then ShortRuns(s[1..], c, keep, 0)
               else run < keep && ShortRuns(s[1..], c, keep, run + 1)
  }

  lemma {:induction false} SqueezeKeepsShortRuns(s: string, c: char, keep: nat, run: nat)
    requires ShortRuns(s, c, keep, run)
    ensures SqueezeFrom(s, c, keep, run) == s
  {
    if s != [] {
      SqueezeKeepsShortRuns(s[1..], c, keep, if s[0] != c then 0 else run + 1);
    }
  }

  lemma {:induction false} SqueezeShortensRuns(s: string, c: char, keep: nat, run: nat)
    ensures ShortRuns(SqueezeFrom(s, c, keep, run), c, keep, if run < keep then run else keep)
  {
    if s != [] {
      var run' := if s[0] != c then 0 else run + 1;
      SqueezeShortensRuns(s[1..], c, keep, run');
      var head := if s[0] != c then [s[0]] else if run < keep then [c] else [];
      var rest := SqueezeFrom(s[1..], c, keep, run');
      if head != [] {
        assert (head + rest)[1..] == rest;
      } else {
        assert head + rest == rest;
      }
    }
  }

  lemma {:induction false} ShortRunsConcat(a: string, b: string, c: char, keep: nat, run: nat)
    requires ShortRuns(a, c, keep, run) && ShortRuns(b, c, keep, 0)
    requires b == [] || b[0] != c
    ensures ShortRuns(a + b, c, keep, run)
  {
    if a == [] {
      assert a + b == b;
    } else {
      assert (a + b)[1..] == a[1..] + b;
      ShortRunsConcat(a[1..], b, c, keep, if a[0] != c then 0 else run + 1);
    }
  }

  lemma {:induction false} ShortRunsWithoutChar(s: string, c: char, keep: nat, run: nat)
    requires c !in s
    ensures ShortRuns(s, c, keep, run)
  {
    if s != [] {
      ShortRunsWithoutChar(s[1..], c, keep, 0);
    }
  }

  lemma {:induction false} SqueezeMembers(s: string, c: char, keep: nat, run: nat)
    ensures forall d :: d in SqueezeFrom(s, c, keep, run) ==> d in s
    ensures forall d :: d in s && d != c ==> d in SqueezeFrom(s, c, keep, run)
  {
    if s != [] {
      SqueezeMembers(s[1..], c, keep, if s[0] != c then 0 else run + 1);
      assert s == [s[0]] + s[1..];
    }
  }

  lemma {:induction false} SplitJoin(s: string)
    ensures Join(Split(s), "\n") == s
  {
    if s != [] {
      SplitJoin(s[1..]);
      var rest := Split(s[1..]);
      if s[0] == '\n' {
        JoinCons([], rest, "\n");
      } else {
        JoinGrowFirst([s[0]], rest, "\n");
      }
    }
  }

  lemma JoinCons(first: string, rest: seq<string>, sep: string)
    ensures rest != [] ==> Join([first] + rest, sep) == first + sep + Join(rest, sep)
    ensures rest == [] ==> Join([first] + rest, sep) == first
  {
    assert ([first] + rest)[1..] == rest;
  }

  lemma JoinGrowFirst(a: string, rest: seq<string>, sep: string)
    requires rest != []
    ensures Join([a + rest[0]] + rest[1..], sep) == a + Join(rest, sep)
  {
    JoinCons(a + rest[0], rest[1..], sep);
    if |rest| > 1 {
      assert (a + rest[0]) + sep + Join(rest[1..], sep) == a + (rest[0] + sep + Join(rest[1..], sep));
    }
  }

  // Lines without newlines come back from a join.
  lemma {:induction false} SplitOfJoin(parts: seq<string>)
    requires parts != [] && forall i :: 0 <= i < |parts| ==> '\n' !in parts[i]
    ensures Split(Join(parts, "\n")) == parts
  {
    if |parts| == 1 {
      SplitWithoutNewline(parts[0]);
    } else {
      SplitOfJoin(parts[1..]);
      SplitAtNewline(parts[0], Join(parts[1..], "\n"));
      assert parts[0] + "\n" + Join(parts[1..], "\n") == parts[0] + ("\n" + Join(parts[1..], "\n"));
    }
  }

  lemma {:induction false} SplitWithoutNewline(s: string)
    requires '\n' !in s
    ensures Split(s) == [s]
  {
    if s != [] {
      SplitWithoutNewline(s[1..]);
      assert [s[0]] + s[1..] == s;
    }
  }

  lemma {:induction false} SplitAtNewline(a: string, b: string)
    requires '\n' !in a
    ensures Split(a + ("\n" + b)) == [a] + Split(b)
  {
    var s := a + ("\n" + b);
    if a == [] {
      assert s == "\n" + b && s[1..] == b;
    } else {
      assert s[1..] == a[1..] + ("\n" + b);
      SplitAtNewline(a[1..], b);
      assert [a[0]] + a[1..] == a;
    }
  }

  // ----- What follows the last slash -----

  // rsplit("/", 1)[-1], Path.name
  function AfterSlash(s: string): string {
    if s == [] || s[|s| - 1] == '/' then [] else AfterSlash(s[..|s| - 1]) + [s[|s| - 1]]
  }

  predicate IsName(s: string, name: string) {
    && |name| <= |s| && s[|s| - |name|..] == name && '/' !in name
    && (|name| < |s| ==> s[|s| - |name| - 1] == '/')
  }

  lemma {:induction false} NameIff(s: string, name: string)
    ensures IsName(s, name) <==> name == AfterSlash(s)
  {
    AfterSlashIsName(s);
    if IsName(s, name) {
      OneName(s, name, AfterSlash(s));
    }
  }

  lemma {:induction false} AfterSlashIsName(s: string)
    ensures IsName(s, AfterSlash(s))
  {
    if s != [] && s[|s| - 1] != '/' {
      var front, c := s[..|s| - 1], s[|s| - 1];
      assert AfterSlash(s) == AfterSlash(front) + [c] && s == front + [c];
      AfterSlashIsName(front);
      NameGrows(front, AfterSlash(front), c);
    }
  }

  lemma NameGrows(s: string, name: string, c: char)
    requires IsName(s, name) && c != '/'
    ensures IsName(s + [c], name + [c])
  {
    var n := |s| - |name|;
    assert (s + [c])[n..] == s[n..] + [c];
  }

  lemma SlashInLonger(s: string, a: string, b: string)
    requires IsName(s, a) && |a| < |b| <= |s| && s[|s| - |b|..] == b
    ensures '/' in b
  {
    assert b[|b| - |a| - 1] == s[|s| - |a| - 1];
  }

  lemma OneName(s: string, a: string, b: string)
    requires IsName(s, a) && IsName(s, b)
    ensures a == b
  {
    if |a| < |b| {
      SlashInLonger(s, a, b);
    } else if |b| < |a| {
      SlashInLonger(s, b, a);
    }
  }
}
