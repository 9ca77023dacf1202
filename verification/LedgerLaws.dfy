// What the maintenance passes promise together, over any rows and an unchanged
// file system.
module LedgerLaws {
  import opened Wrappers
  import opened PyText
  import opened ExportRows
  import opened Ledger

  // A serviceable row's file exists and has the recorded digest.
  predicate Sound(w: World, row: Row) {
    Serviceable(row) ==>
      Resolve(w, row.path) in w.files && w.files[Resolve(w, row.path)].digest == row.sha.value
  }

  ghost predicate AllSound(w: World, rows: map<nat, Row>) {
    forall id :: id in rows ==> Sound(w, rows[id])
  }

  // Paths without empty components, under an absolute root.
  predicate Normal(w: World, p: Path) {
    IsAbsolute(p) && forall i :: 0 <= i < |p| - 1 ==> !(p[i] == '/' && p[i + 1] == '/')
  }

  ghost predicate NormalWorld(w: World) {
    IsAbsolute(w.root) && forall p :: p in w.files ==> Normal(w, p)
  }

  // A healed path means the same file however it is stored, and is never the sentinel.
  lemma StoredResolves(w: World, p: Path)
    requires IsAbsolute(w.root) && Normal(w, p)
    ensures Resolve(w, Stored(w, p)) == p
    ensures !IsSentinel(Stored(w, p))
  {
    var prefix := w.root + "/";
    var s := Stored(w, p);
    if |p| > |prefix| && p[..|prefix|] == prefix {
      assert p == prefix + p[|prefix|..];
      assert p[|prefix| - 1] == '/' && p[|prefix|] == s[0];
      assert |s| > 15 ==> s[14] == p[|prefix| + 14] && s[15] == p[|prefix| + 15];
      assert w.root + "/" + s == p;
    }
    SentinelHasDoubleSlash(s);
  }

  lemma SentinelHasDoubleSlash(s: Path)
    ensures IsSentinel(s) ==> |s| > 15 && s[14] == '/' && s[15] == '/'
  {
    assert SENTINEL[14] == '/' && SENTINEL[15] == '/';
    assert |s| >= 16 ==> s[..16][14] == s[14] && s[..16][15] == s[15];
  }

  // ----- One pass -----

  lemma BackfillKeepsSound(w: World, row: Row, recompute: bool, now: int)
    requires Sound(w, row)
    ensures Sound(w, Backfilled(w, row, recompute, now))
  {
  }

  lemma VerifyKeepsSound(w: World, row: Row, cutoff: int, hashNull: bool, now: int)
    requires Sound(w, row)
    ensures Sound(w, Verified(w, row, cutoff, hashNull, now))
  {
  }

  // The one row healing can spoil: the unrecoverable sentinel on a row that is
  // stamped and not stale, whose basename is found with other bytes.
  predicate Spoiled(w: World, row: Row) {
    && IsSentinel(row.path) && row.sha.Some? && row.stale.None? && Fixable(w, row)
    && w.files[FirstExisting(w, Candidates(w, row)).value].digest != row.sha.value
  }

  lemma HealKeepsSoundIff(w: World, row: Row)
    requires NormalWorld(w) && Sound(w, row)
    ensures Sound(w, Healed(w, row)) <==> !Spoiled(w, row)
  {
    if Fixable(w, row) {
      StoredResolves(w, FirstExisting(w, Candidates(w, row)).value);
    }
  }

  // A sentinel row that healing turns into a wrong download. No script leaves a
  // sentinel row that is stamped and not stale; see StaleSentinelsStaySound.
  lemma HealCanSpoil(w: World, row: Row)
    requires w == World("/r", "/a", map["/a/d/x" := File("new", 1)])
    requires row == Row(true, "d", "unrecoverable://x", Some("old"), Some(1), Some(0), None)
    ensures Sound(w, row) && Spoiled(w, row) && !Sound(w, Healed(w, row))
  {
    SpoiledCandidate(w, row);
    assert row.path[..16] == SENTINEL;
    assert Spoiled(w, row);
    HealKeepsSoundIff(w, row);
  }

  lemma FirstCandidateFound(w: World, row: Row, name: Path)
    requires row.succeeded && Resolve(w, row.path) !in w.files && AfterSlash(Resolve(w, row.path)) == name
    requires w.artifacts + "/" + row.document + "/" + name in w.files
    ensures Fixable(w, row)
    ensures FirstExisting(w, Candidates(w, row)) == Some(w.artifacts + "/" + row.document + "/" + name)
  {
  }

  lemma ExampleWorld(w: World)
    requires w == World("/r", "/a", map["/a/d/x" := File("new", 1)])
    ensures NormalWorld(w)
  {
    assert Normal(w, "/a/d/x");
  }

  lemma SpoiledCandidate(w: World, row: Row)
    requires w == World("/r", "/a", map["/a/d/x" := File("new", 1)])
    requires row.succeeded && row.document == "d" && row.path == "unrecoverable://x"
    ensures Fixable(w, row) && FirstExisting(w, Candidates(w, row)) == Some("/a/d/x")
    ensures NormalWorld(w)
  {
    ExampleWorld(w);
    ExampleName();
    ExamplePaths();
    FirstCandidateFound(w, row, "x");
  }

  lemma ExamplePaths()
    ensures ResolveAt("/r", "unrecoverable://x") == "/r/unrecoverable://x"
    ensures "/a" + "/" + "d" + "/" + "x" == "/a/d/x"
    ensures |"/r/unrecoverable://x"| != |"/a/d/x"|
  {
    assert "unrecoverable://x"[0] == 'u';
    assert "/r" + "/" + "unrecoverable://x" == "/r/unrecoverable://x";
  }

  lemma ExampleName()
    ensures AfterSlash("/r/unrecoverable://x") == "x"
  {
    NameIff("/r/unrecoverable://x", "x");
  }

  // ----- Any sequence of passes -----

  datatype Pass =
    | HealPass
    | BackfillPass(recompute: bool, now: int)
    | VerifyPass(cutoff: int, hashNull: bool, now: int)

  function After(w: World, row: Row, pass: Pass): Row {
    match pass
    case HealPass => Healed(w, row)
    case BackfillPass(recompute, now) => Backfilled(w, row, recompute, now)
    case VerifyPass(cutoff, hashNull, now) => Verified(w, row, cutoff, hashNull, now)
  }

  function AfterAll(w: World, row: Row, passes: seq<Pass>): Row
    decreases |passes|
  {
    if passes == [] then row else AfterAll(w, After(w, row, passes[0]), passes[1..])
  }

  lemma PassKeepsUnspoiled(w: World, row: Row, pass: Pass)
    requires NormalWorld(w) && Sound(w, row) && !Spoiled(w, row)
    ensures Sound(w, After(w, row, pass)) && !Spoiled(w, After(w, row, pass))
  {
    match pass
    case HealPass =>
      HealKeepsSoundIff(w, row);
      if Fixable(w, row) {
        StoredResolves(w, FirstExisting(w, Candidates(w, row)).value);
      }
    case BackfillPass(recompute, now) => BackfillKeepsSound(w, row, recompute, now);
    case VerifyPass(cutoff, hashNull, now) => VerifyKeepsSound(w, row, cutoff, hashNull, now);
  }

  // Whatever passes run in whatever order, a serviceable row keeps matching its
  // file, unless a spoiled sentinel row was there to begin with.
  lemma {:induction false} PassesKeepSound(w: World, row: Row, passes: seq<Pass>)
    requires NormalWorld(w) && Sound(w, row) && !Spoiled(w, row)
    ensures Sound(w, AfterAll(w, row, passes))
    decreases |passes|
  {
    if passes != [] {
      PassKeepsUnspoiled(w, row, passes[0]);
      PassesKeepSound(w, After(w, row, passes[0]), passes[1..]);
    }
  }

  // Sentinel rows are stale: the one place that writes the sentinel sees to it
  // (alembic/versions/20260422_0028_exports_integrity_fields_and_path_check.py:66-95).
  predicate StaleSentinel(row: Row) {
    IsSentinel(row.path) ==> row.stale.Some?
  }

  // Then no row is ever spoiled, and serviceable rows keep matching their files.
  lemma {:induction false} StaleSentinelsStaySound(w: World, row: Row, passes: seq<Pass>)
    requires NormalWorld(w) && Sound(w, row) && StaleSentinel(row)
    ensures Sound(w, AfterAll(w, row, passes)) && StaleSentinel(AfterAll(w, row, passes))
    decreases |passes|
  {
    if passes != [] {
      PassKeepsUnspoiled(w, row, passes[0]);
      PassKeepsStaleSentinel(w, row, passes[0]);
      StaleSentinelsStaySound(w, After(w, row, passes[0]), passes[1..]);
    }
  }

  lemma PassKeepsStaleSentinel(w: World, row: Row, pass: Pass)
    requires NormalWorld(w) && StaleSentinel(row)
    ensures StaleSentinel(After(w, row, pass))
  {
    if pass.HealPass? && Fixable(w, row) {
      StoredResolves(w, FirstExisting(w, Candidates(w, row)).value);
    }
  }

  // A pass makes a row serviceable only by giving it a digest.
  lemma PassRevivesNothing(w: World, row: Row, pass: Pass)
    requires StaleSentinel(row) && After(w, row, pass).sha == row.sha && Serviceable(After(w, row, pass))
    ensures Serviceable(row)
  {
  }

  // A stale_reason, once set, is never altered, and an unstale row is only ever
  // marked for a file that is missing or has drifted.
  lemma {:induction false} StaleReasonsStick(w: World, row: Row, passes: seq<Pass>)
    ensures row.stale.Some? ==> AfterAll(w, row, passes).stale == row.stale
    decreases |passes|
  {
    if passes != [] {
      StaleReasonsStick(w, After(w, row, passes[0]), passes[1..]);
    }
  }

  // ----- Second runs -----

  lemma HealIsIdempotent(w: World, row: Row)
    requires NormalWorld(w)
    ensures !Fixable(w, Healed(w, row))
    ensures Healed(w, Healed(w, row)) == Healed(w, row)
  {
    if Fixable(w, row) {
      StoredResolves(w, FirstExisting(w, Candidates(w, row)).value);
    }
  }

  // The pass leaves a row that it would look at again: its file has the empty string
  // for a digest, or is missing and the row's stale_reason is the empty string.
  predicate LooksAgain(w: World, row: Row, recompute: bool) {
    var p := Resolve(w, row.path);
    if p in w.files then NeedsHash(row, recompute) && w.files[p].digest == ""
    else NeedsHash(row, false) && row.stale == Some("")
  }

  // A second backfill has nothing left to hash or mark, those rows aside; and it
  // changes nothing, stamps of files with an empty digest aside.
  lemma BackfillIsIdempotentIff(w: World, row: Row, recompute: bool, now: int, now': int)
    ensures var after := Backfilled(w, row, recompute, now);
            && (NeedsHash(after, false) <==> LooksAgain(w, row, recompute))
            && (Backfilled(w, after, false, now') == after <==>
                  !LooksAgain(w, row, recompute) || Resolve(w, row.path) !in w.files || now == now')
  {
  }

  // A second verification finds nothing due exactly as long as the stamps of the
  // first one are inside the time-to-live.
  lemma VerifyAgainIff(w: World, row: Row, cutoff: int, hashNull: bool, now: int, cutoff': int)
    requires row.stale != Some("") && cutoff <= cutoff' && NeedsCheck(row, cutoff, hashNull)
    ensures NeedsCheck(Verified(w, row, cutoff, hashNull, now), cutoff', hashNull)
        <==> Judge(w, row, cutoff, hashNull).Match? && now <= cutoff'
  {
  }

  // ----- What the passes establish from any rows whatever -----

  // A verification leaves every row it looked at sound, drifted and vanished files included.
  lemma VerifyEstablishes(w: World, row: Row, cutoff: int, hashNull: bool, now: int)
    requires NeedsCheck(row, cutoff, hashNull)
    ensures Sound(w, Verified(w, row, cutoff, hashNull, now))
    ensures var after := Verified(w, row, cutoff, hashNull, now);
            Serviceable(after) <==> row.stale.None? && Judge(w, row, cutoff, hashNull).Match?
  {
  }

  // A recomputing backfill makes every row it may touch sound and stamped, or stale.
  lemma RecomputeEstablishes(w: World, row: Row, now: int)
    requires row.succeeded && !IsSentinel(row.path)
    ensures var after := Backfilled(w, row, true, now);
            && Sound(w, after)
            && (after.stale.Some? || (after.sha.Some? && after.bytes.Some? && after.verifiedAt == Some(now)))
  {
  }

  // ----- On the table -----

  // Heal, backfill and verify in the operator's order, on a table whose rows match their files.
  method Maintain(t: ExportsTable, w: World, cutoff: int, now: int)
    requires NormalWorld(w) && AllSound(w, t.rows)
    requires forall id :: id in t.rows ==> !Spoiled(w, t.rows[id])
    modifies t
    ensures AllSound(w, t.rows) && t.rows.Keys == old(t.rows).Keys
    ensures forall id :: id in t.rows ==>
      t.rows[id] == AfterAll(w, old(t.rows)[id], [HealPass, BackfillPass(false, now), VerifyPass(cutoff, false, now)])
  {
    ghost var before := t.rows;
    t.Heal(w);
    t.Backfill(w, false, now);
    t.Verify(w, cutoff, false, now);
    ghost var passes := [HealPass, BackfillPass(false, now), VerifyPass(cutoff, false, now)];
    forall id | id in before ensures t.rows[id] == AfterAll(w, before[id], passes) {
      ThreePasses(w, before[id], passes[0], passes[1], passes[2]);
    }
    forall id | id in before ensures Sound(w, AfterAll(w, before[id], passes)) {
      PassesKeepSound(w, before[id], passes);
    }
  }

  lemma ThreePasses(w: World, row: Row, a: Pass, b: Pass, c: Pass)
    ensures AfterAll(w, row, [a, b, c]) == After(w, After(w, After(w, row, a), b), c)
  {
    assert [a, b, c][1..] == [b, c] && [b, c][1..] == [c] && [c][1..] == [];
    assert AfterAll(w, After(w, After(w, row, a), b), [c]) == After(w, After(w, After(w, row, a), b), c);
  }
}
