// What each maintenance pass does to a row, column by column.
module LedgerRules {
  // scripts/verify_exports.py:94-209, scripts/backfill_export_paths.py:93-178,
  // scripts/heal_exports_by_basename.py:56-117.

  import opened Wrappers
  import opened ExportRows
  import opened PyText
  import opened Ledger

  // ----- Verification -----

  // Only succeeded rows with a usable path and no stale_reason are looked at, if they
  // have a digest or rows without one are to be hashed, and were not verified lately.
  predicate Due(row: Row, cutoff: int, hashNull: bool) {
    && row.succeeded && (row.stale.None? || row.stale.value == "")
    && (row.sha.Some? || hashNull)
    && (row.verifiedAt.None? || row.verifiedAt.value <= cutoff)
    && !(|row.path| >= 16 && row.path[..16] == "unrecoverable://")
  }

  // A row that is due is marked for a vanished file or for other bytes, or stamped.
  lemma VerifyOutcome(w: World, row: Row, cutoff: int, hashNull: bool, now: int)
    requires Due(row, cutoff, hashNull) && row.stale.None?
    ensures var after, p := Verified(w, row, cutoff, hashNull, now), Resolve(w, row.path);
            && (after.stale == Some("missing_at_verify") <==> p !in w.files)
            && (after.stale == Some("content_drift") <==>
                  p in w.files && row.sha.Some? && row.sha.value != w.files[p].digest)
            && (after.stale.None? <==> p in w.files && (row.sha.None? || row.sha.value == w.files[p].digest))
            && after == if after.stale.None? then row.(sha := Some(w.files[p].digest), verifiedAt := Some(now))
                        else row.(stale := after.stale)
  {
    SentinelIff(row.path);
    assert "missing_at_verify"[0] != "content_drift"[0];
  }

  // Any other row stays as it is; so does an empty stale_reason.
  lemma VerifyLeavesAlone(w: World, row: Row, cutoff: int, hashNull: bool, now: int)
    ensures !Due(row, cutoff, hashNull) ==> Verified(w, row, cutoff, hashNull, now) == row
    ensures row.stale.Some? ==> Verified(w, row, cutoff, hashNull, now).stale == row.stale
  {
    SentinelIff(row.path);
  }

  lemma SentinelIff(p: Path)
    ensures IsSentinel(p) <==> |p| >= 16 && p[..16] == "unrecoverable://"
  {
    assert |SENTINEL| == 16;
  }

  // ----- Backfill -----

  predicate Wanting(row: Row, recompute: bool) {
    && row.succeeded && (row.stale.None? || row.stale.value == "")
    && !(|row.path| >= 16 && row.path[..16] == "unrecoverable://")
    && (recompute || row.sha.None? || row.sha.value == "" || row.bytes.None? || row.verifiedAt.None?)
  }

  // A row that wants a digest is stamped with its file's digest and size, or marked.
  lemma BackfillOutcome(w: World, row: Row, recompute: bool, now: int)
    ensures var after, p := Backfilled(w, row, recompute, now), Resolve(w, row.path);
            after ==
              if !Wanting(row, recompute) then row
              else if p in w.files then
                row.(sha := Some(w.files[p].digest), bytes := Some(w.files[p].size), verifiedAt := Some(now))
              else if row.stale.None? then row.(stale := Some("missing_at_backfill"))
              else row
  {
    SentinelIff(row.path);
  }

  // ----- Healing -----

  // The two places where a lost file is looked for, in this order.
  function InDocument(w: World, row: Row, name: Path): Path {
    w.artifacts + "/" + row.document + "/" + name
  }

  function InExports(w: World, row: Row, name: Path): Path {
    w.artifacts + "/exports/" + row.document + "/" + name
  }

  predicate Under(w: World, p: Path, r: Path) {
    r != "" && p == w.root + "/" + r
  }

  // The form a path is stored in: without the root and its slash, if it is under it.
  ghost predicate IsStored(w: World, p: Path, s: Path) {
    if exists r: Path :: Under(w, p, r) then Under(w, p, s) else s == p
  }

  lemma UnderIff(w: World, p: Path, r: Path)
    ensures var prefix := w.root + "/";
            Under(w, p, r) <==> |p| > |prefix| && p[..|prefix|] == prefix && p[|prefix|..] == r
  {
    var prefix := w.root + "/";
    if r != "" && p == prefix + r {
      assert p[..|prefix|] == prefix && p[|prefix|..] == r;
    }
    if |p| > |prefix| && p[..|prefix|] == prefix {
      assert p == prefix + p[|prefix|..];
    }
  }

  lemma StoredIff(w: World, p: Path, s: Path)
    ensures IsStored(w, p, s) <==> s == Stored(w, p)
  {
    forall r: Path
      ensures var prefix := w.root + "/";
              Under(w, p, r) <==> |p| > |prefix| && p[..|prefix|] == prefix && p[|prefix|..] == r
    {
      UnderIff(w, p, r);
    }
    assert Under(w, p, Stored(w, p)) || forall r: Path :: !Under(w, p, r);
  }

  // A succeeded row whose file is gone gets the first place where a file of its name
  // is; any other row stays as it is.
  lemma HealOutcome(w: World, row: Row, name: Path)
    requires IsName(Resolve(w, row.path), name)
    ensures var after := Healed(w, row);
            var first, second := InDocument(w, row, name), InExports(w, row, name);
            if row.succeeded && Resolve(w, row.path) !in w.files && (first in w.files || second in w.files)
            then after == row.(path := after.path) && IsStored(w, if first in w.files then first else second, after.path)
            else after == row
  {
    NameIff(Resolve(w, row.path), name);
    var first, second := InDocument(w, row, name), InExports(w, row, name);
    assert Candidates(w, row) == [first, second];
    assert [first, second][1..] == [second] && [second][1..] == [];
    StoredIff(w, if first in w.files then first else second, Healed(w, row).path);
  }
}
