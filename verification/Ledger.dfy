// The three maintenance passes over the exports table.
module Ledger {
  // scripts/verify_exports.py:94-209, scripts/backfill_export_paths.py:93-178,
  // scripts/heal_exports_by_basename.py:56-117.

  import opened Wrappers
  import opened PyText
  import opened ExportRows

  datatype File = File(digest: Sha, size: nat)

  // The file system, unchanged while the passes run. `root` is the repository
  // root, `artifacts` the artifact root.
  datatype World = World(root: Path, artifacts: Path, files: map<Path, File>)

  function Resolve(w: World, p: Path): Path {
    ResolveAt(w.root, p)
  }

  // The way a healed path is stored: relative to the root if it lies under it.
  function Stored(w: World, p: Path): Path {
    var prefix := w.root + "/";
    if |p| > |prefix| && p[..|prefix|] == prefix then p[|prefix|..] else p
  }

  function Candidates(w: World, row: Row): seq<Path> {
    var name := AfterSlash(Resolve(w, row.path));
    [w.artifacts + "/" + row.document + "/" + name, w.artifacts + "/exports/" + row.document + "/" + name]
  }

  // The first candidate that exists.
  function FirstExisting(w: World, paths: seq<Path>): (p: Option<Path>)
    ensures p.Some? ==> p.value in w.files && p.value in paths
    ensures p.None? ==> forall q :: q in paths ==> q !in w.files
  {
    if paths == [] then None
    else if paths[0] in w.files then Some(paths[0])
    else FirstExisting(w, paths[1..])
  }

  // COALESCE(stale_reason, reason)
  function MarkStale(row: Row, reason: string): Row {
    if row.stale.Some? then row else row.(stale := Some(reason))
  }

  // The row stamped with a file's digest and size.
  function Stamped(row: Row, file: File, now: int): Row {
    row.(sha := Some(file.digest), bytes := Some(file.size), verifiedAt := Some(now))
  }

  // The row found to match.
  function Refreshed(row: Row, observed: Sha, now: int): Row {
    row.(sha := Some(observed), verifiedAt := Some(now))
  }

  // ----- The passes, row by row -----

  predicate Fixable(w: World, row: Row) {
    && row.succeeded && Resolve(w, row.path) !in w.files
    && FirstExisting(w, Candidates(w, row)).Some?
  }

  function Healed(w: World, row: Row): Row {
    if Fixable(w, row) then row.(path := Stored(w, FirstExisting(w, Candidates(w, row)).value)) else row
  }

  predicate NeedsHash(row: Row, recompute: bool) {
    && row.succeeded && !IsSentinel(row.path) && !IsStale(row)
    && (recompute || !(row.sha.Some? && row.sha.value != "" && row.bytes.Some? && row.verifiedAt.Some?))
  }

  function Backfilled(w: World, row: Row, recompute: bool, now: int): Row {
    if !NeedsHash(row, recompute) then row
    else
      var p := Resolve(w, row.path);
      if p !in w.files then MarkStale(row, "missing_at_backfill")
      else Stamped(row, w.files[p], now)
  }

  predicate NeedsCheck(row: Row, cutoff: int, hashNull: bool) {
    && row.succeeded && !IsSentinel(row.path) && !IsStale(row)
    && (row.sha.Some? || hashNull)
    && !(row.verifiedAt.Some? && row.verifiedAt.value > cutoff)
  }

  datatype Verdict = Skip | Match(observed: Sha) | Drift | Missing

  function Judge(w: World, row: Row, cutoff: int, hashNull: bool): Verdict {
    if !NeedsCheck(row, cutoff, hashNull) then Skip
    else
      var p := Resolve(w, row.path);
      if p !in w.files then Missing
      else if row.sha.None? || row.sha.value == w.files[p].digest then Match(w.files[p].digest)
      else Drift
  }

  function Verified(w: World, row: Row, cutoff: int, hashNull: bool, now: int): Row {
    match Judge(w, row, cutoff, hashNull)
    case Skip => row
    case Match(observed) => Refreshed(row, observed, now)
    case Drift => MarkStale(row, "content_drift")
    case Missing => MarkStale(row, "missing_at_verify")
  }

  // ----- The passes on the table -----

  class ExportsTable {
    var rows: map<nat, Row>

    constructor (rows: map<nat, Row>)
      ensures this.rows == rows
    {
      this.rows := rows;
    }

    // ----- heal_exports_by_basename.py -----

    method ScanHeal(w: World) returns (fixable: map<nat, Path>)
      ensures forall id :: id in fixable <==> id in rows && Fixable(w, rows[id])
      ensures forall id :: id in fixable ==> rows[id].(path := fixable[id]) == Healed(w, rows[id])
    {
      fixable := map[];
      var todo := rows.Keys;
      while todo != {}
        invariant todo <= rows.Keys
        invariant forall id :: id in fixable <==> id in rows && id !in todo && Fixable(w, rows[id])
        invariant forall id :: id in fixable ==> rows[id].(path := fixable[id]) == Healed(w, rows[id])
        decreases todo
      {
        var id :| id in todo;
        todo := todo - {id};
        var row := rows[id];
        if row.succeeded && Resolve(w, row.path) !in w.files {
          var healed := FirstExisting(w, Candidates(w, row));
          if healed.Some? {
            fixable := fixable[id := Stored(w, healed.value)];
          }
        }
      }
    }

    method ApplyHeal(fixable: map<nat, Path>)
      requires fixable.Keys <= rows.Keys
      modifies this
      ensures rows.Keys == old(rows).Keys
      ensures forall id :: id in rows ==>
        rows[id] == if id in fixable then old(rows)[id].(path := fixable[id]) else old(rows)[id]
    {
      ghost var before := rows;
      var todo := fixable.Keys;
      while todo != {}
        invariant todo <= fixable.Keys && rows.Keys == before.Keys
        invariant forall id :: id in rows ==>
          rows[id] == if id in fixable && id !in todo then before[id].(path := fixable[id]) else before[id]
        decreases todo
      {
        var id :| id in todo;
        todo := todo - {id};
        rows := rows[id := rows[id].(path := fixable[id])];
      }
    }

    method Heal(w: World)
      modifies this
      ensures rows == map id | id in old(rows) :: Healed(w, old(rows)[id])
    {
      var fixable := ScanHeal(w);
      ApplyHeal(fixable);
    }

    // ----- backfill_export_paths.py -----

    method ScanBackfill(w: World, recompute: bool) returns (computed: map<nat, File>, missing: set<nat>)
      ensures forall id :: id in missing <==>
        id in rows && NeedsHash(rows[id], recompute) && Resolve(w, rows[id].path) !in w.files
      ensures forall id :: id in computed <==>
        id in rows && NeedsHash(rows[id], recompute) && Resolve(w, rows[id].path) in w.files
      ensures forall id :: id in computed ==> computed[id] == w.files[Resolve(w, rows[id].path)]
    {
      computed, missing := map[], {};
      var todo := rows.Keys;
      while todo != {}
        invariant todo <= rows.Keys
        invariant forall id :: id in missing <==>
          id in rows && id !in todo && NeedsHash(rows[id], recompute) && Resolve(w, rows[id].path) !in w.files
        invariant forall id :: id in computed <==>
          id in rows && id !in todo && NeedsHash(rows[id], recompute) && Resolve(w, rows[id].path) in w.files
        invariant forall id :: id in computed ==> computed[id] == w.files[Resolve(w, rows[id].path)]
        decreases todo
      {
        var id :| id in todo;
        todo := todo - {id};
        var row := rows[id];
        if NeedsHash(row, recompute) {
          var p := Resolve(w, row.path);
          if p !in w.files {
            missing := missing + {id};
          } else {
            computed := computed[id := w.files[p]];
          }
        }
      }
    }

    method ApplyBackfill(computed: map<nat, File>, missing: set<nat>, now: int)
      requires computed.Keys + missing <= rows.Keys && computed.Keys !! missing
      modifies this
      ensures rows.Keys == old(rows).Keys
      ensures forall id :: id in rows ==>
        rows[id] == if id in computed then Stamped(old(rows)[id], computed[id], now)
                    else if id in missing then MarkStale(old(rows)[id], "missing_at_backfill")
                    else old(rows)[id]
    {
      ghost var before := rows;
      var todo := computed.Keys;
      while todo != {}
        invariant todo <= computed.Keys && rows.Keys == before.Keys
        invariant forall id :: id in rows ==>
          rows[id] == if id in computed && id !in todo then Stamped(before[id], computed[id], now) else before[id]
        decreases todo
      {
        var id :| id in todo;
        todo := todo - {id};
        rows := rows[id := Stamped(rows[id], computed[id], now)];
      }
      MarkAll(missing, "missing_at_backfill");
    }

    method Backfill(w: World, recompute: bool, now: int)
      modifies this
      ensures rows == map id | id in old(rows) :: Backfilled(w, old(rows)[id], recompute, now)
    {
      var computed, missing := ScanBackfill(w, recompute);
      ApplyBackfill(computed, missing, now);
    }

    method MarkAll(ids: set<nat>, reason: string)
      requires ids <= rows.Keys
      modifies this
      ensures rows.Keys == old(rows).Keys
      ensures forall id :: id in rows ==>
        rows[id] == if id in ids then MarkStale(old(rows)[id], reason) else old(rows)[id]
    {
      var todo := ids;
      ghost var before := rows;
      while todo != {}
        invariant todo <= ids && rows.Keys == before.Keys
        invariant forall id :: id in rows ==>
          rows[id] == if id in ids && id !in todo then MarkStale(before[id], reason) else before[id]
        decreases todo
      {
        var id :| id in todo;
        todo := todo - {id};
        rows := rows[id := MarkStale(rows[id], reason)];
      }
    }

    // ----- verify_exports.py -----

    method ScanVerify(w: World, cutoff: int, hashNull: bool)
      returns (matched: map<nat, Sha>, drifted: set<nat>, missing: set<nat>)
      ensures forall id :: id in matched <==> id in rows && Judge(w, rows[id], cutoff, hashNull).Match?
      ensures forall id :: id in matched ==> matched[id] == Judge(w, rows[id], cutoff, hashNull).observed
      ensures forall id :: id in drifted <==> id in rows && Judge(w, rows[id], cutoff, hashNull).Drift?
      ensures forall id :: id in missing <==> id in rows && Judge(w, rows[id], cutoff, hashNull).Missing?
    {
      matched, drifted, missing := map[], {}, {};
      var todo := rows.Keys;
      while todo != {}
        invariant todo <= rows.Keys
        invariant forall id :: id in matched <==> id in rows && id !in todo && Judge(w, rows[id], cutoff, hashNull).Match?
        invariant forall id :: id in matched ==> matched[id] == Judge(w, rows[id], cutoff, hashNull).observed
        invariant forall id :: id in drifted <==> id in rows && id !in todo && Judge(w, rows[id], cutoff, hashNull).Drift?
        invariant forall id :: id in missing <==> id in rows && id !in todo && Judge(w, rows[id], cutoff, hashNull).Missing?
        decreases todo
      {
        var id :| id in todo;
        todo := todo - {id};
        var row := rows[id];
        if !NeedsCheck(row, cutoff, hashNull) {
          continue;
        }
        var p := Resolve(w, row.path);
        if p !in w.files {
          missing := missing + {id};
        } else if row.sha.None? || row.sha.value == w.files[p].digest {
          matched := matched[id := w.files[p].digest];
        } else {
          drifted := drifted + {id};
        }
      }
    }

    method RefreshAll(matched: map<nat, Sha>, now: int)
      requires matched.Keys <= rows.Keys
      requires forall id :: id in matched ==> rows[id].sha.None? || rows[id].sha.value == matched[id]
      modifies this
      ensures rows.Keys == old(rows).Keys
      ensures forall id :: id in rows ==>
        rows[id] == if id in matched then Refreshed(old(rows)[id], matched[id], now) else old(rows)[id]
    {
      ghost var before := rows;
      var todo := matched.Keys;
      while todo != {}
        invariant todo <= matched.Keys && rows.Keys == before.Keys
        invariant forall id :: id in rows ==>
          rows[id] == if id in matched && id !in todo then Refreshed(before[id], matched[id], now) else before[id]
        decreases todo
      {
        var id :| id in todo;
        todo := todo - {id};
        if rows[id].sha.None? {
          rows := rows[id := rows[id].(sha := Some(matched[id]), verifiedAt := Some(now))];
        } else {
          rows := rows[id := rows[id].(verifiedAt := Some(now))];
        }
      }
    }

    method ApplyVerify(matched: map<nat, Sha>, drifted: set<nat>, missing: set<nat>, now: int)
      requires matched.Keys + drifted + missing <= rows.Keys
      requires matched.Keys !! drifted !! missing
      requires forall id :: id in matched ==> rows[id].sha.None? || rows[id].sha.value == matched[id]
      modifies this
      ensures rows.Keys == old(rows).Keys
      ensures forall id :: id in rows ==>
        rows[id] == if id in matched then Refreshed(old(rows)[id], matched[id], now)
                    else if id in drifted then MarkStale(old(rows)[id], "content_drift")
                    else if id in missing then MarkStale(old(rows)[id], "missing_at_verify")
                    else old(rows)[id]
    {
      RefreshAll(matched, now);
      MarkAll(drifted, "content_drift");
      MarkAll(missing, "missing_at_verify");
    }

    method Verify(w: World, cutoff: int, hashNull: bool, now: int)
      modifies this
      ensures rows == map id | id in old(rows) :: Verified(w, old(rows)[id], cutoff, hashNull, now)
    {
      var matched, drifted, missing := ScanVerify(w, cutoff, hashNull);
      ApplyVerify(matched, drifted, missing, now);
    }
  }
}
