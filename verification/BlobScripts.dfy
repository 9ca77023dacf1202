// The reaper's and the materialiser's own loops over the blob tree.
module BlobScripts {
  // scripts/reap_blob_store.py:99-182, scripts/materialize_blob_store.py:97-183.

  import opened Wrappers
  import opened ExportRows

  // A file in the tree; `digest` stands for its bytes.
  datatype Blob = Blob(digest: Sha, size: nat, mtime: int, inode: nat)

  // ----- Bytes on disk -----

  ghost function Bytes(blobs: map<Sha, Blob>): nat {
    if blobs == map[] then 0
    else
      var k :| k in blobs;
      blobs[k].size + Bytes(blobs - {k})
  }

  // The sum does not depend on the order in which blobs are taken away.
  lemma {:induction false} BytesWithout(blobs: map<Sha, Blob>, k: Sha)
    requires k in blobs
    ensures Bytes(blobs) == blobs[k].size + Bytes(blobs - {k})
    decreases |blobs|
  {
    var j :| j in blobs && Bytes(blobs) == blobs[j].size + Bytes(blobs - {j});
    if j != k {
      BytesWithout(blobs - {j}, k);
      BytesWithout(blobs - {k}, j);
      assert blobs - {j} - {k} == blobs - {k} - {j};
    }
  }

  // ----- reap_blob_store.py -----

  predicate Referenced(rows: seq<Row>, versions: set<Sha>, sha: Sha) {
    (exists i :: 0 <= i < |rows| && Serviceable(rows[i]) && rows[i].sha == Some(sha)) || sha in versions
  }

  // An orphan old enough to go.
  predicate Reapable(blob: Blob, now: int, minAge: nat) {
    now - blob.mtime >= minAge
  }

  method ReferencedShas(rows: seq<Row>, versions: set<Sha>) returns (shas: set<Sha>)
    ensures forall sha :: sha in shas <==> sha != "" && Referenced(rows, versions, sha)
  {
    shas := versions - {""};
    for i := 0 to |rows|
      invariant forall sha :: sha in shas <==> sha != "" && Referenced(rows[..i], versions, sha)
    {
      assert rows[..i + 1] == rows[..i] + [rows[i]];
      if Serviceable(rows[i]) && rows[i].sha.value != "" {
        shas := shas + {rows[i].sha.value};
      }
      ReferencedStep(rows, versions, i);
    }
    assert rows[..|rows|] == rows;
  }

  lemma ReferencedStep(rows: seq<Row>, versions: set<Sha>, i: nat)
    requires i < |rows|
    ensures forall sha :: Referenced(rows[..i + 1], versions, sha) <==>
              Referenced(rows[..i], versions, sha) || (Serviceable(rows[i]) && rows[i].sha == Some(sha))
  {
    forall sha ensures Referenced(rows[..i + 1], versions, sha) <==>
        Referenced(rows[..i], versions, sha) || (Serviceable(rows[i]) && rows[i].sha == Some(sha))
    {
      if Referenced(rows[..i], versions, sha) && sha !in versions {
        var k :| 0 <= k < i && Serviceable(rows[..i][k]) && rows[..i][k].sha == Some(sha);
        assert rows[..i + 1][k] == rows[..i][k];
      }
      if Serviceable(rows[i]) && rows[i].sha == Some(sha) {
        assert rows[..i + 1][i] == rows[i];
      }
    }
  }

  // Column by column: a blob stays exactly if it is retained history, younger than the
  // minimum age, or the recorded digest of a succeeded row that is not stale and has a
  // usable path.
  lemma StaysIff(rows: seq<Row>, versions: set<Sha>, sha: Sha, blob: Blob, now: int, minAge: nat)
    ensures Referenced(rows, versions, sha) || !Reapable(blob, now, minAge) <==>
      || sha in versions || now < blob.mtime + minAge
      || exists i :: 0 <= i < |rows| && rows[i].succeeded && rows[i].sha == Some(sha) && rows[i].stale.None?
           && !(|rows[i].path| >= 16 && rows[i].path[..16] == "unrecoverable://")
  {
    forall p: Path ensures IsSentinel(p) <==> |p| >= 16 && p[..16] == "unrecoverable://" {
      SentinelIs(p);
    }
  }

  // ----- materialize_blob_store.py -----

  datatype Kind = Linked | Copied | AlreadyPresent | SameInode

  // The row's file is there and its bytes are the recorded ones.
  predicate Materialisable(root: Path, sources: map<Path, Blob>, row: Row) {
    && row.succeeded && !IsStale(row) && !IsSentinel(row.path)
    && row.sha.Some? && row.sha.value != ""
    && ResolveAt(root, row.path) in sources && sources[ResolveAt(root, row.path)].digest == row.sha.value
  }

  ghost function Wanted(root: Path, sources: map<Path, Blob>, rows: seq<Row>): set<Sha> {
    set i | 0 <= i < |rows| && Materialisable(root, sources, rows[i]) :: rows[i].sha.value
  }

  lemma WantedStep(root: Path, sources: map<Path, Blob>, rows: seq<Row>, i: nat)
    requires i < |rows|
    ensures Wanted(root, sources, rows[..i + 1])
         == Wanted(root, sources, rows[..i])
            + if Materialisable(root, sources, rows[i]) then {rows[i].sha.value} else {}
  {
    var a, b := rows[..i], rows[..i + 1];
    assert b[i] == rows[i];
    assert forall k :: 0 <= k < i ==> a[k] == b[k];
    forall sha | sha in Wanted(root, sources, a) ensures sha in Wanted(root, sources, b) {
      var k :| 0 <= k < |a| && Materialisable(root, sources, a[k]) && a[k].sha.value == sha;
      assert Materialisable(root, sources, b[k]) && b[k].sha.value == sha;
    }
  }

  // ----- What becomes of a row -----

  datatype Fate = Passed | Unrecoverable | WithoutDigest | Vanished | Altered | Filable

  // Only rows that have all of this are looked at on disk.
  predicate HasDigest(row: Row) {
    && row.succeeded && (row.stale.None? || row.stale.value == "")
    && !(|row.path| >= 16 && row.path[..16] == "unrecoverable://")
    && row.sha.Some? && row.sha.value != ""
  }

  predicate HasFate(root: Path, sources: map<Path, Blob>, row: Row, fate: Fate) {
    var p := if row.path != "" && row.path[0] == '/' then row.path else root + "/" + row.path;
    match fate
    case Passed => !row.succeeded
    case Unrecoverable =>
      row.succeeded && ((row.stale.Some? && row.stale.value != "") || (|row.path| >= 16 && row.path[..16] == "unrecoverable://"))
    case WithoutDigest =>
      && row.succeeded && (row.stale.None? || row.stale.value == "")
      && !(|row.path| >= 16 && row.path[..16] == "unrecoverable://")
      && (row.sha.None? || row.sha.value == "")
    case Vanished => HasDigest(row) && p !in sources
    case Altered => HasDigest(row) && p in sources && sources[p].digest != row.sha.value
    case Filable => HasDigest(row) && p in sources && sources[p].digest == row.sha.value
  }

  lemma SentinelIs(p: Path)
    ensures IsSentinel(p) <==> |p| >= 16 && p[..16] == "unrecoverable://"
  {
    assert |SENTINEL| == 16;
  }

  // The tests in the order of the script.
  function FateOf(root: Path, sources: map<Path, Blob>, row: Row): Fate {
    if !row.succeeded then Passed
    else if IsStale(row) || IsSentinel(row.path) then Unrecoverable
    else if row.sha.None? || row.sha.value == "" then WithoutDigest
    else if ResolveAt(root, row.path) !in sources then Vanished
    else if sources[ResolveAt(root, row.path)].digest != row.sha.value then Altered
    else Filable
  }

  // Every row has exactly one fate, and only the filable ones call for a blob.
  lemma OneFate(root: Path, sources: map<Path, Blob>, row: Row)
    ensures forall fate: Fate :: HasFate(root, sources, row, fate) <==> fate == FateOf(root, sources, row)
    ensures HasFate(root, sources, row, Filable) <==> Materialisable(root, sources, row)
  {
    SentinelIs(row.path);
  }

  function Tally(root: Path, sources: map<Path, Blob>, rows: seq<Row>, fate: Fate): nat {
    if rows == [] then 0
    else
      Tally(root, sources, rows[..|rows| - 1], fate)
        + if HasFate(root, sources, rows[|rows| - 1], fate) then 1 else 0
  }

  // The report counts every row under its fate.
  predicate Accounted(root: Path, sources: map<Path, Blob>, rows: seq<Row>,
                      filed: nat, mismatches: nat, missing: nat, noSha: nat, unrecoverable: nat) {
    && filed == Tally(root, sources, rows, Filable)
    && mismatches == Tally(root, sources, rows, Altered)
    && missing == Tally(root, sources, rows, Vanished)
    && noSha == Tally(root, sources, rows, WithoutDigest)
    && unrecoverable == Tally(root, sources, rows, Unrecoverable)
  }

  lemma AccountStep(root: Path, sources: map<Path, Blob>, rows: seq<Row>, i: nat,
                    filed: nat, mismatches: nat, missing: nat, noSha: nat, unrecoverable: nat)
    requires i < |rows| && Accounted(root, sources, rows[..i], filed, mismatches, missing, noSha, unrecoverable)
    ensures var fate := FateOf(root, sources, rows[i]);
            Accounted(root, sources, rows[..i + 1],
              if fate == Filable then filed + 1 else filed,
              if fate == Altered then mismatches + 1 else mismatches,
              if fate == Vanished then missing + 1 else missing,
              if fate == WithoutDigest then noSha + 1 else noSha,
              if fate == Unrecoverable then unrecoverable + 1 else unrecoverable)
  {
    OneFate(root, sources, rows[i]);
    assert rows[..i + 1][..i] == rows[..i];
  }

  predicate IsNew(kind: Kind) {
    kind.Linked? || kind.Copied?
  }

  // Actions that made a blob.
  function Made(kinds: seq<Kind>): nat {
    if kinds == [] then 0 else Made(kinds[..|kinds| - 1]) + if IsNew(kinds[|kinds| - 1]) then 1 else 0
  }

  // They are as many as the tree grew by, all linked or all copied.
  predicate Grew(kinds: seq<Kind>, grown: nat, crossDevice: bool) {
    Made(kinds) == grown && forall k :: k in kinds && IsNew(k) ==> (k.Copied? <==> crossDevice)
  }

  // The blobs, and the next free inode.
  datatype Tree = Tree(blobs: map<Sha, Blob>, nextInode: nat)

  // A link shares the source's inode and modification time, a copy gets new ones.
  function Filed(t: Tree, source: Blob, sha: Sha, crossDevice: bool, now: int): Tree {
    if sha in t.blobs then t
    else if crossDevice then
      Tree(t.blobs[sha := Blob(source.digest, source.size, now, t.nextInode)], t.nextInode + 1)
    else Tree(t.blobs[sha := source], t.nextInode)
  }

  function Filled(t: Tree, root: Path, sources: map<Path, Blob>, rows: seq<Row>, crossDevice: bool, now: int): Tree {
    if rows == [] then t
    else
      var before, row := Filled(t, root, sources, rows[..|rows| - 1], crossDevice, now), rows[|rows| - 1];
      if Materialisable(root, sources, row)
      then Filed(before, sources[ResolveAt(root, row.path)], row.sha.value, crossDevice, now) else before
  }

  lemma FilledStep(t: Tree, root: Path, sources: map<Path, Blob>, rows: seq<Row>, crossDevice: bool, now: int, i: nat)
    requires i < |rows|
    ensures var before, after := Filled(t, root, sources, rows[..i], crossDevice, now), Filled(t, root, sources, rows[..i + 1], crossDevice, now);
            var fate, p := FateOf(root, sources, rows[i]), ResolveAt(root, rows[i].path);
            && (fate != Filable ==> after == before)
            && (fate == Filable ==> after == Filed(before, sources[p], rows[i].sha.value, crossDevice, now))
  {
    OneFate(root, sources, rows[i]);
    assert rows[..i + 1][..i] == rows[..i];
  }

  // The tree gains exactly the blobs that the rows call for, keeps what it had,
  // and stays addressed by content.
  lemma {:induction false} FilledGains(t: Tree, root: Path, sources: map<Path, Blob>, rows: seq<Row>, crossDevice: bool, now: int)
    ensures var after := Filled(t, root, sources, rows, crossDevice, now);
            && after.blobs.Keys == t.blobs.Keys + Wanted(root, sources, rows)
            && (forall sha :: sha in t.blobs ==> after.blobs[sha] == t.blobs[sha])
            && ((forall sha :: sha in t.blobs ==> t.blobs[sha].digest == sha) ==>
                  forall sha :: sha in after.blobs ==> after.blobs[sha].digest == sha)
  {
    if rows != [] {
      FilledGains(t, root, sources, rows[..|rows| - 1], crossDevice, now);
      WantedStep(root, sources, rows, |rows| - 1);
      assert rows[..|rows|] == rows;
    }
  }

  lemma {:induction false} NothingToFile(t: Tree, root: Path, sources: map<Path, Blob>, rows: seq<Row>, crossDevice: bool, now: int)
    requires Wanted(root, sources, rows) <= t.blobs.Keys
    ensures Filled(t, root, sources, rows, crossDevice, now) == t
  {
    if rows != [] {
      WantedStep(root, sources, rows, |rows| - 1);
      assert rows[..|rows|] == rows;
      NothingToFile(t, root, sources, rows[..|rows| - 1], crossDevice, now);
    }
  }

  // A later run over the same rows changes nothing.
  lemma FilledTwice(t: Tree, root: Path, sources: map<Path, Blob>, rows: seq<Row>, crossDevice: bool, now: int, later: int)
    ensures var once := Filled(t, root, sources, rows, crossDevice, now);
            Filled(once, root, sources, rows, crossDevice, later) == once
  {
    FilledGains(t, root, sources, rows, crossDevice, now);
    NothingToFile(Filled(t, root, sources, rows, crossDevice, now), root, sources, rows, crossDevice, later);
  }

  class BlobTree {
    var blobs: map<Sha, Blob>
    var nextInode: nat

    ghost predicate Valid()
      reads this
    {
      "" !in blobs
    }

    ghost function State(): Tree
      reads this
    {
      Tree(blobs, nextInode)
    }

    // Sorting the unreferenced blobs by age. Nothing is touched.
    method Scan(rows: seq<Row>, versions: set<Sha>, now: int, minAge: nat)
      returns (orphans: seq<Sha>, tooYoung: seq<Sha>)
      requires Valid()
      ensures forall sha :: sha in orphans <==>
        sha in blobs && !Referenced(rows, versions, sha) && Reapable(blobs[sha], now, minAge)
      ensures forall sha :: sha in tooYoung <==>
        sha in blobs && !Referenced(rows, versions, sha) && !Reapable(blobs[sha], now, minAge)
      ensures forall i, j :: 0 <= i < j < |orphans| ==> orphans[i] != orphans[j]
      ensures forall i, j :: 0 <= i < j < |tooYoung| ==> tooYoung[i] != tooYoung[j]
    {
      var referenced := ReferencedShas(rows, versions);
      orphans, tooYoung := [], [];
      var todo := blobs.Keys;
      while todo != {}
        invariant todo <= blobs.Keys
        invariant forall sha :: sha in orphans <==>
          sha in blobs && sha !in todo && sha !in referenced && Reapable(blobs[sha], now, minAge)
        invariant forall sha :: sha in tooYoung <==>
          sha in blobs && sha !in todo && sha !in referenced && !Reapable(blobs[sha], now, minAge)
        invariant forall i, j :: 0 <= i < j < |orphans| ==> orphans[i] != orphans[j]
        invariant forall i, j :: 0 <= i < j < |tooYoung| ==> tooYoung[i] != tooYoung[j]
        decreases todo
      {
        var sha :| sha in todo;
        assert sha !in orphans && sha !in tooYoung;
        todo := todo - {sha};
        if sha in referenced {
          continue;
        }
        if now - blobs[sha].mtime < minAge {
          tooYoung := tooYoung + [sha];
        } else {
          orphans := orphans + [sha];
        }
      }
    }

    // Unlinking, best effort: a blob somebody else removed is passed over. The
    // bytes reported as reclaimed are exactly the bytes that are gone.
    method Apply(orphans: seq<Sha>) returns (removed: seq<Sha>, reclaimed: nat)
      modifies this
      ensures blobs == old(blobs) - (set sha | sha in orphans)
      ensures forall sha :: sha in removed <==> sha in orphans && sha in old(blobs)
      ensures reclaimed + Bytes(blobs) == Bytes(old(blobs))
      ensures nextInode == old(nextInode)
    {
      removed, reclaimed := [], 0;
      for i := 0 to |orphans|
        invariant blobs == old(blobs) - (set sha | sha in orphans[..i])
        invariant forall sha :: sha in removed <==> sha in orphans[..i] && sha in old(blobs)
        invariant reclaimed + Bytes(blobs) == Bytes(old(blobs))
        invariant nextInode == old(nextInode)
      {
        var sha := orphans[i];
        assert orphans[..i + 1] == orphans[..i] + [sha];
        if sha in blobs {
          BytesWithout(blobs, sha);
          removed := removed + [sha];
          reclaimed := reclaimed + blobs[sha].size;
          blobs := blobs - {sha};
        }
      }
      assert orphans[..|orphans|] == orphans;
    }

    // One reaper cycle with nobody interfering: every referenced and every young
    // blob survives unchanged, everything else is gone.
    method Reap(rows: seq<Row>, versions: set<Sha>, now: int, minAge: nat) returns (reclaimed: nat)
      requires Valid()
      modifies this
      ensures Valid()
      ensures blobs == map sha | sha in old(blobs) &&
        (Referenced(rows, versions, sha) || !Reapable(old(blobs)[sha], now, minAge)) :: old(blobs)[sha]
      ensures reclaimed + Bytes(blobs) == Bytes(old(blobs))
    {
      var orphans, tooYoung := Scan(rows, versions, now, minAge);
      var removed;
      removed, reclaimed := Apply(orphans);
    }

    // Every blob is filed under the digest of its own bytes.
    ghost predicate Addressed()
      reads this
    {
      forall sha :: sha in blobs ==> blobs[sha].digest == sha
    }

    // Linking or copying one file; an existing blob is adopted as it is.
    method Materialise(source: Blob, sha: Sha, crossDevice: bool, now: int) returns (kind: Kind)
      modifies this
      ensures State() == Filed(old(State()), source, sha, crossDevice, now)
      ensures kind.SameInode? || kind.AlreadyPresent? <==> sha in old(blobs)
      ensures sha in old(blobs) ==> (kind.SameInode? <==> blobs[sha].inode == source.inode)
      ensures kind.Linked? <==> sha !in old(blobs) && !crossDevice
      ensures kind.Linked? ==> blobs == old(blobs)[sha := source]
      ensures kind.Copied? ==> sha in blobs && (var made := blobs[sha];
        made.digest == source.digest && made.size == source.size && made.mtime == now && made.inode == old(nextInode))
    {
      if sha in blobs {
        kind := if blobs[sha].inode == source.inode then SameInode else AlreadyPresent;
        return;
      }
      if !crossDevice {
        blobs := blobs[sha := source];
        return Linked;
      }
      blobs := blobs[sha := Blob(source.digest, source.size, now, nextInode)];
      nextInode := nextInode + 1;
      return Copied;
    }

    // One row: what becomes of it, and the action if it is filed.
    method FileRow(root: Path, sources: map<Path, Blob>, row: Row, crossDevice: bool, now: int)
      returns (fate: Fate, kind: Kind)
      modifies this
      ensures fate == FateOf(root, sources, row)
      ensures fate != Filable ==> State() == old(State())
      ensures fate == Filable ==>
        var sha := row.sha.value;
        && State() == Filed(old(State()), sources[ResolveAt(root, row.path)], sha, crossDevice, now)
        && blobs.Keys == old(blobs).Keys + {sha}
        && (IsNew(kind) <==> sha !in old(blobs)) && (IsNew(kind) ==> (kind.Copied? <==> crossDevice))
    {
      kind := AlreadyPresent;
      if !row.succeeded {
        return Passed, kind;
      }
      if IsStale(row) || IsSentinel(row.path) {
        return Unrecoverable, kind;
      }
      if row.sha.None? || row.sha.value == "" {
        return WithoutDigest, kind;
      }
      var p := ResolveAt(root, row.path);
      if p !in sources {
        return Vanished, kind;
      }
      if sources[p].digest != row.sha.value {
        return Altered, kind;
      }
      kind := Materialise(sources[p], row.sha.value, crossDevice, now);
      return Filable, kind;
    }

    // All rows. The tree gains exactly the blobs the rows call for, stays
    // addressed by content, and every succeeded row is counted under its fate.
    method MaterialiseAll(root: Path, sources: map<Path, Blob>, rows: seq<Row>, crossDevice: bool, now: int)
      returns (kinds: seq<Kind>, mismatches: nat, missing: nat, noSha: nat, unrecoverable: nat)
      requires Addressed()
      modifies this
      ensures Addressed()
      ensures blobs.Keys == old(blobs).Keys + Wanted(root, sources, rows)
      ensures forall sha :: sha in old(blobs) ==> blobs[sha] == old(blobs)[sha]
      ensures State() == Filled(old(State()), root, sources, rows, crossDevice, now)
      ensures Wanted(root, sources, rows) <= old(blobs).Keys ==>
        forall k :: k in kinds ==> k.SameInode? || k.AlreadyPresent?
      ensures |kinds| == Tally(root, sources, rows, Filable)
      ensures mismatches == Tally(root, sources, rows, Altered) && missing == Tally(root, sources, rows, Vanished)
      ensures noSha == Tally(root, sources, rows, WithoutDigest)
      ensures unrecoverable == Tally(root, sources, rows, Unrecoverable)
      ensures Made(kinds) == |blobs.Keys - old(blobs).Keys|
      ensures forall k :: k in kinds && IsNew(k) ==> (k.Copied? <==> crossDevice)
    {
      kinds, mismatches, missing, noSha, unrecoverable := [], 0, 0, 0, 0;
      for i := 0 to |rows|
        invariant State() == Filled(old(State()), root, sources, rows[..i], crossDevice, now)
        invariant old(blobs).Keys <= blobs.Keys
        invariant Accounted(root, sources, rows[..i], |kinds|, mismatches, missing, noSha, unrecoverable)
        invariant Grew(kinds, |blobs.Keys - old(blobs).Keys|, crossDevice)
      {
        FilledStep(old(State()), root, sources, rows, crossDevice, now, i);
        AccountStep(root, sources, rows, i, |kinds|, mismatches, missing, noSha, unrecoverable);
        ghost var before := blobs.Keys;
        var fate, kind := FileRow(root, sources, rows[i], crossDevice, now);
        match fate
        case Passed =>
        case Unrecoverable => unrecoverable := unrecoverable + 1;
        case WithoutDigest => noSha := noSha + 1;
        case Vanished => missing := missing + 1;
        case Altered => mismatches := mismatches + 1;
        case Filable =>
          GrowsOn(kinds, kind, old(blobs).Keys, before, rows[i].sha.value, crossDevice);
          kinds := kinds + [kind];
      }
      assert rows[..|rows|] == rows;
      FilledGains(old(State()), root, sources, rows, crossDevice, now);
      NothingMade(kinds);
    }

    // Running the script again changes nothing: after two runs the tree is the
    // one that the first run left, and the second finds every blob in place.
    method MaterialiseTwice(root: Path, sources: map<Path, Blob>, rows: seq<Row>, crossDevice: bool, now: int, later: int)
      returns (kinds: seq<Kind>)
      requires Addressed()
      modifies this
      ensures Addressed() && State() == Filled(old(State()), root, sources, rows, crossDevice, now)
      ensures forall k :: k in kinds ==> k.SameInode? || k.AlreadyPresent?
    {
      var mismatches, missing, noSha, unrecoverable;
      FilledTwice(State(), root, sources, rows, crossDevice, now, later);
      kinds, mismatches, missing, noSha, unrecoverable := MaterialiseAll(root, sources, rows, crossDevice, now);
      kinds, mismatches, missing, noSha, unrecoverable := MaterialiseAll(root, sources, rows, crossDevice, later);
    }
  }

  lemma {:induction false} NothingMade(kinds: seq<Kind>)
    ensures Made(kinds) == 0 ==> forall k :: k in kinds ==> !IsNew(k)
  {
    if kinds != [] {
      NothingMade(kinds[..|kinds| - 1]);
      assert kinds == kinds[..|kinds| - 1] + [kinds[|kinds| - 1]];
    }
  }

  lemma GrowsOn(kinds: seq<Kind>, kind: Kind, was: set<Sha>, before: set<Sha>, sha: Sha, crossDevice: bool)
    requires Grew(kinds, |before - was|, crossDevice) && was <= before
    requires IsNew(kind) <==> sha !in before
    requires IsNew(kind) ==> (kind.Copied? <==> crossDevice)
    ensures Grew(kinds + [kind], |before + {sha} - was|, crossDevice)
  {
    assert (kinds + [kind])[..|kinds|] == kinds;
    if sha in before {
      assert before + {sha} == before;
    } else {
      assert before + {sha} - was == (before - was) + {sha};
    }
  }
}
