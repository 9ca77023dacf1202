// How the race between the reaper and everybody else is lost.
module BlobRaces {
  // scripts/reap_blob_store.py:24-29, 115-182; scripts/materialize_blob_store.py:105-121;
  // scripts/backfill_export_paths.py:144-178; scripts/verify_exports.py:175-190.
  //
  // For every age gate and each condition of the protocol, a run that meets the
  // other two and unlinks a referenced blob.

  import opened Wrappers
  import opened ExportRows
  import opened BlobProtocol
  import Ledger
  import LedgerLaws

  function FreshRow(sha: Sha): Row {
    Row(true, "doc", "book.html", Some(sha), Some(0), Some(0), None)
  }

  // The steps from one state to the next, without a start.
  ghost predicate IsTail(minAge: nat, states: seq<State>, steps: seq<Step>) {
    |states| == |steps| + 1 && forall i :: 0 <= i < |steps| ==> Next(minAge, states[i], steps[i], states[i + 1])
  }

  // The step unlinks a blob that the row refers to.
  ghost predicate LosesBytes(s: State, step: Step, s': State, sha: Sha) {
    step == Unlink(sha) && !Safe(s, step) && HasRow(s', 0, sha) && sha !in s'.blobs
  }

  // The reaper's last look at a lone suspect that is old enough, a write of the
  // row, the unlink.
  lemma EndGame(minAge: nat, s: State, sha: Sha, step: Step, s3: State) returns (t: seq<State>, steps: seq<Step>)
    requires s.reaper == Judging(minAge, {sha}, {}) && s.blobs == map[sha := 0]
    requires step.Commit? || step.Edit?
    requires Next(minAge, s.(reaper := Applying(minAge, {sha})), step, s3)
    requires s3.blobs == s.blobs && HasRow(s3, 0, sha)
    ensures |t| == 5 && t[0] == s && t[2] == s.(reaper := Applying(minAge, {sha})) && t[3] == s3
    ensures steps == [Stat(sha), StartApply, step, Unlink(sha)] && IsTail(minAge, t, steps)
    ensures t[1] == s.(reaper := Judging(minAge, {}, {sha})) && t[4] == s3.(reaper := Applying(minAge, {}), blobs := map[])
    ensures LosesBytes(t[3], steps[3], t[4], sha)
  {
    var s1 := s.(reaper := Judging(minAge, {}, {sha}));
    var s2 := s.(reaper := Applying(minAge, {sha}));
    var s4 := s3.(reaper := Applying(minAge, {}), blobs := map[]);
    t := [s, s1, s2, s3, s4];
    steps := [Stat(sha), StartApply, step, Unlink(sha)];
    assert {sha} - {sha} == {} && {} + {sha} == {sha};
    assert Next(minAge, s, steps[0], s1);
    assert Next(minAge, s1, steps[1], s2);
    assert s3.reaper == s2.reaper && s3.blobs - {sha} == map[];
    assert Next(minAge, s3, steps[3], s4);
    ReferencedIff(s3, sha);
  }

  // The exporter of a held blob commits.
  lemma CommitGame(minAge: nat, s: State, sha: Sha, x: Exporter) returns (t: seq<State>, steps: seq<Step>)
    requires s.reaper == Judging(minAge, {sha}, {}) && s.blobs == map[sha := 0] && s.clock == minAge
    requires s.exporters == map[0 := x] && x.Holds? && x.sha == sha
    requires s.rows == map[] && s.linked == {} && s.versions == {}
    ensures |t| == 5 && t[0] == s && |steps| == 4 && IsTail(minAge, t, steps)
    ensures LosesBytes(t[3], steps[3], t[4], sha) && (!x.link.Failed? ==> !BytesThere(t[4]))
    ensures minAge > 0 && x.mtime == minAge ==> AllTimely(minAge, t, steps)
    ensures x.link.Created? ==> AllGuarded(minAge, t)
    ensures AllSupported(minAge, t, steps)
  {
    var row := FreshRow(sha);
    var step := Commit(0, 0, row, false);
    var linked: set<nat> := if x.link.Failed? then {} else {0};
    var s2 := s.(reaper := Applying(minAge, {sha}));
    var s3 := s2.(rows := map[0 := row], linked := linked, exporters := map[]);
    assert s2.rows[0 := row] == map[0 := row] && s2.exporters - {0} == map[];
    assert {} + {0} == {0} && {} - {0} == {};
    assert Next(minAge, s2, step, s3);
    t, steps := EndGame(minAge, s, sha, step, s3);
  }

  lemma ConcatRuns(minAge: nat, a: seq<State>, sa: seq<Step>, b: seq<State>, sb: seq<Step>)
    requires IsRun(minAge, a, sa) && IsTail(minAge, b, sb) && a[|a| - 1] == b[0]
    ensures IsRun(minAge, a + b[1..], sa + sb)
    ensures AllTimely(minAge, a, sa) && AllTimely(minAge, b, sb) ==> AllTimely(minAge, a + b[1..], sa + sb)
    ensures AllSupported(minAge, a, sa) && AllSupported(minAge, b, sb) ==> AllSupported(minAge, a + b[1..], sa + sb)
    ensures AllGuarded(minAge, a) && AllGuarded(minAge, b) ==> AllGuarded(minAge, a + b[1..])
  {
    var states, steps := a + b[1..], sa + sb;
    assert forall i :: |sa| <= i < |states| ==> states[i] == b[i - |sa|];
    assert forall i :: 0 <= i < |a| ==> states[i] == a[i];
    forall i | 0 <= i < |steps| ensures Next(minAge, states[i], steps[i], states[i + 1]) {
      if i < |sa| {
        assert states[i + 1] == a[i + 1] && steps[i] == sa[i];
      } else {
        assert states[i + 1] == b[i - |sa| + 1] && steps[i] == sb[i - |sa|];
      }
    }
  }

  // The reaper singles out an unreferenced blob.
  lemma SingleOut(minAge: nat, s: State, sha: Sha) returns (t: seq<State>, steps: seq<Step>)
    requires s.reaper.Resting? && s.clock == minAge && sha in s.blobs && sha !in References(s)
    ensures IsTail(minAge, t, steps) && t[0] == s && steps == [TakeNow, Walk(sha), ReadReferences]
    ensures t[3] == s.(reaper := Judging(minAge, {sha}, {}))
    ensures Guarded(minAge, s) ==> AllGuarded(minAge, t)
  {
    var s1 := s.(reaper := Walking(minAge, {}));
    var s2 := s.(reaper := Walking(minAge, {sha}));
    t := [s, s1, s2, s.(reaper := Judging(minAge, {sha}, {}))];
    steps := [TakeNow, Walk(sha), ReadReferences];
    assert References(s1) == References(s) && References(s2) == References(s) && References(t[3]) == References(s);
    assert {} + {sha} == {sha} && {sha} - References(s2) == {sha};
  }

  // An exporter takes a new file to the blob tree.
  lemma Export(minAge: nat, s: State, sha: Sha, mtime: nat, link: Link) returns (t: seq<State>, steps: seq<Step>)
    requires s.exporters == map[] && mtime <= s.clock && !link.Failed?
    requires if link.Adopted? then sha in s.blobs else sha !in s.blobs
    ensures IsTail(minAge, t, steps) && t[0] == s && steps == [Write(0, sha, mtime), Materialise(0, false)]
    ensures t[2] == s.(exporters := map[0 := Holds(sha, mtime, link)],
                       blobs := if link.Created? then s.blobs[sha := mtime] else s.blobs)
    ensures link.Created? ==> AllGuarded(minAge, t)
  {
    var s1 := s.(exporters := map[0 := Wrote(sha, mtime)]);
    var s2 := s1.(exporters := map[0 := Holds(sha, mtime, link)], blobs := if link.Created? then s.blobs[sha := mtime] else s.blobs);
    t := [s, s1, s2];
    steps := [Write(0, sha, mtime), Materialise(0, false)];
    assert s.exporters[0 := Wrote(sha, mtime)] == s1.exporters;
    assert s1.exporters[0 := Holds(sha, mtime, link)] == s2.exporters;
  }

  // Neither commits nor maintenance.
  ghost predicate NoWrites(steps: seq<Step>) {
    forall i :: 0 <= i < |steps| ==> !steps[i].Commit? && !steps[i].Edit?
  }

  lemma NoWritesFine(minAge: nat, states: seq<State>, steps: seq<Step>)
    requires |states| == |steps| + 1 && NoWrites(steps)
    ensures AllTimely(minAge, states, steps) && AllSupported(minAge, states, steps)
  {
  }

  // ----- Adoption -----

  // The reaper condemns an old orphan that an exporter has just adopted.
  lemma AdoptOrphan(minAge: nat, sha: Sha) returns (a: seq<State>, steps: seq<Step>)
    ensures |steps| == 5 && IsRun(minAge, a, steps) && AllTimely(minAge, a, steps) && AllSupported(minAge, a, steps)
    ensures a[5] == State(minAge, map[sha := 0], map[], {}, {}, map[0 := Holds(sha, minAge, Adopted)],
                          Judging(minAge, {sha}, {}))
  {
    var s0 := State(minAge, map[sha := 0], map[], {}, {}, map[], Resting);
    assert References(s0) == {};
    var b, sb := SingleOut(minAge, s0, sha);
    var c, sc := Export(minAge, b[3], sha, minAge, Adopted);
    ConcatRuns(minAge, b, sb, c, sc);
    a, steps := b + c[1..], sb + sc;
    assert a[5] == c[2];
    NoWritesFine(minAge, a, steps);
  }

  // For every age gate: an orphan old enough to be reaped is adopted by an
  // exporter between the reaper's read and its unlink. The exporter is as quick
  // as can be, and its committed bytes are gone.
  lemma AdoptionLosesTheRace(minAge: nat, sha: Sha) returns (states: seq<State>, steps: seq<Step>)
    requires minAge > 0
    ensures IsRun(minAge, states, steps) && AllTimely(minAge, states, steps) && AllSupported(minAge, states, steps)
    ensures |steps| == 9 && LosesBytes(states[8], steps[8], states[9], sha) && !BytesThere(states[9])
  {
    var a, sa := AdoptOrphan(minAge, sha);
    var b, sb := CommitGame(minAge, a[5], sha, Holds(sha, minAge, Adopted));
    ConcatRuns(minAge, a, sa, b, sb);
    states, steps := a + b[1..], sa + sb;
    assert steps[8] == sb[3] && states[8] == b[3] && states[9] == b[4];
  }

  // ----- A link that failed -----

  // One exporter fails to link its file; another one links an old file of the same
  // bytes and gives up.
  lemma LinkElsewhere(minAge: nat, sha: Sha) returns (t: seq<State>, steps: seq<Step>)
    ensures |steps| == 5 && IsRun(minAge, t, steps) && NoWrites(steps)
    ensures t[5] == State(minAge, map[sha := 0], map[], {}, {}, map[0 := Holds(sha, minAge, Failed)], Resting)
  {
    var s0 := State(minAge, map[], map[], {}, {}, map[], Resting);
    var failed := Holds(sha, minAge, Failed);
    var s1 := s0.(exporters := map[0 := Wrote(sha, minAge)]);
    var s2 := s0.(exporters := map[0 := failed]);
    var s3 := s0.(exporters := map[0 := failed, 1 := Wrote(sha, 0)]);
    var s4 := s0.(exporters := map[0 := failed, 1 := Holds(sha, 0, Created)], blobs := map[sha := 0]);
    var s5 := s4.(exporters := map[0 := failed]);
    t := [s0, s1, s2, s3, s4, s5];
    steps := [Write(0, sha, minAge), MaterialiseFails(0), Write(1, sha, 0), Materialise(1, false), Abort(1)];
    assert s0.exporters[0 := Wrote(sha, minAge)] == s1.exporters;
    assert s1.exporters[0 := failed] == s2.exporters;
    assert s2.exporters[1 := Wrote(sha, 0)] == s3.exporters;
    assert s3.exporters[1 := Holds(sha, 0, Created)] == s4.exporters;
    assert s4.exporters - {1} == s5.exporters;
    assert s0.blobs[sha := 0] == map[sha := 0];
  }

  // For every age gate: the exporter whose link failed is stamped anyway, and
  // commits while the reaper unlinks a blob that somebody else has left.
  lemma FailedLinkLosesTheRace(minAge: nat, sha: Sha) returns (states: seq<State>, steps: seq<Step>)
    requires minAge > 0
    ensures IsRun(minAge, states, steps) && AllTimely(minAge, states, steps) && AllSupported(minAge, states, steps)
    ensures |steps| == 12 && LosesBytes(states[11], steps[11], states[12], sha)
  {
    var a, sa := LinkElsewhere(minAge, sha);
    assert References(a[5]) == {};
    var b, sb := SingleOut(minAge, a[5], sha);
    NoWritesFine(minAge, a, sa);
    NoWritesFine(minAge, b, sb);
    ConcatRuns(minAge, a, sa, b, sb);
    var c, sc := CommitGame(minAge, b[3], sha, Holds(sha, minAge, Failed));
    assert (a + b[1..])[8] == b[3];
    ConcatRuns(minAge, a + b[1..], sa + sb, c, sc);
    states, steps := a + b[1..] + c[1..], sa + sb + sc;
    assert steps[11] == sc[3] && states[11] == c[3] && states[12] == c[4];
  }

  // ----- A late commit -----

  // An exporter hard-links a file older than the gate, and the reaper condemns the blob.
  lemma LinkOldFile(minAge: nat, sha: Sha) returns (a: seq<State>, steps: seq<Step>)
    ensures |steps| == 5 && IsRun(minAge, a, steps) && AllGuarded(minAge, a) && AllSupported(minAge, a, steps)
    ensures a[5] == State(minAge, map[sha := 0], map[], {}, {}, map[0 := Holds(sha, 0, Created)],
                          Judging(minAge, {sha}, {}))
  {
    var s0 := State(minAge, map[], map[], {}, {}, map[], Resting);
    var b, sb := Export(minAge, s0, sha, 0, Created);
    assert References(b[2]) == {};
    var c, sc := SingleOut(minAge, b[2], sha);
    ConcatRuns(minAge, b, sb, c, sc);
    a, steps := b + c[1..], sb + sc;
    assert a[5] == c[3] && map[][sha := 0] == map[sha := 0];
    NoWritesFine(minAge, a, steps);
  }

  // For every age gate: an exporter that hard-links a file older than the gate
  // creates a blob that is reapable at once, and commits too late.
  lemma LateCommitLosesTheRace(minAge: nat, sha: Sha) returns (states: seq<State>, steps: seq<Step>)
    requires minAge > 0
    ensures IsRun(minAge, states, steps) && AllGuarded(minAge, states) && AllSupported(minAge, states, steps)
    ensures |steps| == 9 && LosesBytes(states[8], steps[8], states[9], sha) && !BytesThere(states[9])
  {
    var a, sa := LinkOldFile(minAge, sha);
    var b, sb := CommitGame(minAge, a[5], sha, Holds(sha, 0, Created));
    ConcatRuns(minAge, a, sa, b, sb);
    states, steps := a + b[1..], sa + sb;
    assert steps[8] == sb[3] && states[8] == b[3] && states[9] == b[4];
  }

  // ----- Maintenance -----

  // The pass leaves a serviceable row with a digest that it did not have.
  predicate NewDigest(w: Ledger.World, row: Row, pass: LedgerLaws.Pass) {
    var after := LedgerLaws.After(w, row, pass);
    Serviceable(after) && after.sha != row.sha
  }

  // Only stamping does that: a backfill, or a verification that hashes rows without
  // a digest, of a row whose file is there.
  lemma NewDigestIff(w: Ledger.World, row: Row, pass: LedgerLaws.Pass)
    ensures NewDigest(w, row, pass) <==>
              var p := Ledger.Resolve(w, row.path);
              && row.stale.None? && p in w.files && row.sha != Some(w.files[p].digest)
              && match pass
                 case HealPass => false
                 case BackfillPass(recompute, _) => Ledger.NeedsHash(row, recompute)
                 case VerifyPass(cutoff, hashNull, _) => Ledger.NeedsCheck(row, cutoff, hashNull) && row.sha.None?
  {
  }

  // If sentinel rows are stale, an unsupported pass is one that stamps the digest
  // of a blob that is neither referenced nor young.
  lemma PassIsSupportedIff(minAge: nat, s: State, r: nat, w: Ledger.World, pass: LedgerLaws.Pass)
    requires r in s.rows && BytesThere(s) && LedgerLaws.StaleSentinel(s.rows[r])
    ensures var after := LedgerLaws.After(w, s.rows[r], pass);
            Supported(minAge, s, Edit(r, after)) <==>
              (NewDigest(w, s.rows[r], pass) && after.sha.value in s.blobs ==>
                 after.sha.value in References(s) || Young(minAge, s, after.sha.value))
  {
    var after := LedgerLaws.After(w, s.rows[r], pass);
    if Serviceable(after) && after.sha == s.rows[r].sha {
      LedgerLaws.PassRevivesNothing(w, s.rows[r], pass);
      ReferencedIff(s, after.sha.value);
      assert HasRow(s, r, after.sha.value);
    }
  }

  lemma StampGame(minAge: nat, s: State, w: Ledger.World, row: Row, pass: LedgerLaws.Pass)
    returns (t: seq<State>, steps: seq<Step>)
    requires NewDigest(w, row, pass)
    requires var sha := LedgerLaws.After(w, row, pass).sha.value;
             s.reaper == Judging(minAge, {sha}, {}) && s.blobs == map[sha := 0]
    requires s.exporters == map[] && s.rows == map[0 := row] && s.linked == {}
    ensures var after := LedgerLaws.After(w, row, pass);
            && |t| == 5 && t[0] == s && IsTail(minAge, t, steps) && t[2].rows == s.rows
            && steps == [Stat(after.sha.value), StartApply, Edit(0, after), Unlink(after.sha.value)]
            && LosesBytes(t[3], steps[3], t[4], after.sha.value)
    ensures AllTimely(minAge, t, steps) && AllGuarded(minAge, t)
  {
    var after := LedgerLaws.After(w, row, pass);
    var sha := after.sha.value;
    var s2 := s.(reaper := Applying(minAge, {sha}));
    var s3 := s2.(rows := map[0 := after]);
    assert s2.rows[0 := after] == map[0 := after] && s2.linked - {0} == {};
    assert Next(minAge, s2, Edit(0, after), s3);
    t, steps := EndGame(minAge, s, sha, Edit(0, after), s3);
  }

  lemma OneRowReferences(s: State, row: Row, sha: Sha)
    requires s.rows == map[0 := row] && s.versions == {} && row.sha != Some(sha)
    ensures sha !in References(s)
  {
    ReferencedIff(s, sha);
  }

  // For every age gate, and every row and pass that stamps a new digest: the row is
  // stamped while the reaper unlinks an old orphan with these bytes. No exporter is
  // involved, and the stamped row has lost its blob.
  lemma StampingLosesTheRace(minAge: nat, w: Ledger.World, row: Row, pass: LedgerLaws.Pass)
    returns (states: seq<State>, steps: seq<Step>)
    requires NewDigest(w, row, pass)
    ensures IsRun(minAge, states, steps) && AllTimely(minAge, states, steps) && AllGuarded(minAge, states)
    ensures var after := LedgerLaws.After(w, row, pass);
            && |steps| == 7 && states[5].rows == map[0 := row] && steps[5] == Edit(0, after)
            && LosesBytes(states[6], steps[6], states[7], after.sha.value)
  {
    var sha := LedgerLaws.After(w, row, pass).sha.value;
    var s0 := State(minAge, map[sha := 0], map[0 := row], {}, {}, map[], Resting);
    OneRowReferences(s0, row, sha);
    var a, sa := SingleOut(minAge, s0, sha);
    NoWritesFine(minAge, a, sa);
    var b, sb := StampGame(minAge, a[3], w, row, pass);
    ConcatRuns(minAge, a, sa, b, sb);
    states, steps := a + b[1..], sa + sb;
    assert steps[5] == sb[2] && steps[6] == sb[3];
    assert states[5] == b[2] && states[6] == b[3] && states[7] == b[4];
  }
}
