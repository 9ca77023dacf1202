// Exporters, one reaper and the clock over the content-addressed blob tree.
module BlobProtocol {
  // scripts/reap_blob_store.py:24-29, 115-182; scripts/materialize_blob_store.py:105-121;
  // src/book_agent/infra/storage/blobs.py:96-143; scripts/backfill_export_paths.py:144-178.
  //
  // The scripts claim that the age gate makes the race between an exporter's link
  // and its commit impossible to lose. It does so under three conditions, and each
  // of them is needed (BlobRaces).

  import opened Wrappers
  import opened ExportRows

  // How an exporter came by the blob it is about to reference.
  datatype Link = Created | Adopted | Failed

  datatype Exporter =
    | Wrote(sha: Sha, mtime: nat)             // file on disk, hashed
    | Holds(sha: Sha, mtime: nat, link: Link) // blob materialised, row not committed

  datatype Reaper =
    | Resting
    | Walking(now: nat, walked: set<Sha>)
    | Judging(now: nat, pending: set<Sha>, doomed: set<Sha>)  // references read
    | Applying(now: nat, todo: set<Sha>)

  datatype State = State(
    clock: nat,
    blobs: map<Sha, nat>,          // blob to modification time
    rows: map<nat, Row>,           // committed rows
    linked: set<nat>,              // rows whose exporter did hold the blob
    versions: set<Sha>,            // retained export history
    exporters: map<nat, Exporter>,
    reaper: Reaper)

  datatype Step =
    | Tick
    | Write(e: nat, sha: Sha, mtime: nat)
    | Materialise(e: nat, copied: bool)
    | MaterialiseFails(e: nat)
    | Commit(e: nat, r: nat, row: Row, keepVersion: bool)
    | Abort(e: nat)
    | Edit(r: nat, row: Row)
    | Retire(r: nat)
    | DropVersion(sha: Sha)
    | TakeNow
    | Walk(sha: Sha)
    | ReadReferences
    | Stat(sha: Sha)
    | StartApply
    | Unlink(sha: Sha)
    | Finish

  ghost function References(s: State): set<Sha> {
    (set r | r in s.rows && Serviceable(s.rows[r]) :: s.rows[r].sha.value) + s.versions
  }

  ghost predicate Next(minAge: nat, s: State, step: Step, s': State) {
    match step
    case Tick => s' == s.(clock := s.clock + 1)
    // An export may also be stamped from a file that was already there.
    case Write(e, sha, mtime) =>
      e !in s.exporters && mtime <= s.clock && s' == s.(exporters := s.exporters[e := Wrote(sha, mtime)])
    // A hard link keeps the file's modification time, a copy gets a new one.
    case Materialise(e, copied) =>
      e in s.exporters && s.exporters[e].Wrote? &&
      var Wrote(sha, mtime) := s.exporters[e];
      if sha in s.blobs then s' == s.(exporters := s.exporters[e := Holds(sha, mtime, Adopted)])
      else s' == s.(exporters := s.exporters[e := Holds(sha, mtime, Created)],
                    blobs := s.blobs[sha := if copied then s.clock else mtime])
    // Materialising is best effort: the row is stamped anyway.
    case MaterialiseFails(e) =>
      e in s.exporters && s.exporters[e].Wrote? && s.exporters[e].sha !in s.blobs &&
      s' == s.(exporters := s.exporters[e := Holds(s.exporters[e].sha, s.exporters[e].mtime, Failed)])
    case Commit(e, r, row, keepVersion) =>
      e in s.exporters && s.exporters[e].Holds? && row.sha == Some(s.exporters[e].sha) &&
      s' == s.(rows := s.rows[r := row],
               linked := if s.exporters[e].link.Failed? then s.linked - {r} else s.linked + {r},
               versions := if keepVersion then s.versions + {s.exporters[e].sha} else s.versions,
               exporters := s.exporters - {e})
    case Abort(e) => s' == s.(exporters := s.exporters - {e})
    // A maintenance pass rewrites a row. Nobody held the blob of a new digest.
    case Edit(r, row) =>
      r in s.rows &&
      s' == s.(rows := s.rows[r := row], linked := if row.sha == s.rows[r].sha then s.linked else s.linked - {r})
    // Deleted: the reference goes.
    case Retire(r) => s' == s.(rows := s.rows - {r}, linked := s.linked - {r})
    case DropVersion(sha) => s' == s.(versions := s.versions - {sha})
    case TakeNow => s.reaper.Resting? && s' == s.(reaper := Walking(s.clock, {}))
    case Walk(sha) =>
      s.reaper.Walking? && sha in s.blobs &&
      s' == s.(reaper := Walking(s.reaper.now, s.reaper.walked + {sha}))
    case ReadReferences =>
      s.reaper.Walking? &&
      s' == s.(reaper := Judging(s.reaper.now, s.reaper.walked - References(s), {}))
    case Stat(sha) =>
      s.reaper.Judging? && sha in s.reaper.pending && sha in s.blobs &&
      var aged := s.reaper.now - s.blobs[sha] >= minAge;
      s' == s.(reaper := Judging(s.reaper.now, s.reaper.pending - {sha},
                                 if aged then s.reaper.doomed + {sha} else s.reaper.doomed))
    case StartApply =>
      s.reaper.Judging? && s.reaper.pending == {} &&
      s' == s.(reaper := Applying(s.reaper.now, s.reaper.doomed))
    case Unlink(sha) =>
      s.reaper.Applying? && sha in s.reaper.todo &&
      s' == s.(reaper := Applying(s.reaper.now, s.reaper.todo - {sha}), blobs := s.blobs - {sha})
    case Finish => s.reaper.Applying? && s' == s.(reaper := Resting)
  }

  ghost predicate Init(s: State) {
    && s.exporters == map[] && s.reaper.Resting?
    && (forall sha :: sha in s.blobs ==> s.blobs[sha] <= s.clock)
    && (forall r :: r in s.linked && r in s.rows && Serviceable(s.rows[r]) ==> s.rows[r].sha.value in s.blobs)
  }

  // A blob appears only when an exporter files its bytes, as old as the file if linked
  // and new if copied; it goes only when the reaper unlinks it, and never changes.
  lemma BlobOutcome(minAge: nat, s: State, step: Step, s': State, sha: Sha)
    requires Next(minAge, s, step, s')
    ensures sha in s'.blobs && sha !in s.blobs ==>
              && step.Materialise? && step.e in s.exporters && s.exporters[step.e].sha == sha
              && s'.blobs[sha] == (if step.copied then s.clock else s.exporters[step.e].mtime)
    ensures sha in s.blobs && sha in s'.blobs ==> s'.blobs[sha] == s.blobs[sha]
    ensures sha in s.blobs && sha !in s'.blobs <==> step == Unlink(sha) && sha in s.blobs
  {
  }

  // A row is linked by a commit whose blob was filed, and stays so as long as no commit
  // or maintenance step gives it another digest and it is not retired.
  lemma LinkedOutcome(minAge: nat, s: State, step: Step, s': State, r: nat)
    requires Next(minAge, s, step, s')
    ensures r in s'.linked && r !in s.linked ==>
              step.Commit? && step.r == r && step.e in s.exporters && s.exporters[step.e].Holds? && !s.exporters[step.e].link.Failed?
    ensures r in s.linked && r in s.rows && r in s'.rows && s'.rows[r].sha == s.rows[r].sha ==>
              r in s'.linked || (step.Commit? && step.r == r)
  {
  }

  // ----- The three conditions -----

  // Exporters commit less than minAge after their file was written.
  ghost predicate Timely(minAge: nat, s: State, step: Step) {
    step.Commit? && step.e in s.exporters ==> s.clock < s.exporters[step.e].mtime + minAge
  }

  ghost predicate Young(minAge: nat, s: State, sha: Sha) {
    sha in s.blobs && s.clock < s.blobs[sha] + minAge
  }

  // A blob held without having been created stays referenced or young.
  ghost predicate Guarded(minAge: nat, s: State) {
    forall e :: e in s.exporters && s.exporters[e].Holds? && !s.exporters[e].link.Created? ==>
      var sha := s.exporters[e].sha;
      sha in s.blobs ==> sha in References(s) || Young(minAge, s, sha)
  }

  // A row that a maintenance pass makes serviceable names no blob that the reaper
  // could be about to unlink, and none that has been unlinked since it was linked.
  ghost predicate Supported(minAge: nat, s: State, step: Step) {
    step.Edit? && step.r in s.rows && Serviceable(step.row) ==>
      var sha := step.row.sha.value;
      && (sha in s.blobs ==> sha in References(s) || Young(minAge, s, sha))
      && (step.r in s.linked && step.row.sha == s.rows[step.r].sha ==> sha in s.blobs)
  }

  // ----- What must hold -----

  // The reaper never unlinks a blob that is referenced at that moment.
  ghost predicate Safe(s: State, step: Step) {
    step.Unlink? ==> step.sha !in References(s)
  }

  // The bytes of every committed serviceable row that got its blob are there.
  ghost predicate BytesThere(s: State) {
    forall r :: r in s.linked && r in s.rows && Serviceable(s.rows[r]) ==> s.rows[r].sha.value in s.blobs
  }

  // ----- The invariant -----

  // Blobs the reaper has singled out: not yet looked at, or already condemned.
  ghost function Suspects(s: State): set<Sha> {
    match s.reaper
    case Resting => {}
    case Walking(_, walked) => walked
    case Judging(_, pending, doomed) => pending + doomed
    case Applying(_, todo) => todo
  }

  ghost predicate Old(minAge: nat, s: State, sha: Sha) {
    !s.reaper.Resting? && sha in s.blobs && s.blobs[sha] + minAge <= s.reaper.now
  }

  ghost predicate ClocksAgree(s: State) {
    && (forall sha :: sha in s.blobs ==> s.blobs[sha] <= s.clock)
    && (forall e :: e in s.exporters ==> s.exporters[e].mtime <= s.clock)
    && (!s.reaper.Resting? ==> s.reaper.now <= s.clock)
  }

  ghost predicate HoldersFine(minAge: nat, s: State) {
    forall e :: e in s.exporters && s.exporters[e].Holds? ==>
      var x := s.exporters[e];
      && (x.link.Created? && s.clock < x.mtime + minAge ==> x.sha in s.blobs && x.mtime <= s.blobs[x.sha])
      && (x.link.Adopted? ==> x.sha in s.blobs)
  }

  ghost predicate ReaperFine(minAge: nat, s: State) {
    && (forall sha :: sha in Suspects(s) ==> sha in s.blobs)
    && (!s.reaper.Walking? ==> forall sha :: sha in Suspects(s) && Old(minAge, s, sha) ==> sha !in References(s))
    && (s.reaper.Judging? ==> forall sha :: sha in s.reaper.doomed ==> Old(minAge, s, sha))
    && (s.reaper.Applying? ==> forall sha :: sha in s.reaper.todo ==> Old(minAge, s, sha))
  }

  ghost predicate Inv(minAge: nat, s: State) {
    ClocksAgree(s) && HoldersFine(minAge, s) && ReaperFine(minAge, s) && BytesThere(s)
  }

  lemma InitInv(minAge: nat, s: State)
    requires Init(s)
    ensures Inv(minAge, s)
  {
  }

  // An exporter that may still commit holds nothing the reaper has condemned.
  lemma HeldIsNotCondemned(minAge: nat, s: State, e: nat)
    requires Inv(minAge, s) && Guarded(minAge, s)
    requires e in s.exporters && s.exporters[e].Holds?
    requires s.exporters[e].link.Created? ==> s.clock < s.exporters[e].mtime + minAge
    requires s.exporters[e].sha in Suspects(s) && !s.reaper.Walking?
    ensures !Old(minAge, s, s.exporters[e].sha)
  {
  }

  lemma ReferencesGrowByCommit(s: State, r: nat, row: Row, s': State, sha: Sha)
    requires row.sha == Some(sha) && s'.rows == s.rows[r := row] && s'.versions <= s.versions + {sha}
    ensures forall x :: x in References(s') ==> x in References(s) || x == sha
  {
    forall x | x in References(s') ensures x in References(s) || x == sha {
      if x !in s'.versions {
        var r' :| r' in s'.rows && Serviceable(s'.rows[r']) && s'.rows[r'].sha.value == x;
        if r' != r {
          assert r' in s.rows && s.rows[r'] == s'.rows[r'];
        }
      }
    }
  }

  lemma EditKeepsInv(minAge: nat, s: State, step: Step, s': State)
    requires Inv(minAge, s) && Supported(minAge, s, step)
    requires step.Edit? && Next(minAge, s, step, s')
    ensures Inv(minAge, s')
  {
    if Serviceable(step.row) {
      ReferencesGrowByCommit(s, step.r, step.row, s', step.row.sha.value);
    } else {
      UnserviceableAddsNothing(s, step.r, step.row, s');
    }
  }

  lemma UnserviceableAddsNothing(s: State, r: nat, row: Row, s': State)
    requires !Serviceable(row) && s'.rows == s.rows[r := row] && s'.versions <= s.versions
    ensures References(s') <= References(s)
  {
    forall x | x in References(s') ensures x in References(s) {
      if x !in s'.versions {
        var r' :| r' in s'.rows && Serviceable(s'.rows[r']) && s'.rows[r'].sha.value == x;
        assert r' in s.rows && s.rows[r'] == s'.rows[r'];
      }
    }
  }

  lemma CommitKeepsInv(minAge: nat, s: State, step: Step, s': State)
    requires Inv(minAge, s) && Guarded(minAge, s) && Timely(minAge, s, step)
    requires step.Commit? && Next(minAge, s, step, s')
    ensures Inv(minAge, s')
  {
    var x := s.exporters[step.e];
    ReferencesGrowByCommit(s, step.r, step.row, s', x.sha);
    if x.sha in Suspects(s) && !s.reaper.Walking? {
      HeldIsNotCondemned(minAge, s, step.e);
    }
  }

  lemma UnlinkKeepsInv(minAge: nat, s: State, step: Step, s': State)
    requires Inv(minAge, s) && Guarded(minAge, s)
    requires step.Unlink? && Next(minAge, s, step, s')
    ensures Inv(minAge, s') && Safe(s, step)
  {
    assert Old(minAge, s, step.sha);
    forall r | r in s'.linked && r in s'.rows && Serviceable(s'.rows[r]) ensures s'.rows[r].sha.value in s'.blobs {
      assert s.rows[r].sha.value in References(s);
    }
    forall e | e in s.exporters && s.exporters[e].Holds? && s.exporters[e].sha == step.sha
      ensures s.exporters[e].link.Failed? || (s.exporters[e].link.Created? && s.clock >= s.exporters[e].mtime + minAge)
    {
    }
  }

  lemma RetireKeepsInv(minAge: nat, s: State, step: Step, s': State)
    requires Inv(minAge, s) && (step.Retire? || step.DropVersion? || step.Abort? || step.Tick?)
    requires Next(minAge, s, step, s')
    ensures Inv(minAge, s')
  {
    forall x | x in References(s') ensures x in References(s) {
      if x !in s'.versions {
        var r :| r in s'.rows && Serviceable(s'.rows[r]) && s'.rows[r].sha.value == x;
        assert r in s.rows && s.rows[r] == s'.rows[r];
      }
    }
  }

  lemma WriteKeepsInv(minAge: nat, s: State, step: Step, s': State)
    requires Inv(minAge, s) && step.Write? && Next(minAge, s, step, s')
    ensures Inv(minAge, s')
  {
    assert References(s') == References(s);
  }

  lemma MaterialiseKeepsInv(minAge: nat, s: State, step: Step, s': State)
    requires Inv(minAge, s) && (step.Materialise? || step.MaterialiseFails?) && Next(minAge, s, step, s')
    ensures Inv(minAge, s')
  {
    assert References(s') == References(s);
    assert forall sha :: sha in s.blobs ==> sha in s'.blobs && s'.blobs[sha] == s.blobs[sha];
  }

  lemma ScanKeepsInv(minAge: nat, s: State, step: Step, s': State)
    requires Inv(minAge, s) && (step.TakeNow? || step.Walk? || step.ReadReferences?) && Next(minAge, s, step, s')
    ensures Inv(minAge, s')
  {
    assert References(s') == References(s);
  }

  lemma JudgeKeepsInv(minAge: nat, s: State, step: Step, s': State)
    requires Inv(minAge, s) && (step.Stat? || step.StartApply? || step.Finish?) && Next(minAge, s, step, s')
    ensures Inv(minAge, s')
  {
    assert References(s') == References(s);
  }

  lemma StepKeepsInv(minAge: nat, s: State, step: Step, s': State)
    requires Inv(minAge, s) && Guarded(minAge, s) && Timely(minAge, s, step) && Supported(minAge, s, step)
    requires Next(minAge, s, step, s')
    ensures Inv(minAge, s') && Safe(s, step)
  {
    match step
    case Edit(_, _) => EditKeepsInv(minAge, s, step, s');
    case Commit(_, _, _, _) => CommitKeepsInv(minAge, s, step, s');
    case Unlink(_) => UnlinkKeepsInv(minAge, s, step, s');
    case Write(_, _, _) => WriteKeepsInv(minAge, s, step, s');
    case Materialise(_, _) => MaterialiseKeepsInv(minAge, s, step, s');
    case MaterialiseFails(_) => MaterialiseKeepsInv(minAge, s, step, s');
    case Tick => RetireKeepsInv(minAge, s, step, s');
    case Abort(_) => RetireKeepsInv(minAge, s, step, s');
    case Retire(_) => RetireKeepsInv(minAge, s, step, s');
    case DropVersion(_) => RetireKeepsInv(minAge, s, step, s');
    case Stat(_) => JudgeKeepsInv(minAge, s, step, s');
    case StartApply => JudgeKeepsInv(minAge, s, step, s');
    case Finish => JudgeKeepsInv(minAge, s, step, s');
    case _ => ScanKeepsInv(minAge, s, step, s');
  }

  // ----- Runs -----

  ghost predicate IsRun(minAge: nat, states: seq<State>, steps: seq<Step>) {
    && |states| == |steps| + 1
    && Init(states[0])
    && forall i :: 0 <= i < |steps| ==> Next(minAge, states[i], steps[i], states[i + 1])
  }

  ghost predicate AllTimely(minAge: nat, states: seq<State>, steps: seq<Step>)
    requires |states| == |steps| + 1
  {
    forall i :: 0 <= i < |steps| ==> Timely(minAge, states[i], steps[i])
  }

  ghost predicate AllSupported(minAge: nat, states: seq<State>, steps: seq<Step>)
    requires |states| == |steps| + 1
  {
    forall i :: 0 <= i < |steps| ==> Supported(minAge, states[i], steps[i])
  }

  ghost predicate AllGuarded(minAge: nat, states: seq<State>) {
    forall i :: 0 <= i < |states| ==> Guarded(minAge, states[i])
  }

  lemma {:induction false} RunKeepsInv(minAge: nat, states: seq<State>, steps: seq<Step>, k: nat)
    requires IsRun(minAge, states, steps)
    requires AllTimely(minAge, states, steps) && AllGuarded(minAge, states) && AllSupported(minAge, states, steps)
    requires k <= |steps|
    ensures Inv(minAge, states[k])
  {
    if k == 0 {
      InitInv(minAge, states[0]);
    } else {
      RunKeepsInv(minAge, states, steps, k - 1);
      StepKeepsInv(minAge, states[k - 1], steps[k - 1], states[k]);
    }
  }

  // In every interleaving that meets the conditions the reaper only unlinks
  // unreferenced blobs, and the bytes of every linked serviceable row are there.
  lemma ReaperIsSafe(minAge: nat, states: seq<State>, steps: seq<Step>)
    requires IsRun(minAge, states, steps)
    requires AllTimely(minAge, states, steps) && AllGuarded(minAge, states) && AllSupported(minAge, states, steps)
    ensures forall i :: 0 <= i < |steps| ==> Safe(states[i], steps[i])
    ensures forall i :: 0 <= i < |states| ==> BytesThere(states[i])
  {
    forall i | 0 <= i < |states| ensures BytesThere(states[i]) && (i < |steps| ==> Safe(states[i], steps[i])) {
      RunKeepsInv(minAge, states, steps, i);
      if i < |steps| {
        StepKeepsInv(minAge, states[i], steps[i], states[i + 1]);
      }
    }
  }

  // ----- How the race is lost, without any condition -----

  // The step writes the row, with a reference to the blob.
  predicate WritesRow(step: Step, r: nat, sha: Sha) {
    (step.Commit? || step.Edit?) && step.r == r && Serviceable(step.row) && step.row.sha == Some(sha)
  }

  predicate TouchesRow(step: Step, r: nat) {
    (step.Commit? || step.Edit? || step.Retire?) && step.r == r
  }

  predicate KeepsVersion(step: Step, sha: Sha) {
    step.Commit? && step.keepVersion && step.row.sha == Some(sha)
  }

  // A reference was written in step k and neither overwritten nor dropped before step j.
  ghost predicate WrittenAt(steps: seq<Step>, sha: Sha, k: nat, j: nat)
    requires k < j <= |steps|
  {
    || (exists r: nat :: WritesRow(steps[k], r, sha) && forall m: nat :: k < m < j ==> !TouchesRow(steps[m], r))
    || (KeepsVersion(steps[k], sha) && forall m: nat :: k < m < j ==> steps[m] != DropVersion(sha))
  }

  ghost predicate HasRow(s: State, r: nat, sha: Sha) {
    r in s.rows && Serviceable(s.rows[r]) && s.rows[r].sha == Some(sha)
  }

  lemma ReferencedIff(s: State, sha: Sha)
    ensures sha in References(s) <==> sha in s.versions || exists r: nat :: HasRow(s, r, sha)
  {
    if r: nat :| HasRow(s, r, sha) {
      assert s.rows[r].sha.value == sha;
    }
    if sha in References(s) && sha !in s.versions {
      var r :| r in s.rows && Serviceable(s.rows[r]) && s.rows[r].sha.value == sha;
      assert HasRow(s, r, sha);
    }
  }

  lemma RowStep(minAge: nat, s: State, step: Step, s': State, r: nat, sha: Sha)
    requires Next(minAge, s, step, s')
    ensures HasRow(s', r, sha) <==> if TouchesRow(step, r) then WritesRow(step, r, sha) else HasRow(s, r, sha)
  {
  }

  lemma VersionStep(minAge: nat, s: State, step: Step, s': State, sha: Sha)
    requires Next(minAge, s, step, s')
    ensures sha in s'.versions <==> KeepsVersion(step, sha) || (sha in s.versions && step != DropVersion(sha))
  {
  }

  // A new reference was written in between, and it still stands.
  lemma {:induction false} RowWasWritten(minAge: nat, states: seq<State>, steps: seq<Step>, r: nat, sha: Sha, i: nat, j: nat)
    returns (k: nat)
    requires IsRun(minAge, states, steps) && i <= j <= |steps|
    requires !HasRow(states[i], r, sha) && HasRow(states[j], r, sha)
    ensures i <= k < j && WritesRow(steps[k], r, sha) && forall m: nat :: k < m < j ==> !TouchesRow(steps[m], r)
  {
    RowStep(minAge, states[j - 1], steps[j - 1], states[j], r, sha);
    if TouchesRow(steps[j - 1], r) {
      k := j - 1;
    } else {
      k := RowWasWritten(minAge, states, steps, r, sha, i, j - 1);
    }
  }

  lemma {:induction false} VersionWasKept(minAge: nat, states: seq<State>, steps: seq<Step>, sha: Sha, i: nat, j: nat)
    returns (k: nat)
    requires IsRun(minAge, states, steps) && i <= j <= |steps|
    requires sha !in states[i].versions && sha in states[j].versions
    ensures i <= k < j && KeepsVersion(steps[k], sha) && forall m: nat :: k < m < j ==> steps[m] != DropVersion(sha)
  {
    VersionStep(minAge, states[j - 1], steps[j - 1], states[j], sha);
    if KeepsVersion(steps[j - 1], sha) {
      k := j - 1;
    } else {
      k := VersionWasKept(minAge, states, steps, sha, i, j - 1);
    }
  }

  lemma {:induction false} RowStands(minAge: nat, states: seq<State>, steps: seq<Step>, r: nat, sha: Sha, k: nat, j: nat)
    requires IsRun(minAge, states, steps) && k < j <= |steps|
    requires WritesRow(steps[k], r, sha) && forall m: nat :: k < m < j ==> !TouchesRow(steps[m], r)
    ensures HasRow(states[j], r, sha)
    decreases j
  {
    RowStep(minAge, states[j - 1], steps[j - 1], states[j], r, sha);
    if k < j - 1 {
      RowStands(minAge, states, steps, r, sha, k, j - 1);
    }
  }

  lemma {:induction false} VersionStands(minAge: nat, states: seq<State>, steps: seq<Step>, sha: Sha, k: nat, j: nat)
    requires IsRun(minAge, states, steps) && k < j <= |steps|
    requires KeepsVersion(steps[k], sha) && forall m: nat :: k < m < j ==> steps[m] != DropVersion(sha)
    ensures sha in states[j].versions
    decreases j
  {
    VersionStep(minAge, states[j - 1], steps[j - 1], states[j], sha);
    if k < j - 1 {
      VersionStands(minAge, states, steps, sha, k, j - 1);
    }
  }

  // A blob becomes referenced exactly by a write that still stands.
  lemma ReferencedSinceIff(minAge: nat, states: seq<State>, steps: seq<Step>, sha: Sha, i: nat, j: nat)
    requires IsRun(minAge, states, steps) && i <= j <= |steps|
    requires sha !in References(states[i])
    ensures sha in References(states[j]) <==> exists k: nat :: i <= k < j && WrittenAt(steps, sha, k, j)
  {
    ReferencedIff(states[i], sha);
    ReferencedIff(states[j], sha);
    if sha in states[j].versions {
      var k := VersionWasKept(minAge, states, steps, sha, i, j);
      assert WrittenAt(steps, sha, k, j);
    } else if r: nat :| HasRow(states[j], r, sha) {
      var k := RowWasWritten(minAge, states, steps, r, sha, i, j);
      assert WrittenAt(steps, sha, k, j);
    }
    if k: nat :| i <= k < j && WrittenAt(steps, sha, k, j) {
      WrittenIsReferenced(minAge, states, steps, sha, k, j);
    }
  }

  lemma WrittenIsReferenced(minAge: nat, states: seq<State>, steps: seq<Step>, sha: Sha, k: nat, j: nat)
    requires IsRun(minAge, states, steps) && k < j <= |steps| && WrittenAt(steps, sha, k, j)
    ensures sha in References(states[j])
  {
    ReferencedIff(states[j], sha);
    if r: nat :| WritesRow(steps[k], r, sha) && forall m: nat :: k < m < j ==> !TouchesRow(steps[m], r) {
      RowStands(minAge, states, steps, r, sha, k, j);
    } else {
      VersionStands(minAge, states, steps, sha, k, j);
    }
  }

  // Step i is the last time before step j that the reaper read the references.
  ghost predicate LastRead(steps: seq<Step>, i: nat, j: nat)
    requires j <= |steps|
  {
    i < j && steps[i].ReadReferences? && forall m: nat :: i < m < j ==> !steps[m].ReadReferences?
  }

  // Whatever the reaper has condemned was unreferenced when it read the references.
  lemma {:induction false} CondemnedWasUnreferenced(minAge: nat, states: seq<State>, steps: seq<Step>, j: nat, sha: Sha)
    returns (i: nat)
    requires IsRun(minAge, states, steps) && j <= |steps|
    requires (states[j].reaper.Judging? || states[j].reaper.Applying?) && sha in Suspects(states[j])
    ensures LastRead(steps, i, j) && sha !in References(states[i])
  {
    assert Next(minAge, states[j - 1], steps[j - 1], states[j]);
    if steps[j - 1].ReadReferences? {
      i := j - 1;
    } else {
      i := CondemnedWasUnreferenced(minAge, states, steps, j - 1, sha);
    }
  }

  // An unlink is unsafe if and only if, since the reaper read the references, a
  // reference to the blob was written that still stands.
  lemma UnsafeUnlinkIff(minAge: nat, states: seq<State>, steps: seq<Step>, j: nat)
    requires IsRun(minAge, states, steps) && j < |steps| && steps[j].Unlink?
    ensures !Safe(states[j], steps[j]) <==>
              exists i: nat, k: nat :: LastRead(steps, i, j) && i < k < j && WrittenAt(steps, steps[j].sha, k, j)
  {
    var sha := steps[j].sha;
    assert Next(minAge, states[j], steps[j], states[j + 1]);
    var i := CondemnedWasUnreferenced(minAge, states, steps, j, sha);
    ReferencedSinceIff(minAge, states, steps, sha, i, j);
    if k: nat :| i <= k < j && WrittenAt(steps, sha, k, j) {
      assert i < k;
    }
  }
}
