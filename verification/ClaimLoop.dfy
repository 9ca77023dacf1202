// The live runner's claim loop (scripts/run_real_book_live.py:482-498, 936-1095).
module ClaimLoop {
  // The main thread claims work against a run summary that is out of date while its
  // workers, and perhaps other runners, commit to the database.

  import opened Wrappers

  datatype Phase = Working | Committed | Failed

  // What the main thread remembers of a future.
  datatype Job = Job(item: nat, phase: Phase)

  datatype Status = Active | Paused | Over

  datatype Summary = Summary(succeeded: nat, status: Status)

  datatype Pc =
    | Top
    | Claiming
    | Waiting
    | Handling(done: set<nat>)   // for future in done
    | Popped(done: set<nat>)     // popped, summary not refreshed yet
    | Settled(done: set<nat>)
    | Stopped

  datatype State = State(
    pc: Pc,
    db: set<nat>,                // work items whose row says "succeeded"
    inflight: map<nat, Job>,     // by future
    summary: Summary,
    foreign: nat,                // commits by other runners, ever
    unseen: nat)                 // and since the summary was read

  datatype Config = Config(cap: Option<int>, workers: nat)

  // ----- The pure parts of the script -----

  // max(1, min(args.parallel_workers, budget.max_parallel_workers))
  function EffectiveWorkers(parallel: int, budget: Option<int>): (w: nat)
    ensures w >= 1
    ensures w > 1 ==> w <= parallel && (budget.Some? ==> w <= budget.value)
    ensures w >= parallel || (budget.Some? && w >= budget.value)
  {
    var w := if parallel < 1 then 1 else parallel;
    if budget.None? then w else if budget.value < 1 then 1 else if budget.value < w then budget.value else w
  }

  predicate Capped(cap: Option<int>) {
    cap.Some? && cap.value > 0
  }

  predicate SliceTargetReached(summary: Summary, cap: Option<int>) {
    Capped(cap) && summary.succeeded >= cap.value
  }

  predicate SliceClaimBudgetExhausted(summary: Summary, cap: Option<int>, inflight: nat) {
    Capped(cap) && summary.succeeded + inflight >= cap.value
  }

  // ----- Steps -----

  datatype Step =
    | Housekeep(status: Status)
    | SkipHousekeeping
    | Claim(future: nat, item: nat)
    | NothingClaimed                       // no capacity, no budget, or no work item
    | Idle(status: Status)                 // nothing in flight: reconcile
    | Wait(done: set<nat>)                 // timed out if empty
    | Pop(future: nat)
    | Refresh(status: Status)
    | Settle
    | EndOfBatch
    | Interrupt
    | Commit(future: nat)                  // worker threads
    | Fail(future: nat)
    | ForeignCommit(item: nat)             // other runners

  predicate MayClaim(c: Config, s: State) {
    && |s.inflight| < c.workers
    && !SliceClaimBudgetExhausted(s.summary, c.cap, |s.inflight|)
    && !SliceTargetReached(s.summary, c.cap)
  }

  function Reread(s: State, status: Status): State {
    s.(summary := Summary(|s.db|, status), unseen := 0)
  }

  // The loop ends on a terminal status, but not while futures are in flight.
  function AfterBatch(s: State): Pc {
    if !s.summary.status.Active? && s.inflight == map[] then Stopped else Top
  }

  predicate Next(c: Config, s: State, step: Step, s': State) {
    match step
    case Housekeep(status) => s.pc.Top? && s' == Reread(s, status).(pc := Claiming)
    case SkipHousekeeping => s.pc.Top? && s' == s.(pc := Claiming)
    case Claim(f, item) =>
      s.pc.Claiming? && MayClaim(c, s) && f !in s.inflight && s' == s.(inflight := s.inflight[f := Job(item, Working)])
    case NothingClaimed => s.pc.Claiming? && s' == s.(pc := Waiting)
    case Idle(status) =>
      s.pc.Waiting? && s.inflight == map[] && s' == Reread(s, status).(pc := if status.Active? then Top else Stopped)
    case Wait(done) =>
      && s.pc.Waiting? && s.inflight != map[]
      && (forall f :: f in done ==> f in s.inflight && !s.inflight[f].phase.Working?)
      && s' == s.(pc := if done == {} then Top else Handling(done))
    case Pop(f) =>
      s.pc.Handling? && f in s.pc.done && s' == s.(inflight := s.inflight - {f}, pc := Popped(s.pc.done - {f}))
    case Refresh(status) => s.pc.Popped? && s' == Reread(s, status).(pc := Settled(s.pc.done))
    case Settle =>
      s.pc.Settled? &&
      var pause := SliceTargetReached(s.summary, c.cap) && s.summary.status.Active?;
      var t := if pause then Reread(s, Paused) else s;
      s' == t.(pc := if t.summary.status.Active? || t.inflight != map[] then Handling(s.pc.done) else Stopped)
    case EndOfBatch => s.pc.Handling? && s.pc.done == {} && s' == s.(pc := AfterBatch(s))
    case Interrupt => s' == s.(pc := Stopped)
    case Commit(f) =>
      f in s.inflight && s.inflight[f].phase.Working? &&
      s' == s.(inflight := s.inflight[f := s.inflight[f].(phase := Committed)], db := s.db + {s.inflight[f].item})
    case Fail(f) =>
      f in s.inflight && s.inflight[f].phase.Working? &&
      s' == s.(inflight := s.inflight[f := s.inflight[f].(phase := Failed)])
    case ForeignCommit(item) =>
      item !in s.db && s' == s.(db := s.db + {item}, foreign := s.foreign + 1, unseen := s.unseen + 1)
  }

  predicate Init(s: State) {
    s.pc.Top? && s.inflight == map[] && s.summary.succeeded == |s.db| && s.foreign == 0 && s.unseen == 0
  }

  // ----- The cap -----

  function Workers(inflight: map<nat, Job>): set<nat> {
    set f | f in inflight && inflight[f].phase.Working?
  }

  // Successes in the database and successes that may still come.
  function Exposure(s: State): nat {
    |s.db| + |Workers(s.inflight)|
  }

  // The summary lags behind by no more than the futures still in flight, and by
  // one more between taking a result and reading the summary again, which is also
  // where an interrupt may come.
  ghost predicate SummaryCovers(s: State) {
    Exposure(s) <= s.summary.succeeded + |s.inflight| + s.unseen + (if s.pc.Popped? || s.pc.Stopped? then 1 else 0)
  }

  ghost predicate PendingFinished(s: State) {
    s.pc.Handling? || s.pc.Popped? || s.pc.Settled? ==>
      forall f :: f in s.pc.done ==> f in s.inflight && !s.inflight[f].phase.Working?
  }

  function Ceiling(c: Config, start: nat): nat
    requires Capped(c.cap)
  {
    if start > c.cap.value then start else c.cap.value
  }

  // `start` is the number of successes when the loop began.
  ghost predicate Inv(c: Config, start: nat, s: State) {
    && |s.inflight| <= c.workers
    && s.summary.succeeded <= |s.db|
    && s.unseen <= s.foreign
    && SummaryCovers(s)
    && PendingFinished(s)
    && (Capped(c.cap) ==> Exposure(s) <= Ceiling(c, start) + s.foreign)
  }

  lemma InitInv(c: Config, s: State)
    requires Init(s)
    ensures Inv(c, |s.db|, s)
  {
    assert Workers(s.inflight) == {};
  }

  lemma WorkersAreInFlight(inflight: map<nat, Job>)
    ensures |Workers(inflight)| <= |inflight|
  {
    assert Workers(inflight) <= inflight.Keys;
    Within(Workers(inflight), inflight.Keys);
  }

  lemma {:induction false} Within(a: set<nat>, b: set<nat>)
    requires a <= b
    ensures |a| <= |b|
  {
    if a != {} {
      var x :| x in a;
      Within(a - {x}, b - {x});
    }
  }

  lemma ClaimKeepsInv(c: Config, start: nat, s: State, step: Step, s': State)
    requires Inv(c, start, s) && step.Claim? && Next(c, s, step, s')
    ensures Inv(c, start, s')
  {
    OneMoreWorker(s.inflight, step.future, step.item);
  }

  lemma OneMoreWorker(inflight: map<nat, Job>, f: nat, item: nat)
    requires f !in inflight
    ensures var after := inflight[f := Job(item, Working)];
            |after| == |inflight| + 1 && |Workers(after)| == |Workers(inflight)| + 1
  {
    var after := inflight[f := Job(item, Working)];
    assert Workers(after) == Workers(inflight) + {f};
    assert after.Keys == inflight.Keys + {f};
  }

  lemma PopKeepsInv(c: Config, start: nat, s: State, step: Step, s': State)
    requires Inv(c, start, s) && step.Pop? && Next(c, s, step, s')
    ensures Inv(c, start, s')
  {
    assert Workers(s'.inflight) == Workers(s.inflight);
    assert s'.inflight.Keys == s.inflight.Keys - {step.future};
  }

  lemma FinishKeepsInv(c: Config, start: nat, s: State, step: Step, s': State)
    requires Inv(c, start, s) && (step.Commit? || step.Fail?) && Next(c, s, step, s')
    ensures Inv(c, start, s')
  {
    assert Workers(s'.inflight) == Workers(s.inflight) - {step.future};
    assert s'.inflight.Keys == s.inflight.Keys;
    if step.Commit? {
      var item := s.inflight[step.future].item;
      assert item in s.db ==> s'.db == s.db;
    }
  }

  lemma StepKeepsInv(c: Config, start: nat, s: State, step: Step, s': State)
    requires Inv(c, start, s) && Next(c, s, step, s')
    ensures Inv(c, start, s')
  {
    WorkersAreInFlight(s.inflight);
    match step
    case Claim(_, _) => ClaimKeepsInv(c, start, s, step, s');
    case Pop(_) => PopKeepsInv(c, start, s, step, s');
    case Commit(_) => FinishKeepsInv(c, start, s, step, s');
    case Fail(_) => FinishKeepsInv(c, start, s, step, s');
    case _ =>
  }

  // ----- Runs -----

  ghost predicate Run(c: Config, states: seq<State>, steps: seq<Step>) {
    && |states| == |steps| + 1
    && Init(states[0])
    && forall i: nat :: i < |steps| ==> Next(c, states[i], steps[i], states[i + 1])
  }

  lemma {:induction false} RunKeepsInv(c: Config, states: seq<State>, steps: seq<Step>, k: nat)
    requires Run(c, states, steps) && k < |states|
    ensures Inv(c, |states[0].db|, states[k])
  {
    if k == 0 {
      InitInv(c, states[0]);
    } else {
      RunKeepsInv(c, states, steps, k - 1);
      StepKeepsInv(c, |states[0].db|, states[k - 1], steps[k - 1], states[k]);
    }
  }

  // One runner: what is done and what may still be done never exceeds the cap,
  // although every claim is decided on an old summary.
  lemma NeverOvershoots(c: Config, states: seq<State>, steps: seq<Step>, k: nat)
    requires Run(c, states, steps) && k < |states|
    requires Capped(c.cap) && |states[0].db| <= c.cap.value && states[k].foreign == 0
    ensures Exposure(states[k]) <= c.cap.value
  {
    RunKeepsInv(c, states, steps, k);
  }

  lemma NeverTooManyWorkers(c: Config, states: seq<State>, steps: seq<Step>, k: nat)
    requires Run(c, states, steps) && k < |states|
    ensures |Workers(states[k].inflight)| <= |states[k].inflight| <= c.workers
  {
    RunKeepsInv(c, states, steps, k);
    WorkersAreInFlight(states[k].inflight);
  }

  // Each commit by another runner costs at most one success over the cap.
  lemma OvershootIsForeign(c: Config, states: seq<State>, steps: seq<Step>, k: nat)
    requires Run(c, states, steps) && k < |states|
    requires Capped(c.cap) && |states[0].db| <= c.cap.value
    ensures Exposure(states[k]) <= c.cap.value + states[k].foreign
  {
    RunKeepsInv(c, states, steps, k);
  }

  // When the summary says that the target is reached, it is reached exactly and no
  // worker is still at it: the pause never abandons an item.
  lemma TargetMeansFinished(c: Config, states: seq<State>, steps: seq<Step>, k: nat)
    requires Run(c, states, steps) && k < |states|
    requires |states[0].db| <= if Capped(c.cap) then c.cap.value else 0
    requires states[k].foreign == 0
    requires SliceTargetReached(states[k].summary, c.cap)
    ensures |states[k].db| == states[k].summary.succeeded == c.cap.value
    ensures Workers(states[k].inflight) == {}
  {
    RunKeepsInv(c, states, steps, k);
  }

  // Unless it is interrupted, the loop ends only when the summary shows the run to be
  // paused or over and no future is under way.
  lemma {:induction false} EndsWhenDone(c: Config, states: seq<State>, steps: seq<Step>, k: nat)
    requires Run(c, states, steps) && k < |states| && Interrupt !in steps
    ensures states[k].pc.Stopped? ==> states[k].inflight == map[] && !states[k].summary.status.Active?
  {
    if k > 0 {
      EndsWhenDone(c, states, steps, k - 1);
      assert steps[k - 1] in steps && Next(c, states[k - 1], steps[k - 1], states[k]);
    }
  }

  // A run that starts above the cap claims nothing.
  lemma {:induction false} NothingAboveTheCap(c: Config, states: seq<State>, steps: seq<Step>, k: nat)
    requires Run(c, states, steps) && k < |states|
    requires Capped(c.cap) && |states[0].db| >= c.cap.value
    ensures states[k].inflight == map[] && states[k].summary.succeeded >= c.cap.value
    ensures |states[k].db| == |states[0].db| + states[k].foreign
  {
    if k > 0 {
      NothingAboveTheCap(c, states, steps, k - 1);
      assert Next(c, states[k - 1], steps[k - 1], states[k]);
    }
  }

  // ----- Not less than that -----

  // A claim is made whenever a worker is free and the items done and under way stay
  // below the cap.
  lemma ClaimsIff(c: Config, s: State)
    ensures MayClaim(c, s) <==>
              && |s.inflight| < c.workers
              && (c.cap.None? || c.cap.value <= 0 || s.summary.succeeded + |s.inflight| < c.cap.value)
  {
  }

  // So with nothing under way and the cap not reached, an item can be claimed.
  lemma NeverStuck(c: Config, s: State, f: nat, item: nat)
    requires s.pc.Claiming? && s.inflight == map[] && c.workers > 0
    requires c.cap.None? || c.cap.value <= 0 || s.summary.succeeded < c.cap.value
    ensures Next(c, s, Claim(f, item), s.(inflight := map[f := Job(item, Working)]))
  {
    assert s.inflight[f := Job(item, Working)] == map[f := Job(item, Working)];
  }

  // The first k items are done and read back, and nothing is under way.
  function AtRest(k: nat): State {
    if k == 0 then State(Top, {}, map[], Summary(0, Active), 0, 0)
    else State(Settled({}), Below(k), map[], Summary(k, Active), 0, 0)
  }

  // Without other runners every number of items up to the cap can get done.
  lemma {:induction false} ReachesTheCap(c: Config, k: nat) returns (states: seq<State>, steps: seq<Step>)
    requires c.workers > 0 && (Capped(c.cap) ==> k <= c.cap.value)
    ensures Run(c, states, steps) && states[0].db == {} && states[|steps|] == AtRest(k)
  {
    if k == 0 {
      states, steps := [AtRest(0)], [];
    } else {
      var before, done := ReachesTheCap(c, k - 1);
      var s := before[|done|];
      if k > 1 {
        before, done := Extend(c, before, done, Settle, s.(pc := Handling({})));
        before, done := Extend(c, before, done, EndOfBatch, s.(pc := Top));
      }
      states, steps := OneItem(c, before, done, k - 1);
    }
  }

  // One more item is claimed, done and read back.
  lemma OneItem(c: Config, before: seq<State>, done: seq<Step>, k: nat)
    returns (states: seq<State>, steps: seq<Step>)
    requires Run(c, before, done) && c.workers > 0 && (Capped(c.cap) ==> k < c.cap.value)
    requires before[|done|] == State(Top, Below(k), map[], Summary(k, Active), 0, 0)
    ensures Run(c, states, steps) && states[0] == before[0] && states[|steps|] == AtRest(k + 1)
  {
    var top := before[|done|];
    var busy := top.(inflight := map[0 := Job(k, Working)]);
    var over := top.(inflight := map[0 := Job(k, Committed)], db := Below(k + 1));
    states, steps := Extend(c, before, done, SkipHousekeeping, top.(pc := Claiming));
    assert top.inflight[0 := Job(k, Working)] == busy.inflight;
    states, steps := Extend(c, states, steps, Claim(0, k), busy.(pc := Claiming));
    assert busy.inflight[0 := Job(k, Committed)] == over.inflight;
    states, steps := Extend(c, states, steps, Commit(0), over.(pc := Claiming));
    states, steps := ReadBack(c, states, steps, over, k);
  }

  lemma ReadBack(c: Config, before: seq<State>, done: seq<Step>, over: State, k: nat)
    returns (states: seq<State>, steps: seq<Step>)
    requires Run(c, before, done) && before[|done|] == over.(pc := Claiming)
    requires over == State(Top, Below(k + 1), map[0 := Job(k, Committed)], Summary(k, Active), 0, 0)
    ensures Run(c, states, steps) && states[0] == before[0] && states[|steps|] == AtRest(k + 1)
  {
    states, steps := Extend(c, before, done, NothingClaimed, over.(pc := Waiting));
    states, steps := Extend(c, states, steps, Wait({0}), over.(pc := Handling({0})));
    assert over.inflight - {0} == map[] && {0} - {0} == {};
    states, steps := Extend(c, states, steps, Pop(0), over.(inflight := map[], pc := Popped({})));
    states, steps := Extend(c, states, steps, Refresh(Active), AtRest(k + 1));
  }

  // The loop pauses as soon as a reread summary shows the target, and stops when
  // nothing is under way any more.
  lemma PausesAtTheTarget(c: Config, s: State, s': State)
    requires Next(c, s, Settle, s') && Capped(c.cap) && s.summary.succeeded >= c.cap.value && s.summary.status.Active?
    ensures s'.summary.status.Paused? && (s.inflight == map[] ==> s'.pc.Stopped?)
  {
  }

  // ----- Two runners -----

  function Below(n: nat): (s: set<nat>)
    ensures |s| == n
    ensures forall i: nat :: i in s <==> i < n
  {
    if n == 0 then {} else Below(n - 1) + {n - 1}
  }

  // One item is left and claimed, and other runners have committed k items since.
  function Outrun(cap: nat, k: nat, item: nat, status: Status): State
    requires cap >= 1
  {
    State(Claiming, Below(cap - 1 + k), map[0 := Job(item, Working)], Summary(cap - 1, status), k, k)
  }

  lemma LastItemClaimed(cap: nat, workers: nat, item: nat, status: Status)
    returns (states: seq<State>, steps: seq<Step>)
    requires cap >= 1 && workers >= 1
    ensures Run(Config(Some(cap), workers), states, steps)
    ensures states[0].db == Below(cap - 1) && states[|steps|] == Outrun(cap, 0, item, status)
  {
    var s0 := State(Top, Below(cap - 1), map[], Summary(cap - 1, status), 0, 0);
    states := [s0, s0.(pc := Claiming), Outrun(cap, 0, item, status)];
    steps := [SkipHousekeeping, Claim(0, item)];
    assert Next(Config(Some(cap), workers), states[1], steps[1], states[2]);
  }

  lemma OneMoreForeign(c: Config, cap: nat, k: nat, item: nat, status: Status)
    requires cap >= 1
    ensures Next(c, Outrun(cap, k, item, status), ForeignCommit(cap - 1 + k), Outrun(cap, k + 1, item, status))
  {
    assert Below(cap + k) == Below(cap - 1 + k) + {cap - 1 + k};
  }

  lemma {:induction false} OtherRunners(cap: nat, workers: nat, k: nat, item: nat, status: Status)
    returns (states: seq<State>, steps: seq<Step>)
    requires cap >= 1 && workers >= 1
    ensures Run(Config(Some(cap), workers), states, steps)
    ensures states[0].db == Below(cap - 1) && states[|steps|] == Outrun(cap, k, item, status)
  {
    if k == 0 {
      states, steps := LastItemClaimed(cap, workers, item, status);
    } else {
      var c := Config(Some(cap), workers);
      var before, done := OtherRunners(cap, workers, k - 1, item, status);
      OneMoreForeign(c, cap, k - 1, item, status);
      states, steps := Extend(c, before, done, ForeignCommit(cap + k - 2), Outrun(cap, k, item, status));
    }
  }

  lemma Extend(c: Config, before: seq<State>, done: seq<Step>, step: Step, s: State)
    returns (states: seq<State>, steps: seq<Step>)
    requires Run(c, before, done) && Next(c, before[|done|], step, s)
    ensures Run(c, states, steps) && states[0] == before[0] && states[|steps|] == s
  {
    states, steps := before + [s], done + [step];
    forall i: nat | i < |steps| ensures Next(c, states[i], steps[i], states[i + 1]) {
      if i < |done| {
        assert states[i] == before[i] && states[i + 1] == before[i + 1] && steps[i] == done[i];
      }
    }
  }

  lemma LastCommit(cap: nat, workers: nat, k: nat, item: nat, status: Status) returns (last: State)
    requires cap >= 1 && item >= cap - 1 + k
    ensures Next(Config(Some(cap), workers), Outrun(cap, k, item, status), Commit(0), last)
    ensures last.foreign == k && |last.db| == Exposure(last) == cap + k
  {
    var s := Outrun(cap, k, item, status);
    last := s.(inflight := map[0 := Job(item, Committed)], db := s.db + {item});
    assert s.inflight[0 := Job(item, Committed)] == last.inflight;
    assert Workers(last.inflight) == {};
  }

  // The bound is attained, whatever the cap, the number of workers and the number
  // of commits by other runners.
  lemma TwoRunnersOvershoot(cap: nat, workers: nat, k: nat, status: Status)
    returns (states: seq<State>, steps: seq<Step>)
    requires cap >= 1 && workers >= 1
    ensures Run(Config(Some(cap), workers), states, steps) && |states[0].db| <= cap
    ensures var last := states[|steps|];
            last.foreign == k && |last.db| == Exposure(last) == cap + k
  {
    var c := Config(Some(cap), workers);
    var last := LastCommit(cap, workers, k, cap + k, status);
    var before, done := OtherRunners(cap, workers, k, cap + k, status);
    states, steps := Extend(c, before, done, Commit(0), last);
  }
}
