/** The queue never falls silent, never forgets a job, and uses every try it has. */
module RelayerLiveness {
  import opened Base
  import opened RelayerProtocol
  import opened RelayerSafety
  import opened RelayerTheorems

  // ---- Something will always poll -----------------------------------------------------------------

  function Suspended(p: Poll): int { if p.Ended? then 0 else 1 }

  /** The timers armed and the poll bodies suspended. */
  function Pulses(s: State): int {
    |s.clock.armed| + Total(s.polls, Suspended)
  }

  ghost predicate TimersFresh(s: State) {
    forall timer :: timer in s.clock.armed ==> timer < s.clock.nextTimer
  }

  ghost predicate Awake(s: State) {
    s.clock.running ==> s.clock.armed != {} || exists p :: 0 <= p < |s.polls| && Active(s.polls[p])
  }

  lemma StepKeepsTimersFresh(c: Config, s: State, a: Action)
    requires Enabled(c, s, a) && TimersFresh(s)
    ensures TimersFresh(Next(c, s, a))
  {
  }

  lemma ArmedGrows(armed: set<nat>, timer: nat)
    requires timer !in armed
    ensures |armed + {timer}| == |armed| + 1
  {
  }

  lemma ArmedShrinks(armed: set<nat>, timer: nat)
    ensures |armed - {timer}| == |armed| - if timer in armed then 1 else 0
  {
    if timer in armed {
      assert armed == (armed - {timer}) + {timer};
    } else {
      assert armed - {timer} == armed;
    }
  }

  lemma ScheduleArms(k: Clock)
    requires forall timer :: timer in k.armed ==> timer < k.nextTimer
    ensures |Schedule(k).armed| == |k.armed| + if k.running then 1 else 0
    ensures forall timer :: timer in Schedule(k).armed ==> timer < Schedule(k).nextTimer
    ensures Schedule(k).running == k.running
  {
    ArmedGrows(k.armed, k.nextTimer);
  }

  ghost predicate NothingToPick(c: Config, s: State) {
    forall j :: 0 <= j < |s.jobs| ==> !(s.jobs[j].status.Pending? && s.jobs[j].attempts < c.maxAttempts)
  }

  /** A poll body that ends before it launches anything: at capacity, or with nothing to pick. */
  ghost predicate EndsEarly(c: Config, s: State, a: Action) {
    (a.TimerFires? && c.maxConcurrent <= s.activeJobs) || (a.FetchOk? && NothingToPick(c, s))
  }

  lemma PicksNothingIff(c: Config, s: State, p: nat)
    requires Enabled(c, s, FetchOk(p))
    ensures Picked(c, s, p) == [] <==> NothingToPick(c, s)
  {
    FindManyIs(s.jobs, c.maxAttempts, s.polls[p].capacity);
    if Picked(c, s, p) != [] {
      assert Eligible(s.jobs[Picked(c, s, p)[0]], c.maxAttempts);
    }
  }

  /** What a timer that fires leaves: at capacity only timers, else one more poll that fetches as
      many jobs as there are free slots. */
  lemma TimerStartsPoll(c: Config, s: State, timer: nat)
    requires Enabled(c, s, TimerFires(timer)) && TimersFresh(s)
    ensures var after := Next(c, s, TimerFires(timer));
      && after.polls == (if s.activeJobs < c.maxConcurrent then s.polls + [Fetching(c.maxConcurrent - s.activeJobs)] else s.polls)
      && |after.clock.armed| == |s.clock.armed| - 1 + if s.clock.running && s.activeJobs >= c.maxConcurrent then 2 else 0
  {
    ArmedShrinks(s.clock.armed, timer);
    var fired := s.clock.(armed := s.clock.armed - {timer}, timer := None);
    ScheduleArms(fired);
    ScheduleArms(Schedule(fired));
  }

  /** What a poll picks: the oldest pending rows with attempts left, as many as it has free slots. */
  lemma FetchTakesOldest(c: Config, s: State, p: nat)
    requires Enabled(c, s, FetchOk(p))
    ensures Next(c, s, FetchOk(p)).polls[p].Ended? <==> NothingToPick(c, s)
    ensures !NothingToPick(c, s) ==>
      var poll, capacity := Next(c, s, FetchOk(p)).polls[p], s.polls[p].capacity;
      && poll.Marking? && |poll.jobs| <= capacity
      && (forall k :: 0 <= k < |poll.jobs| ==>
            poll.jobs[k] < |s.jobs| && s.jobs[poll.jobs[k]].status.Pending? && s.jobs[poll.jobs[k]].attempts < c.maxAttempts)
      && (forall k, l :: 0 <= k < l < |poll.jobs| ==> poll.jobs[k] < poll.jobs[l])
      && (forall j :: 0 <= j < |s.jobs| && s.jobs[j].status.Pending? && s.jobs[j].attempts < c.maxAttempts && j !in poll.jobs ==>
            |poll.jobs| == capacity && forall k :: 0 <= k < |poll.jobs| ==> poll.jobs[k] < j)
  {
    PicksNothingIff(c, s, p);
    FindManyIs(s.jobs, c.maxAttempts, s.polls[p].capacity);
  }

  /** What the update of the picked rows leaves: those still pending are processing, and every one
      that was picked has a new task, in order, and takes a slot. */
  lemma MarkLaunchesAll(c: Config, s: State, p: nat)
    requires Enabled(c, s, MarkOk(p))
    ensures var after, ids := Next(c, s, MarkOk(p)), s.polls[p].jobs;
      && after.polls == s.polls[p := Ended] && after.activeJobs == s.activeJobs + |ids|
      && |after.tasks| == |s.tasks| + |ids| && |after.jobs| == |s.jobs|
      && (forall t :: 0 <= t < |after.tasks| ==>
            after.tasks[t] == if t < |s.tasks| then s.tasks[t] else Task(ids[t - |s.tasks|], Incrementing))
      && (forall j :: 0 <= j < |s.jobs| ==>
            after.jobs[j] == if j in ids && s.jobs[j].status.Pending? then s.jobs[j].(status := Processing) else s.jobs[j])
  {
    hide ClockAfter, ResetsAfter, ChainAfter, LaunchedAfter;
  }

  lemma FetchEnds(c: Config, s: State, p: nat)
    requires Enabled(c, s, FetchOk(p)) && TimersFresh(s) && s.clock.running
    ensures Pulses(Next(c, s, FetchOk(p))) == Pulses(s) + if NothingToPick(c, s) then 1 else 0
  {
    PicksNothingIff(c, s, p);
    var k := s.clock.(backoffMs := 0);
    ScheduleArms(k);
    ScheduleArms(Schedule(k));
    TotalUpdate(s.polls, p, PollsAfter(c, s, FetchOk(p))[p], Suspended);
  }

  lemma PollEnds(c: Config, s: State, a: Action)
    requires Enabled(c, s, a) && TimersFresh(s) && s.clock.running && (a.MarkOk? || a.MarkFails? || a.FetchFails?)
    ensures Pulses(Next(c, s, a)) == Pulses(s)
  {
    ScheduleArms(s.clock);
    ScheduleArms(s.clock.(backoffMs := NextBackoff(s.clock.backoffMs)));
    TotalUpdate(s.polls, a.poll, Ended, Suspended);
  }

  lemma TimerPulses(c: Config, s: State, timer: nat)
    requires Enabled(c, s, TimerFires(timer)) && TimersFresh(s) && s.clock.running
    ensures Pulses(Next(c, s, TimerFires(timer))) == Pulses(s) + if c.maxConcurrent <= s.activeJobs then 1 else 0
  {
    TimerStartsPoll(c, s, timer);
    if s.activeJobs < c.maxConcurrent {
      TotalAppend(s.polls, Fetching(c.maxConcurrent - s.activeJobs), Suspended);
    }
  }

  /** While the processor runs, a poll body that ends early leaves one more timer or poll than there
      was, and everything else as many. */
  lemma StepPulses(c: Config, s: State, a: Action)
    requires Enabled(c, s, a) && TimersFresh(s) && s.clock.running && !a.Stop? && !a.Crash?
    ensures Pulses(Next(c, s, a)) == Pulses(s) + if EndsEarly(c, s, a) then 1 else 0
    ensures Next(c, s, a).clock.running
  {
    match a
    case TimerFires(timer) => TimerPulses(c, s, timer);
    case FetchOk(p) => FetchEnds(c, s, p);
    case FetchFails(_) => PollEnds(c, s, a);
    case MarkOk(_) => PollEnds(c, s, a);
    case MarkFails(_) => PollEnds(c, s, a);
    case _ =>
  }

  /** How often a poll body ended early. */
  ghost function EarlyEnds(c: Config, s: State, actions: seq<Action>): nat
    requires IsRun(c, s, actions)
    decreases |actions|
  {
    if actions == [] then 0
    else (if EndsEarly(c, s, actions[0]) then 1 else 0) + EarlyEnds(c, Next(c, s, actions[0]), actions[1..])
  }

  ghost predicate NeverStopped(actions: seq<Action>) {
    forall i :: 0 <= i < |actions| ==> !actions[i].Stop? && !actions[i].Crash?
  }

  /** So an idle or busy processor arms more and more timers: one for every poll that ended early. */
  lemma {:induction false} RunPulses(c: Config, s: State, actions: seq<Action>)
    requires IsRun(c, s, actions) && TimersFresh(s) && s.clock.running && NeverStopped(actions)
    ensures Pulses(Exec(c, s, actions)) == Pulses(s) + EarlyEnds(c, s, actions)
    decreases |actions|
  {
    if actions != [] {
      StepPulses(c, s, actions[0]);
      StepKeepsTimersFresh(c, s, actions[0]);
      assert forall i :: 0 <= i < |actions[1..]| ==> actions[1..][i] == actions[i + 1];
      RunPulses(c, Next(c, s, actions[0]), actions[1..]);
    }
  }

  // ---- When stopping silences it ----------------------------------------------------------------------

  /** One timer, the one the processor remembers, or one poll body. */
  ghost predicate OnePulse(s: State) {
    s.clock.running && Pulses(s) == 1
    && (s.clock.armed != {} ==> s.clock.timer.Some? && s.clock.armed == {s.clock.timer.value})
  }

  lemma PollIsTheOne(s: State, p: nat)
    requires OnePulse(s) && p < |s.polls| && Active(s.polls[p])
    ensures s.clock.armed == {}
  {
    TotalUpdate(s.polls, p, Ended, Suspended);
    TotalBounds(s.polls[p := Ended], Suspended, 0, 1);
  }

  lemma StepKeepsOnePulse(c: Config, s: State, a: Action)
    requires Enabled(c, s, a) && TimersFresh(s) && OnePulse(s) && !a.Stop? && !a.Crash? && !EndsEarly(c, s, a)
    ensures OnePulse(Next(c, s, a))
  {
    hide PollsAfter, TasksAfter, JobsAfter, ResetsAfter, ChainAfter, ActiveAfter, LaunchedAfter, Pulses;
    StepPulses(c, s, a);
    if a.FetchOk? || a.FetchFails? || a.MarkOk? || a.MarkFails? {
      PollIsTheOne(s, a.poll);
      if a.FetchOk? { PicksNothingIff(c, s, a.poll); }
    }
  }

  lemma {:induction false} RunKeepsOnePulse(c: Config, s: State, actions: seq<Action>)
    requires IsRun(c, s, actions) && TimersFresh(s) && OnePulse(s) && NeverStopped(actions)
    requires EarlyEnds(c, s, actions) == 0
    ensures OnePulse(Exec(c, s, actions))
    decreases |actions|
  {
    if actions != [] {
      StepKeepsOnePulse(c, s, actions[0]);
      StepKeepsTimersFresh(c, s, actions[0]);
      assert forall i :: 0 <= i < |actions[1..]| ==> actions[1..][i] == actions[i + 1];
      RunKeepsOnePulse(c, Next(c, s, actions[0]), actions[1..]);
    }
  }

  /** Stopping a processor none of whose polls ended early leaves no timer armed, and at most one poll
      body to finish; an early end leaves timers that stopping does not clear. */
  lemma StopClearsTimers(c: Config, actions: seq<Action>, pool: nat)
    requires var started := Next(c, Init(pool), Start);
      IsRun(c, started, actions) && NeverStopped(actions) && EarlyEnds(c, started, actions) == 0
    ensures var stopped := Next(c, Exec(c, Next(c, Init(pool), Start), actions), Stop);
      stopped.clock.armed == {} && Total(stopped.polls, Suspended) <= 1
  {
    RunKeepsOnePulse(c, Next(c, Init(pool), Start), actions);
  }

  // ---- It is never silent -------------------------------------------------------------------------------

  lemma StepKeepsAwake(c: Config, s: State, a: Action)
    requires Enabled(c, s, a) && Awake(s)
    ensures Awake(Next(c, s, a))
  {
    var polls' := PollsAfter(c, s, a);
    if s.clock.running && s.clock.armed == {} && !a.Crash? {
      var p :| 0 <= p < |s.polls| && Active(s.polls[p]);
      assert p < |polls'| && (polls'[p] == s.polls[p] || polls'[p].Marking? || ClockAfter(c, s, a).armed != {});
    } else if a.TimerFires? && s.activeJobs < c.maxConcurrent {
      assert Active(polls'[|s.polls|]);
    } else if a.FetchOk? && Picked(c, s, a.poll) != [] {
      assert Active(polls'[a.poll]);
    }
  }

  lemma {:induction false} RunKeepsAwake(c: Config, s: State, actions: seq<Action>)
    requires IsRun(c, s, actions) && Awake(s)
    ensures Awake(Exec(c, s, actions))
    decreases |actions|
  {
    if actions != [] {
      StepKeepsAwake(c, s, actions[0]);
      RunKeepsAwake(c, Next(c, s, actions[0]), actions[1..]);
    }
  }

  /** However polls overlap and whatever fails: a running processor has a timer armed or a poll
      body suspended, so it will poll again. */
  lemma NeverSilent(c: Config, actions: seq<Action>, pool: nat)
    requires IsRun(c, Init(pool), actions)
    ensures Awake(Exec(c, Init(pool), actions))
  {
    RunKeepsAwake(c, Init(pool), actions);
  }

  // ---- Rows are what was asked for -----------------------------------------------------------------------

  lemma CreateIs(c: Config, s: State, nullifier: string, amount: nat)
    ensures var jobs' := Next(c, s, Create(nullifier, amount)).jobs;
      if HasNullifier(s.jobs, nullifier) then jobs' == s.jobs
      else jobs' == s.jobs + [Job(nullifier, amount, Pending, 0, None)]
  {
  }

  lemma {:induction false} RowsKeepRequests(c: Config, s: State, actions: seq<Action>)
    requires IsRun(c, s, actions)
    ensures RowsGrow(s.jobs, Exec(c, s, actions).jobs)
    decreases |actions|
  {
    hide Next;
    if actions != [] {
      assert RowsGrow(s.jobs, Next(c, s, actions[0]).jobs) by { StepKeepsRequests(c, s, actions[0]); }
      RowsKeepRequests(c, Next(c, s, actions[0]), actions[1..]);
    }
  }

  lemma StepKeepsRequests(c: Config, s: State, a: Action)
    requires Enabled(c, s, a)
    ensures RowsGrow(s.jobs, Next(c, s, a).jobs)
  {
    hide JobsAfter;
    StepGrows(c, s, a);
  }

  /** Every row is one that a client asked for, with that client's amount. */
  lemma {:induction false} RowsWereRequested(c: Config, s: State, actions: seq<Action>, j: JobId)
    requires IsRun(c, s, actions) && |s.jobs| <= j < |Exec(c, s, actions).jobs|
    ensures var job := Exec(c, s, actions).jobs[j]; Create(job.nullifier, job.amount) in actions
    decreases |actions|
  {
    hide Next;
    var next := Next(c, s, actions[0]);
    if j < |next.jobs| {
      RowsKeepRequests(c, next, actions[1..]);
      NewRowIs(c, s, actions[0], j);
      assert actions[0] in actions;
    } else {
      RowsWereRequested(c, next, actions[1..], j);
    }
  }

  lemma NewRowIs(c: Config, s: State, a: Action, j: JobId)
    requires Enabled(c, s, a) && |s.jobs| <= j < |Next(c, s, a).jobs|
    ensures a == Create(Next(c, s, a).jobs[j].nullifier, Next(c, s, a).jobs[j].amount)
  {
  }

  /** ... and everything a client asked for has a row. */
  lemma {:induction false} RequestsHaveRows(c: Config, s: State, actions: seq<Action>, nullifier: string, amount: nat)
    requires IsRun(c, s, actions) && Create(nullifier, amount) in actions
    ensures HasNullifier(Exec(c, s, actions).jobs, nullifier)
    decreases |actions|
  {
    if actions[0] == Create(nullifier, amount) {
      var next := Next(c, s, actions[0]);
      CreateIs(c, s, nullifier, amount);
      assert HasNullifier(next.jobs, nullifier) by {
        if !HasNullifier(s.jobs, nullifier) { assert next.jobs[|s.jobs|].nullifier == nullifier; }
      }
      var j :| 0 <= j < |next.jobs| && next.jobs[j].nullifier == nullifier;
      RowsKeepRequests(c, next, actions[1..]);
      assert Exec(c, s, actions).jobs[j].nullifier == nullifier;
    } else {
      RequestsHaveRows(c, Next(c, s, actions[0]), actions[1..], nullifier, amount);
    }
  }

  // ---- No job is forgotten ---------------------------------------------------------------------------

  predicate WorksOn(tasks: seq<Task>, t: nat, j: JobId) {
    t < |tasks| && tasks[t].job == j && Live(tasks[t])
  }

  ghost predicate Tended(s: State, j: JobId) {
    j in s.resets || exists t :: WorksOn(s.tasks, t, j)
  }

  ghost predicate ProcessingIsTended(s: State) {
    forall j :: 0 <= j < |s.jobs| && s.jobs[j].status.Processing? ==> Tended(s, j)
  }

  lemma LaunchTends(c: Config, s: State, p: nat, j: JobId)
    requires Enabled(c, s, MarkOk(p)) && j in s.polls[p].jobs
    ensures Tended(Next(c, s, MarkOk(p)), j)
  {
    var ids := s.polls[p].jobs;
    var k :| 0 <= k < |ids| && ids[k] == j;
    NewTaskIs(s, ids, |s.tasks| + k);
    assert WorksOn(TasksAfter(c, s, MarkOk(p)), |s.tasks| + k, j);
  }

  lemma WorkGoesOn(c: Config, s: State, a: Action, j: JobId, t: nat)
    requires Enabled(c, s, a) && !a.Crash? && WorksOn(s.tasks, t, j) && j < |s.jobs|
    requires JobsAfter(c, s, a)[j].status.Processing?
    ensures j in ResetsAfter(c, s, a) || WorksOn(TasksAfter(c, s, a), t, j)
  {
    hide ClockAfter, ActiveAfter, PollsAfter, ChainAfter, LaunchedAfter;
    if IsTaskStep(a) && a.task == t {
      assert j in ResetsAfter(c, s, a) || Live(TasksAfter(c, s, a)[t]);
    }
  }

  lemma TendedStays(c: Config, s: State, a: Action, j: JobId)
    requires Enabled(c, s, a) && !a.Crash? && !a.ResetFails? && Tended(s, j) && j < |s.jobs|
    requires JobsAfter(c, s, a)[j].status.Processing?
    ensures Tended(Next(c, s, a), j)
  {
    hide ClockAfter, ActiveAfter, PollsAfter, ChainAfter, LaunchedAfter, TasksAfter;
    if j !in s.resets {
      var t :| WorksOn(s.tasks, t, j);
      WorkGoesOn(c, s, a, j, t);
    }
  }

  lemma StepKeepsTended(c: Config, s: State, a: Action)
    requires Enabled(c, s, a) && !a.Crash? && !a.ResetFails? && ProcessingIsTended(s)
    ensures ProcessingIsTended(Next(c, s, a))
  {
    hide ClockAfter, ActiveAfter, PollsAfter, ChainAfter, LaunchedAfter, TasksAfter, ResetsAfter;
    var jobs' := JobsAfter(c, s, a);
    forall j | 0 <= j < |jobs'| && jobs'[j].status.Processing? ensures Tended(Next(c, s, a), j) {
      assert j < |s.jobs|;
      if s.jobs[j].status.Processing? {
        TendedStays(c, s, a, j);
      } else {
        assert a.MarkOk? && j in s.polls[a.poll].jobs;
        LaunchTends(c, s, a.poll, j);
      }
    }
  }

  /** Neither a crash nor a failing reset. */
  ghost predicate Smooth(actions: seq<Action>) {
    forall i :: 0 <= i < |actions| ==> !actions[i].Crash? && !actions[i].ResetFails?
  }

  lemma {:induction false} RunKeepsTended(c: Config, s: State, actions: seq<Action>)
    requires IsRun(c, s, actions) && Smooth(actions) && ProcessingIsTended(s)
    ensures ProcessingIsTended(Exec(c, s, actions))
    decreases |actions|
  {
    if actions != [] {
      assert !actions[0].Crash? && !actions[0].ResetFails?;
      StepKeepsTended(c, s, actions[0]);
      assert forall i :: 0 <= i < |actions[1..]| ==> actions[1..][i] == actions[i + 1];
      RunKeepsTended(c, Next(c, s, actions[0]), actions[1..]);
    }
  }

  /** However polls overlap: without a crash or a failing reset, a row that is processing has a
      task that works on it or a reset on its way. */
  lemma NoJobIsForgotten(c: Config, actions: seq<Action>, pool: nat)
    requires IsRun(c, Init(pool), actions) && Smooth(actions)
    ensures ProcessingIsTended(Exec(c, Init(pool), actions))
  {
    RunKeepsTended(c, Init(pool), actions);
  }

  // ---- Pending rows can be picked --------------------------------------------------------------------

  /** No record of a failed attempt fails: the reset that follows would leave attempts used up. */
  ghost predicate RecordsFailures(s: State, a: Action) {
    a.RecordFails? && a.task < |s.tasks| ==> !s.tasks[a.task].phase.Failing?
  }

  ghost predicate Recording(c: Config, s: State, actions: seq<Action>)
    requires IsRun(c, s, actions)
    decreases |actions|
  {
    actions == [] || (RecordsFailures(s, actions[0]) && Recording(c, Next(c, s, actions[0]), actions[1..]))
  }

  /** Rows to be retried or reset have attempts left. */
  ghost predicate CanBeRetried(c: Config, s: State) {
    && (forall j :: 0 <= j < |s.jobs| && s.jobs[j].status.Pending? ==> s.jobs[j].attempts < c.maxAttempts)
    && (forall j :: j in s.resets && j < |s.jobs| ==> s.jobs[j].attempts < c.maxAttempts)
  }

  lemma TaskStepKeepsPending(c: Config, s: State, a: Action, j: JobId)
    requires Enabled(c, s, a) && IsTaskStep(a) && Exclusive(c, s) && CanBeRetried(c, s)
    requires j < |JobsAfter(c, s, a)| && JobsAfter(c, s, a)[j].status.Pending?
    ensures JobsAfter(c, s, a)[j].attempts < c.maxAttempts
  {
    hide ClockAfter, ActiveAfter, PollsAfter, ChainAfter, LaunchedAfter, TasksAfter, ResetsAfter;
    assert LiveOk(c, s.jobs, s.resets, s.tasks[a.task]);
  }

  lemma TaskStepKeepsResets(c: Config, s: State, a: Action, j: JobId)
    requires Enabled(c, s, a) && IsTaskStep(a) && Exclusive(c, s) && RecordsFailures(s, a) && CanBeRetried(c, s)
    requires j in ResetsAfter(c, s, a) && j < |JobsAfter(c, s, a)|
    ensures JobsAfter(c, s, a)[j].attempts < c.maxAttempts
  {
    hide ClockAfter, ActiveAfter, PollsAfter, ChainAfter, LaunchedAfter, TasksAfter;
    assert LiveOk(c, s.jobs, s.resets, s.tasks[a.task]);
  }

  lemma TaskStepKeepsRetried(c: Config, s: State, a: Action)
    requires Enabled(c, s, a) && IsTaskStep(a) && Exclusive(c, s) && RecordsFailures(s, a) && CanBeRetried(c, s)
    ensures CanBeRetried(c, Next(c, s, a))
  {
    hide ClockAfter, ActiveAfter, PollsAfter, ChainAfter, LaunchedAfter, TasksAfter, ResetsAfter, JobsAfter;
    forall j | 0 <= j < |JobsAfter(c, s, a)| && JobsAfter(c, s, a)[j].status.Pending?
      ensures JobsAfter(c, s, a)[j].attempts < c.maxAttempts
    {
      TaskStepKeepsPending(c, s, a, j);
    }
    forall j | j in ResetsAfter(c, s, a) && j < |JobsAfter(c, s, a)| ensures JobsAfter(c, s, a)[j].attempts < c.maxAttempts {
      TaskStepKeepsResets(c, s, a, j);
    }
  }

  lemma StepKeepsRetried(c: Config, s: State, a: Action)
    requires Enabled(c, s, a) && Exclusive(c, s) && RecordsFailures(s, a) && CanBeRetried(c, s) && c.maxAttempts > 0
    ensures CanBeRetried(c, Next(c, s, a))
  {
    hide ClockAfter, ActiveAfter, PollsAfter, ChainAfter, LaunchedAfter, TasksAfter;
    if IsTaskStep(a) {
      TaskStepKeepsRetried(c, s, a);
    }
  }

  lemma {:induction false} RunKeepsRetried(c: Config, s: State, actions: seq<Action>, initialPool: nat)
    requires IsSerialRun(c, s, actions) && IsRun(c, s, actions) && Recording(c, s, actions)
    requires RunInv(c, s, initialPool) && SerialInv(c, s) && CanBeRetried(c, s) && c.maxAttempts > 0
    ensures CanBeRetried(c, Exec(c, s, actions))
    decreases |actions|
  {
    if actions != [] {
      StepKeepsRunInv(c, s, actions[0], initialPool);
      StepKeepsSerialInv(c, s, actions[0]);
      StepKeepsRetried(c, s, actions[0]);
      RunKeepsRetried(c, Next(c, s, actions[0]), actions[1..], initialPool);
    }
  }

  /** Where a job can be: done, to be picked by a poll, or in somebody's hands. */
  ghost predicate Placed(c: Config, s: State, j: JobId)
    requires j < |s.jobs|
  {
    match s.jobs[j].status
    case Confirmed => true
    case Failed => s.jobs[j].attempts == c.maxAttempts
    case Pending => s.jobs[j].attempts < c.maxAttempts
    case Processing => Tended(s, j)
  }

  /** With one poll body at a time, and unless the process crashes or the record of a failure is
      lost, no job is ever stuck: it is confirmed, failed with all attempts used, pending with
      attempts left, or worked on. */
  lemma NoJobIsStuck(c: Config, actions: seq<Action>, j: JobId, pool: nat)
    requires IsSerialRun(c, Init(pool), actions) && IsRun(c, Init(pool), actions)
    requires Smooth(actions) && Recording(c, Init(pool), actions) && c.maxAttempts > 0
    requires j < |Exec(c, Init(pool), actions).jobs|
    ensures Placed(c, Exec(c, Init(pool), actions), j)
  {
    InitInv(c, pool);
    SerialSafety(c, actions, pool);
    NoJobIsForgotten(c, actions, pool);
    RunKeepsRetried(c, Init(pool), actions, pool);
  }

  // ---- Every try is used ------------------------------------------------------------------------------

  /** How often a try of the task failed. */
  function FailedTries(actions: seq<Action>, t: nat): nat {
    if actions == [] then 0
    else FailedTries(actions[..|actions| - 1], t) + if Fails(actions[|actions| - 1], t) then 1 else 0
  }

  predicate Fails(a: Action, t: nat) {
    (a.BuildFails? || a.SendFails?) && a.task == t
  }

  lemma {:induction false} FailedTriesCons(actions: seq<Action>, t: nat)
    requires actions != []
    ensures FailedTries(actions, t) == FailedTries(actions[1..], t) + if Fails(actions[0], t) then 1 else 0
  {
    var last := |actions| - 1;
    if last > 0 {
      FailedTriesCons(actions[..last], t);
      assert actions[..last][1..] == actions[1..][..last - 1];
    } else {
      assert actions[1..] == [] && actions[..0] == [];
    }
  }

  /** Tries a task still has to lose before it gives up. */
  function TriesToLose(c: Config, phase: Phase): int {
    match phase
    case Incrementing => c.maxAttempts
    case Building(_, try) => c.maxAttempts - try + 1
    case Awaiting(_, try, _) => c.maxAttempts - try + 1
    case _ => 0
  }

  predicate InLoop(c: Config, phase: Phase) {
    (phase.Building? || phase.Awaiting?) ==> 1 <= phase.try <= c.maxAttempts
  }

  predicate Leaves(a: Action, t: nat) {
    a.Crash? || (a.RecordFails? && a.task == t)
  }

  lemma StepLoses(c: Config, s: State, a: Action, t: nat)
    requires Enabled(c, s, a) && TaskIn(s, t) && InLoop(c, s.tasks[t].phase) && !Leaves(a, t)
    ensures TaskIn(Next(c, s, a), t) && InLoop(c, Next(c, s, a).tasks[t].phase)
    ensures var before, after := s.tasks[t].phase, Next(c, s, a).tasks[t].phase;
      && (before.Confirming? || before.Settling? || before.Settled? ==> after.Confirming? || after.Settling? || after.Settled?)
      && (!before.Confirming? && !before.Settling? && !before.Settled? ==>
            after.Confirming? || after.Settling? || after.Settled?
            || TriesToLose(c, after) == TriesToLose(c, before) - if Fails(a, t) then 1 else 0)
  {
    StepGrows(c, s, a);
  }

  /** From its first step to the record of a failure, a task that never crashed and whose records
      were kept lost exactly `maxAttempts` tries. */
  lemma {:induction false} GivesUpAfterAllTries(c: Config, s: State, actions: seq<Action>, t: nat)
    requires IsRun(c, s, actions) && TaskIn(s, t) && InLoop(c, s.tasks[t].phase)
    requires forall i :: 0 <= i < |actions| ==> !Leaves(actions[i], t)
    ensures TaskIn(Exec(c, s, actions), t)
    ensures Exec(c, s, actions).tasks[t].phase.Failing? ==>
      !s.tasks[t].phase.Confirming? && !s.tasks[t].phase.Settling? && !s.tasks[t].phase.Settled?
      && FailedTries(actions, t) == TriesToLose(c, s.tasks[t].phase)
    decreases |actions|
  {
    if actions != [] {
      assert !Leaves(actions[0], t);
      StepLoses(c, s, actions[0], t);
      assert forall i :: 0 <= i < |actions[1..]| ==> actions[1..][i] == actions[i + 1];
      GivesUpAfterAllTries(c, Next(c, s, actions[0]), actions[1..], t);
      FailedTriesCons(actions, t);
    }
  }

  lemma AllTriesAreUsed(c: Config, s: State, actions: seq<Action>, t: nat)
    requires IsRun(c, s, actions) && TaskIn(s, t) && s.tasks[t].phase.Incrementing?
    requires forall i :: 0 <= i < |actions| ==> !Leaves(actions[i], t)
    ensures TaskIn(Exec(c, s, actions), t)
    ensures Exec(c, s, actions).tasks[t].phase.Failing? ==> FailedTries(actions, t) == c.maxAttempts
  {
    GivesUpAfterAllTries(c, s, actions, t);
  }
}
