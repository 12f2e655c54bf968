/** Exactly when the promises that overlapping polls and late landings break are kept. */
module RelayerLimits {
  import opened Base
  import opened Nullifiers
  import opened RelayerProtocol
  import opened RelayerSafety
  import opened RelayerTheorems
  import opened RelayerCounterexamples
  import opened RelayerPayments

  // ---- By configuration ----------------------------------------------------------------------------

  /** No job can ever be picked. */
  predicate PicksNothing(c: Config) {
    c.maxConcurrent == 0 || c.maxAttempts == 0
  }

  ghost predicate Inert(c: Config, s: State) {
    && s.tasks == [] && s.activeJobs == 0 && s.resets == multiset{}
    && (forall p :: 0 <= p < |s.polls| ==> !s.polls[p].Marking? && (s.polls[p].Fetching? ==> c.maxAttempts == 0))
    && (forall j :: 0 <= j < |s.jobs| ==> s.jobs[j].status.Pending?)
  }

  lemma NothingEligible(jobs: seq<Job>, take: nat)
    ensures FindMany(jobs, 0, take) == []
  {
    NoneFrom(jobs, 0);
  }

  lemma {:induction false} NoneFrom(jobs: seq<Job>, from: nat)
    ensures EligibleFrom(jobs, 0, from) == []
    decreases |jobs| - from
  {
    if from < |jobs| { NoneFrom(jobs, from + 1); }
  }

  lemma StepKeepsInert(c: Config, s: State, a: Action)
    requires Enabled(c, s, a) && PicksNothing(c) && Inert(c, s)
    ensures Inert(c, Next(c, s, a))
  {
    if a.FetchOk? {
      NothingEligible(s.jobs, s.polls[a.poll].capacity);
    }
  }

  lemma {:induction false} RunKeepsInert(c: Config, s: State, actions: seq<Action>)
    requires IsRun(c, s, actions) && PicksNothing(c) && Inert(c, s)
    ensures Inert(c, Exec(c, s, actions))
    decreases |actions|
  {
    if actions != [] {
      StepKeepsInert(c, s, actions[0]);
      RunKeepsInert(c, Next(c, s, actions[0]), actions[1..]);
    }
  }

  lemma ReachedIsInert(c: Config, pool: nat, actions: seq<Action>, s: State)
    requires PicksNothing(c) && Reaches(c, pool, actions, s)
    ensures Inert(c, s)
  {
    RunKeepsInert(c, Init(pool), actions);
  }

  /** The limit is kept in every run. */
  ghost predicate KeepsLimit(c: Config) {
    forall pool, actions, s :: Reaches(c, pool, actions, s) ==> s.activeJobs <= c.maxConcurrent
  }

  /** ... which is so exactly for configurations that never pick a job. */
  lemma LimitKeptIff(c: Config)
    ensures KeepsLimit(c) <==> PicksNothing(c)
  {
    if PicksNothing(c) {
      forall pool, actions, s | Reaches(c, pool, actions, s) ensures s.activeJobs <= c.maxConcurrent {
        ReachedIsInert(c, pool, actions, s);
      }
    } else {
      var actions, s := LimitExceeded(c, 0);
    }
  }

  lemma SomeText() returns (text: string)
    ensures HashOf(text).Some?
  {
    text := seq(64, _ => '0');
    SendableIff(text);
  }

  /** Confirmed and failed rows are final in every run. */
  ghost predicate KeepsTerminal(c: Config) {
    forall pool, before, after, s, s' :: Reaches(c, pool, before, s) && Reaches(c, pool, after, s') && before <= after ==>
      RowsFinal(s, s')
  }

  ghost predicate RowsFinal(s: State, s': State) {
    forall j :: 0 <= j < |s.jobs| && Terminal(s.jobs[j]) ==> j < |s'.jobs| && s'.jobs[j] == s.jobs[j]
  }

  lemma TerminalKeptIff(c: Config)
    ensures KeepsTerminal(c) <==> PicksNothing(c)
  {
    if PicksNothing(c) {
      forall pool, before, after, s, s' | Reaches(c, pool, before, s) && Reaches(c, pool, after, s') && before <= after
        ensures RowsFinal(s, s')
      {
        ReachedIsInert(c, pool, before, s);
      }
    } else {
      var text := SomeText();
      var before, after, s, s' := ConfirmedOverwritten(c, 0, text, 0);
      assert Terminal(s.jobs[0]) && !RowsFinal(s, s');
    }
  }

  /** Even without overlapping polls: a failed job was never paid. */
  ghost predicate FailedIsUnpaid(c: Config) {
    forall pool, actions, s :: Reaches(c, pool, actions, s) && IsSerialRun(c, Init(pool), actions) ==> NoFailedRowPaid(s)
  }

  ghost predicate NoFailedRowPaid(s: State) {
    forall j :: 0 <= j < |s.jobs| && s.jobs[j].status.Failed? ==> !IsSpent(s.chain, s.jobs[j].nullifier)
  }

  lemma FailedUnpaidIff(c: Config)
    ensures FailedIsUnpaid(c) <==> PicksNothing(c)
  {
    if PicksNothing(c) {
      forall pool, actions, s | Reaches(c, pool, actions, s) && IsSerialRun(c, Init(pool), actions) ensures NoFailedRowPaid(s) {
        ReachedIsInert(c, pool, actions, s);
      }
    } else {
      var text := SomeText();
      var actions, s := PaidButFailed(c, 0, text, 0);
      assert s.jobs[0].status.Failed? && !NoFailedRowPaid(s);
    }
  }

  // ---- By state ----------------------------------------------------------------------------------------

  /** What a suspended poll can still launch. */
  function MayLaunch(p: Poll): int {
    match p
    case Fetching(capacity) => capacity
    case Marking(jobs) => |jobs|
    case Ended => 0
  }

  /** The active jobs and all that the suspended polls can still launch. */
  function Exposure(s: State): int {
    s.activeJobs + Total(s.polls, MayLaunch)
  }

  lemma StepKeepsExposure(c: Config, s: State, a: Action)
    requires Enabled(c, s, a) && !a.TimerFires? && s.activeJobs >= 0
    ensures Exposure(Next(c, s, a)) <= Exposure(s)
  {
    TotalNonNegative(s.polls);
    if a.FetchOk? {
      FindManyIs(s.jobs, c.maxAttempts, s.polls[a.poll].capacity);
      TotalUpdate(s.polls, a.poll, PollsAfter(c, s, a)[a.poll], MayLaunch);
    } else if a.FetchFails? || a.MarkOk? || a.MarkFails? {
      TotalUpdate(s.polls, a.poll, Ended, MayLaunch);
    }
  }

  lemma {:induction false} TotalNonNegative(polls: seq<Poll>)
    ensures Total(polls, MayLaunch) >= 0
  {
    if polls != [] { TotalNonNegative(polls[..|polls| - 1]); }
  }

  ghost predicate NoTimerFires(actions: seq<Action>) {
    forall i :: 0 <= i < |actions| ==> !actions[i].TimerFires?
  }

  lemma {:induction false} UnfinishedNonNegative(tasks: seq<Task>)
    ensures Total(tasks, Unfinished) >= 0
  {
    if tasks != [] { UnfinishedNonNegative(tasks[..|tasks| - 1]); }
  }

  lemma {:induction false} ExposureBounds(c: Config, s: State, actions: seq<Action>)
    requires IsRun(c, s, actions) && NoTimerFires(actions) && CountsTasks(s)
    ensures Exec(c, s, actions).activeJobs <= Exposure(s)
    decreases |actions|
  {
    UnfinishedNonNegative(s.tasks);
    TotalNonNegative(s.polls);
    if actions != [] {
      StepKeepsExposure(c, s, actions[0]);
      StepKeepsCount(c, s, actions[0]);
      assert forall i :: 0 <= i < |actions[1..]| ==> actions[1..][i] == actions[i + 1];
      ExposureBounds(c, Next(c, s, actions[0]), actions[1..]);
    }
  }

  // ---- All of it can be launched ----------------------------------------------------------------------

  /** A run without timers from `s` to `s'`. */
  ghost predicate Leads(c: Config, s: State, actions: seq<Action>, s': State) {
    IsRun(c, s, actions) && NoTimerFires(actions) && Exec(c, s, actions) == s'
  }

  lemma LeadsOn(c: Config, s: State, actions: seq<Action>, s': State, a: Action) returns (more: seq<Action>)
    requires Leads(c, s, actions, s') && Enabled(c, s', a) && !a.TimerFires?
    ensures Leads(c, s, more, Next(c, s', a))
  {
    RunAppend(c, s, actions, a);
    more := actions + [a];
  }

  function LongestName(jobs: seq<Job>): nat {
    if jobs == [] then 0
    else
      var before, last := LongestName(jobs[..|jobs| - 1]), |jobs[|jobs| - 1].nullifier|;
      if last > before then last else before
  }

  lemma {:induction false} NamesAreShorter(jobs: seq<Job>)
    ensures forall j :: 0 <= j < |jobs| ==> |jobs[j].nullifier| <= LongestName(jobs)
  {
    if jobs != [] { NamesAreShorter(jobs[..|jobs| - 1]); }
  }

  lemma {:induction false} EligibleAppend(jobs: seq<Job>, job: Job, maxAttempts: nat, from: nat)
    requires Eligible(job, maxAttempts) && from <= |jobs|
    ensures |EligibleFrom(jobs + [job], maxAttempts, from)| == |EligibleFrom(jobs, maxAttempts, from)| + 1
    decreases |jobs| - from
  {
    if from < |jobs| {
      EligibleAppend(jobs, job, maxAttempts, from + 1);
    } else {
      assert EligibleFrom(jobs + [job], maxAttempts, from + 1) == [];
    }
  }

  function EligibleCount(c: Config, s: State): nat {
    |EligibleFrom(s.jobs, c.maxAttempts, 0)|
  }

  lemma CreateOne(c: Config, start: State, actions: seq<Action>, s: State) returns (actions': seq<Action>, s': State)
    requires Leads(c, start, actions, s) && c.maxAttempts >= 1
    ensures Leads(c, start, actions', s') && EligibleCount(c, s') == EligibleCount(c, s) + 1
    ensures s'.polls == s.polls && s'.activeJobs == s.activeJobs
  {
    var name := Letters(LongestName(s.jobs) + 1);
    NamesAreShorter(s.jobs);
    assert !HasNullifier(s.jobs, name);
    actions' := LeadsOn(c, start, actions, s, Create(name, 0));
    s' := Next(c, s, Create(name, 0));
    EligibleAppend(s.jobs, Job(name, 0, Pending, 0, None), c.maxAttempts, 0);
  }

  lemma {:induction false} CreateEnough(c: Config, start: State, actions: seq<Action>, s: State, need: nat)
    returns (actions': seq<Action>, s': State)
    requires Leads(c, start, actions, s) && c.maxAttempts >= 1
    ensures Leads(c, start, actions', s') && EligibleCount(c, s') >= need
    ensures s'.polls == s.polls && s'.activeJobs == s.activeJobs
    decreases need - EligibleCount(c, s)
  {
    actions', s' := actions, s;
    if EligibleCount(c, s) < need {
      actions', s' := CreateOne(c, start, actions, s);
      actions', s' := CreateEnough(c, start, actions', s', need);
    }
  }

  ghost predicate Plenty(c: Config, s: State) {
    forall p :: 0 <= p < |s.polls| && s.polls[p].Fetching? ==> s.polls[p].capacity <= EligibleCount(c, s)
  }

  lemma FetchOne(c: Config, start: State, actions: seq<Action>, s: State, p: nat) returns (actions': seq<Action>, s': State)
    requires Leads(c, start, actions, s) && p < |s.polls| && s.polls[p].Fetching? && Plenty(c, s)
    ensures Leads(c, start, actions', s') && s'.jobs == s.jobs && Exposure(s') == Exposure(s)
    ensures |s'.polls| == |s.polls| && s'.polls[p].Marking? && s'.polls == s.polls[p := s'.polls[p]]
  {
    actions' := LeadsOn(c, start, actions, s, FetchOk(p));
    s' := Next(c, s, FetchOk(p));
    TotalUpdate(s.polls, p, s'.polls[p], MayLaunch);
  }

  /** Every fetch from poll `i` on answers as many jobs as the poll asked for. */
  lemma {:induction false} FetchEach(c: Config, start: State, actions: seq<Action>, s: State, i: nat)
    returns (actions': seq<Action>, s': State)
    requires Leads(c, start, actions, s) && i <= |s.polls| && Plenty(c, s)
    requires forall p :: 0 <= p < i ==> !s.polls[p].Fetching?
    ensures Leads(c, start, actions', s') && Exposure(s') == Exposure(s)
    ensures forall p :: 0 <= p < |s'.polls| ==> !s'.polls[p].Fetching?
    decreases |s.polls| - i
  {
    actions', s' := actions, s;
    if i < |s.polls| {
      if s.polls[i].Fetching? {
        actions', s' := FetchOne(c, start, actions, s, i);
      }
      actions', s' := FetchEach(c, start, actions', s', i + 1);
    }
  }

  lemma MarkOne(c: Config, start: State, actions: seq<Action>, s: State, p: nat) returns (actions': seq<Action>, s': State)
    requires Leads(c, start, actions, s) && p < |s.polls| && s.polls[p].Marking?
    ensures Leads(c, start, actions', s') && Exposure(s') == Exposure(s) && s'.polls == s.polls[p := Ended]
  {
    actions' := LeadsOn(c, start, actions, s, MarkOk(p));
    s' := Next(c, s, MarkOk(p));
    TotalUpdate(s.polls, p, Ended, MayLaunch);
  }

  lemma {:induction false} MarkEach(c: Config, start: State, actions: seq<Action>, s: State, i: nat)
    returns (actions': seq<Action>, s': State)
    requires Leads(c, start, actions, s) && i <= |s.polls|
    requires forall p :: 0 <= p < |s.polls| ==> !s.polls[p].Fetching?
    requires forall p :: 0 <= p < i ==> s.polls[p].Ended?
    ensures Leads(c, start, actions', s') && Exposure(s') == Exposure(s)
    ensures forall p :: 0 <= p < |s'.polls| ==> s'.polls[p].Ended?
    decreases |s.polls| - i
  {
    actions', s' := actions, s;
    if i < |s.polls| {
      if s.polls[i].Marking? {
        actions', s' := MarkOne(c, start, actions, s, i);
      }
      actions', s' := MarkEach(c, start, actions', s', i + 1);
    }
  }

  lemma {:induction false} EndedLaunchNothing(polls: seq<Poll>)
    requires forall p :: 0 <= p < |polls| ==> polls[p].Ended?
    ensures Total(polls, MayLaunch) == 0
  {
    if polls != [] { EndedLaunchNothing(polls[..|polls| - 1]); }
  }

  lemma {:induction false} PartOfTotal(polls: seq<Poll>, p: nat)
    requires p < |polls|
    ensures MayLaunch(polls[p]) <= Total(polls, MayLaunch)
  {
    TotalNonNegative(polls[..|polls| - 1]);
    if p < |polls| - 1 { PartOfTotal(polls[..|polls| - 1], p); }
  }

  /** A continuation, without any further timer, in which everything that can be launched is. */
  lemma ExposureIsReached(c: Config, s: State) returns (actions: seq<Action>, s': State)
    requires c.maxAttempts >= 1
    ensures Leads(c, s, actions, s') && s'.activeJobs == Exposure(s)
  {
    TotalNonNegative(s.polls);
    assert Leads(c, s, [], s);
    actions, s' := CreateEnough(c, s, [], s, Total(s.polls, MayLaunch));
    forall p | 0 <= p < |s'.polls| && s'.polls[p].Fetching? ensures s'.polls[p].capacity <= EligibleCount(c, s') {
      PartOfTotal(s'.polls, p);
    }
    actions, s' := FetchEach(c, s, actions, s', 0);
    actions, s' := MarkEach(c, s, actions, s', 0);
    EndedLaunchNothing(s'.polls);
  }

  /** Some continuation without any further timer exceeds the limit. */
  ghost predicate CanExceed(c: Config, s: State) {
    exists actions, s' :: Leads(c, s, actions, s') && s'.activeJobs > c.maxConcurrent
  }

  /** From any reachable state, with no further timer firing, the limit can be exceeded exactly when
      the active jobs and what the suspended polls can still launch are together above it. */
  lemma CanExceedIff(c: Config, pool: nat, actions: seq<Action>, s: State)
    requires Reaches(c, pool, actions, s) && c.maxAttempts >= 1
    ensures CanExceed(c, s) <==> Exposure(s) > c.maxConcurrent
  {
    InitInv(c, pool);
    RunKeepsInv(c, Init(pool), actions, pool);
    if Exposure(s) > c.maxConcurrent {
      var more, s' := ExposureIsReached(c, s);
    } else {
      forall more, s' | Leads(c, s, more, s') ensures s'.activeJobs <= c.maxConcurrent {
        ExposureBounds(c, s, more);
      }
    }
  }

  // ---- When a confirmed row can be written again ---------------------------------------------------------

  function TriesLeft(c: Config, try: nat): nat {
    if try <= c.maxAttempts then 2 * (c.maxAttempts - try) else 0
  }

  /** Steps until a live task that only meets failures records one. */
  function Distance(c: Config, phase: Phase): nat {
    match phase
    case Incrementing => 2 * c.maxAttempts + 5
    case Building(_, try) => TriesLeft(c, try) + 3
    case Awaiting(_, try, _) => TriesLeft(c, try) + 3
    case Confirming(_, _) => 2
    case Failing(_) => 1
    case _ => 0
  }

  /** The failing step of a live task. */
  function Setback(t: nat, phase: Phase): Action {
    match phase
    case Incrementing => IncrementOk(t)
    case Building(_, _) => BuildFails(t)
    case Awaiting(_, _, _) => SendFails(t)
    case Confirming(_, _) => RecordFails(t)
    case _ => RecordOk(t)
  }

  lemma SetbackAdvances(c: Config, s: State, t: nat)
    requires TaskIn(s, t) && Live(s.tasks[t]) && !s.tasks[t].phase.Failing? && c.maxAttempts >= 1
    ensures var a := Setback(t, s.tasks[t].phase);
      && Enabled(c, s, a) && !a.TimerFires? && TaskIn(Next(c, s, a), t)
      && var after := Next(c, s, a).tasks[t];
         after.job == s.tasks[t].job && Live(after) && Distance(c, after.phase) < Distance(c, s.tasks[t].phase)
  {
    hide ClockAfter, ActiveAfter, PollsAfter, ResetsAfter, JobsAfter, ChainAfter, LaunchedAfter;
    StepGrows(c, s, Setback(t, s.tasks[t].phase));
  }

  lemma {:induction false} LiveTaskRecords(c: Config, start: State, actions: seq<Action>, s: State, t: nat)
    returns (actions': seq<Action>, s': State)
    requires Leads(c, start, actions, s) && TaskIn(s, t) && Live(s.tasks[t]) && c.maxAttempts >= 1
    ensures Leads(c, start, actions', s')
    ensures s.tasks[t].job < |s'.jobs| && !s'.jobs[s.tasks[t].job].status.Confirmed?
    decreases Distance(c, s.tasks[t].phase)
  {
    if s.tasks[t].phase.Failing? {
      actions' := LeadsOn(c, start, actions, s, RecordOk(t));
      s' := Next(c, s, RecordOk(t));
    } else {
      var a := Setback(t, s.tasks[t].phase);
      SetbackAdvances(c, s, t);
      actions' := LeadsOn(c, start, actions, s, a);
      actions', s' := LiveTaskRecords(c, start, actions', Next(c, s, a), t);
    }
  }

  lemma PickedIsLaunched(c: Config, s: State, p: nat, j: JobId) returns (t: nat)
    requires p < |s.polls| && s.polls[p].Marking? && j in s.polls[p].jobs && j < |s.jobs|
    ensures var after := Next(c, s, MarkOk(p)); TaskIn(after, t) && after.tasks[t] == Task(j, Incrementing)
  {
    hide ClockAfter, ActiveAfter, PollsAfter, ResetsAfter, ChainAfter, LaunchedAfter;
    var ids := s.polls[p].jobs;
    var k :| 0 <= k < |ids| && ids[k] == j;
    t := |s.tasks| + k;
    NewTaskIs(s, ids, t);
  }

  /** Some continuation without any further timer has the row no longer confirmed. */
  ghost predicate CanLoseConfirmation(c: Config, s: State, j: JobId) {
    exists actions, s' :: Leads(c, s, actions, s') && j < |s'.jobs| && !s'.jobs[j].status.Confirmed?
  }

  lemma AttendedCanChange(c: Config, s: State, j: JobId)
    requires j < |s.jobs| && c.maxAttempts >= 1 && !Unattended(s, j)
    ensures CanLoseConfirmation(c, s, j)
  {
    assert Leads(c, s, [], s);
    if j in s.resets {
      var actions := LeadsOn(c, s, [], s, ResetOk(j));
    } else if exists t :: 0 <= t < |s.tasks| && !NotOn(s.tasks[t], j) {
      var t: nat :| t < |s.tasks| && !NotOn(s.tasks[t], j);
      var actions, s' := LiveTaskRecords(c, s, [], s, t);
    } else {
      var p: nat :| p < |s.polls| && !NotIn(s.polls[p], j);
      var t := PickedIsLaunched(c, s, p, j);
      var actions := LeadsOn(c, s, [], s, MarkOk(p));
      var actions', s' := LiveTaskRecords(c, s, actions, Next(c, s, MarkOk(p)), t);
    }
  }

  /** Polls may overlap and timers fire: an unattended confirmed row stays as it is. */
  lemma {:induction false} UnattendedIsFinal(c: Config, s: State, actions: seq<Action>, j: JobId)
    requires IsRun(c, s, actions) && Unattended(s, j) && j < |s.jobs| && !s.jobs[j].status.Pending?
    ensures j < |Exec(c, s, actions).jobs| && Exec(c, s, actions).jobs[j] == s.jobs[j]
    decreases |actions|
  {
    if actions != [] {
      StepKeepsUnattended(c, s, actions[0], j);
      UnattendedRowKept(c, s, actions[0], j);
      UnattendedIsFinal(c, Next(c, s, actions[0]), actions[1..], j);
    }
  }

  /** A confirmed row can lose its confirmation exactly when a live task, a poll that picked it or a
      reset still belongs to it. */
  lemma ConfirmedCanChangeIff(c: Config, s: State, j: JobId)
    requires j < |s.jobs| && s.jobs[j].status.Confirmed? && c.maxAttempts >= 1
    ensures CanLoseConfirmation(c, s, j) <==> !Unattended(s, j)
  {
    if Unattended(s, j) {
      forall actions, s' | Leads(c, s, actions, s') ensures j < |s'.jobs| && s'.jobs[j].status.Confirmed? {
        UnattendedIsFinal(c, s, actions, j);
      }
    } else {
      AttendedCanChange(c, s, j);
    }
  }
}
