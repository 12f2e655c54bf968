/** Runs of the relayer that break what its comments promise. */
module RelayerCounterexamples {
  import opened Base
  import opened Nullifiers
  import opened RelayerProtocol
  import opened RelayerSafety
  import opened RelayerTheorems

  ghost predicate Reaches(c: Config, pool: nat, actions: seq<Action>, s: State) {
    IsRun(c, Init(pool), actions) && Exec(c, Init(pool), actions) == s
  }

  lemma Then(c: Config, pool: nat, actions: seq<Action>, s: State, a: Action) returns (actions': seq<Action>, s': State)
    requires Reaches(c, pool, actions, s) && Enabled(c, s, a)
    ensures s' == Next(c, s, a) && actions' == actions + [a] && Reaches(c, pool, actions', s')
    ensures IsSerialRun(c, Init(pool), actions) && SerialStep(s, a) ==> IsSerialRun(c, Init(pool), actions')
  {
    RunAppend(c, Init(pool), actions, a);
    actions', s' := actions + [a], Next(c, s, a);
  }

  // ---- Steps of the only job ---------------------------------------------------------------------

  lemma FindOne(jobs: seq<Job>, maxAttempts: nat, take: nat)
    requires |jobs| == 1 && take > 0
    ensures FindMany(jobs, maxAttempts, take) == if Eligible(jobs[0], maxAttempts) then [0] else []
  {
    assert EligibleFrom(jobs, maxAttempts, 1) == [];
  }

  lemma CreateFirst(c: Config, pool: nat, actions: seq<Action>, s: State, text: string, amount: nat)
    returns (actions': seq<Action>, s': State)
    requires Reaches(c, pool, actions, s) && s.jobs == []
    ensures Reaches(c, pool, actions', s') && s' == s.(jobs := [Job(text, amount, Pending, 0, None)])
    ensures IsSerialRun(c, Init(pool), actions) ==> IsSerialRun(c, Init(pool), actions')
  {
    actions', s' := Then(c, pool, actions, s, Create(text, amount));
  }

  /** A suspended fetch picks the only job. */
  lemma FetchOnlyJob(c: Config, pool: nat, actions: seq<Action>, s: State, p: nat)
    returns (actions': seq<Action>, s': State)
    requires Reaches(c, pool, actions, s) && |s.jobs| == 1 && Eligible(s.jobs[0], c.maxAttempts)
    requires p < |s.polls| && s.polls[p].Fetching?
    ensures Reaches(c, pool, actions', s')
    ensures s' == s.(polls := s.polls[p := Marking([0])], clock := s.clock.(backoffMs := 0))
    ensures IsSerialRun(c, Init(pool), actions) ==> IsSerialRun(c, Init(pool), actions')
  {
    FindOne(s.jobs, c.maxAttempts, s.polls[p].capacity);
    actions', s' := Then(c, pool, actions, s, FetchOk(p));
  }

  /** A suspended mark of the only job launches it, whatever its row says. */
  lemma MarkOnlyJob(c: Config, pool: nat, actions: seq<Action>, s: State, p: nat)
    returns (actions': seq<Action>, s': State)
    requires Reaches(c, pool, actions, s) && |s.jobs| == 1 && (s.jobs[0].status.Pending? || s.jobs[0].status.Processing?)
    requires p < |s.polls| && s.polls[p] == Marking([0])
    ensures Reaches(c, pool, actions', s') && s'.jobs == [s.jobs[0].(status := Processing)]
    ensures s'.tasks == s.tasks + [Task(0, Incrementing)] && s'.activeJobs == s.activeJobs + 1
    ensures s'.polls == s.polls[p := Ended] && s'.chain == s.chain && s'.clock == Schedule(s.clock)
    ensures IsSerialRun(c, Init(pool), actions) ==> IsSerialRun(c, Init(pool), actions')
  {
    hide IsRun, IsSerialRun, Exec;
    actions', s' := Then(c, pool, actions, s, MarkOk(p));
    assert s'.jobs == [s.jobs[0].(status := Processing)];
  }

  /** The task records the attempt. */
  lemma RecordAttempt(c: Config, pool: nat, actions: seq<Action>, s: State, t: nat)
    returns (actions': seq<Action>, s': State)
    requires Reaches(c, pool, actions, s) && c.maxAttempts >= 1
    requires t < |s.tasks| && s.tasks[t] == Task(0, Incrementing) && |s.jobs| == 1
    ensures Reaches(c, pool, actions', s') && actions <= actions'
    ensures IsSerialRun(c, Init(pool), actions) ==> IsSerialRun(c, Init(pool), actions')
    ensures var attempt := s.jobs[0].attempts + 1;
      s' == s.(jobs := [s.jobs[0].(attempts := attempt)], tasks := s.tasks[t := Task(0, Building(attempt, 1))])
  {
    actions', s' := Then(c, pool, actions, s, IncrementOk(t));
    assert s'.jobs == [s.jobs[0].(attempts := s.jobs[0].attempts + 1)];
  }

  /** The task submits its transaction. */
  lemma SendOnce(c: Config, pool: nat, actions: seq<Action>, s: State, t: nat, attempt: nat, try: nat)
    returns (actions': seq<Action>, s': State)
    requires Reaches(c, pool, actions, s)
    requires t < |s.tasks| && s.tasks[t] == Task(0, Building(attempt, try)) && |s.jobs| == 1 && CanSend(s.jobs[0])
    ensures Reaches(c, pool, actions', s') && actions <= actions'
    ensures IsSerialRun(c, Init(pool), actions) ==> IsSerialRun(c, Init(pool), actions')
    ensures s' == s.(tasks := s.tasks[t := Task(0, Awaiting(attempt, try, |s.chain.txs|))],
                     chain := Submit(s.chain, WithdrawalOf(s.jobs, 0)))
  {
    actions', s' := Then(c, pool, actions, s, Send(t));
  }

  /** The send times out; the transaction stays where it is. */
  lemma TimeOut(c: Config, pool: nat, actions: seq<Action>, s: State, t: nat, attempt: nat, try: nat, x: nat)
    returns (actions': seq<Action>, s': State)
    requires Reaches(c, pool, actions, s)
    requires t < |s.tasks| && s.tasks[t] == Task(0, Awaiting(attempt, try, x)) && |s.jobs| == 1
    ensures Reaches(c, pool, actions', s') && actions <= actions'
    ensures IsSerialRun(c, Init(pool), actions) ==> IsSerialRun(c, Init(pool), actions')
    ensures s' == s.(tasks := s.tasks[t := Task(0, AfterFailedTry(c, attempt, try))])
  {
    actions', s' := Then(c, pool, actions, s, SendFails(t));
  }

  /** Every remaining try fails before anything is sent. */
  lemma {:induction false} FailTries(c: Config, pool: nat, actions: seq<Action>, s: State, t: nat, attempt: nat, try: nat)
    returns (actions': seq<Action>, s': State)
    requires Reaches(c, pool, actions, s) && try <= c.maxAttempts
    requires t < |s.tasks| && s.tasks[t] == Task(0, Building(attempt, try)) && |s.jobs| == 1
    ensures Reaches(c, pool, actions', s') && actions <= actions'
    ensures IsSerialRun(c, Init(pool), actions) ==> IsSerialRun(c, Init(pool), actions')
    ensures s' == s.(tasks := s.tasks[t := Task(0, Failing(attempt))])
    decreases c.maxAttempts - try
  {
    actions', s' := Then(c, pool, actions, s, BuildFails(t));
    assert s' == s.(tasks := s.tasks[t := Task(0, AfterFailedTry(c, attempt, try))]);
    if try + 1 <= c.maxAttempts {
      actions', s' := FailTries(c, pool, actions', s', t, attempt, try + 1);
    }
  }

  /** The failed attempt is recorded. */
  lemma RecordFailure(c: Config, pool: nat, actions: seq<Action>, s: State, t: nat, attempt: nat)
    returns (actions': seq<Action>, s': State)
    requires Reaches(c, pool, actions, s)
    requires t < |s.tasks| && s.tasks[t] == Task(0, Failing(attempt)) && |s.jobs| == 1
    ensures Reaches(c, pool, actions', s') && actions <= actions'
    ensures IsSerialRun(c, Init(pool), actions) ==> IsSerialRun(c, Init(pool), actions')
    ensures s' == s.(jobs := [s.jobs[0].(status := if attempt >= c.maxAttempts then Failed else Pending)],
                     tasks := s.tasks[t := Task(0, Settling)])
  {
    actions', s' := Then(c, pool, actions, s, RecordOk(t));
    assert s'.jobs == [s.jobs[0].(status := if attempt >= c.maxAttempts then Failed else Pending)];
  }

  lemma LandFirst(c: Config, pool: nat, actions: seq<Action>, s: State)
    returns (actions': seq<Action>, s': State)
    requires Reaches(c, pool, actions, s) && |s.chain.txs| == 1 && s.chain.txs[0].state == InFlight
    requires s.chain.txs[0].nullifier !in s.chain.spent && s.chain.txs[0].amount <= s.chain.pool
    ensures Reaches(c, pool, actions', s') && actions <= actions'
    ensures IsSerialRun(c, Init(pool), actions) ==> IsSerialRun(c, Init(pool), actions')
    ensures s'.jobs == s.jobs && s'.tasks == s.tasks && |s'.chain.txs| == 1 && s'.chain.txs[0].state == Landed
    ensures s'.chain.spent == s.chain.spent + {s.chain.txs[0].nullifier}
    ensures s'.chain.pool == s.chain.pool - s.chain.txs[0].amount
  {
    actions', s' := Then(c, pool, actions, s, Land(0));
  }

  lemma ConfirmFirst(c: Config, pool: nat, actions: seq<Action>, s: State, t: nat, attempt: nat)
    returns (actions': seq<Action>, s': State)
    requires Reaches(c, pool, actions, s) && |s.chain.txs| == 1 && s.chain.txs[0].state == Landed
    requires t < |s.tasks| && s.tasks[t] == Task(0, Awaiting(attempt, 1, 0)) && |s.jobs| == 1
    ensures Reaches(c, pool, actions', s') && actions <= actions'
    ensures s'.jobs == [s.jobs[0].(status := Confirmed, txSignature := Some(0))]
    ensures s'.tasks == s.tasks[t := Task(0, Settling)]
  {
    var confirming: State;
    actions', confirming := Then(c, pool, actions, s, SendConfirmed(t));
    assert confirming.tasks == s.tasks[t := Task(0, Confirming(attempt, 0))] && confirming.jobs == s.jobs;
    actions', s' := Then(c, pool, actions', confirming, RecordOk(t));
    assert s'.jobs == [s.jobs[0].(status := Confirmed, txSignature := Some(0))];
  }

  // ---- Overlapping polls -----------------------------------------------------------------------------

  /** A state before anything was created, with the given clock and polls. */
  function Idle(clock: Clock, polls: seq<Poll>, pool: nat): State {
    State(clock, 0, polls, [], multiset{}, [], Chain([], {}, pool), {})
  }

  lemma FirstPoll(c: Config, pool: nat) returns (actions: seq<Action>, s: State)
    requires c.maxConcurrent > 0
    ensures IsSerialRun(c, Init(pool), actions) && Reaches(c, pool, actions, s)
    ensures s == Idle(Clock(true, None, 0, {}, 1), [Fetching(c.maxConcurrent)], pool)
  {
    actions, s := Then(c, pool, [], Init(pool), Start);
    assert s == Idle(Clock(true, Some(0), 0, {0}, 1), [], pool);
    actions, s := Then(c, pool, actions, s, TimerFires(0));
  }

  /** An idle poll ends with two timers armed, 1 and 2, and only the second remembered. */
  lemma IdlePoll(c: Config, pool: nat) returns (actions: seq<Action>, s: State)
    requires c.maxConcurrent > 0
    ensures IsSerialRun(c, Init(pool), actions) && Reaches(c, pool, actions, s)
    ensures s == Idle(Clock(true, Some(2), 0, {1, 2}, 3), [Ended], pool)
  {
    actions, s := FirstPoll(c, pool);
    actions, s := Then(c, pool, actions, s, FetchOk(0));
    assert s.polls == [Ended];
  }

  lemma SecondPoll(c: Config, pool: nat) returns (actions: seq<Action>, s: State)
    requires c.maxConcurrent > 0
    ensures IsSerialRun(c, Init(pool), actions) && Reaches(c, pool, actions, s)
    ensures s == Idle(Clock(true, None, 0, {2}, 3), [Ended, Fetching(c.maxConcurrent)], pool)
  {
    actions, s := IdlePoll(c, pool);
    actions, s := Then(c, pool, actions, s, TimerFires(1));
    assert s.polls == [Ended, Fetching(c.maxConcurrent)] && s.clock.armed == {2};
  }

  /** So two poll bodies can be suspended together. */
  lemma OverlappingPolls(c: Config, pool: nat) returns (actions: seq<Action>, s: State)
    requires c.maxConcurrent > 0
    ensures Reaches(c, pool, actions, s)
    ensures s == Idle(Clock(true, None, 0, {}, 3), [Ended, Fetching(c.maxConcurrent), Fetching(c.maxConcurrent)], pool)
  {
    actions, s := SecondPoll(c, pool);
    actions, s := Then(c, pool, actions, s, TimerFires(2));
    assert s.polls == [Ended, Fetching(c.maxConcurrent), Fetching(c.maxConcurrent)];
  }

  // ---- The limit exceeded ------------------------------------------------------------------------------

  function Letters(k: nat): string {
    seq(k, _ => 'n')
  }

  function ManyJobs(k: nat): seq<Job> {
    seq(k, i requires 0 <= i < k => Job(Letters(i), 0, Pending, 0, None))
  }

  lemma {:induction false} CreateMany(c: Config, pool: nat, actions: seq<Action>, s: State, k: nat)
    returns (actions': seq<Action>, s': State)
    requires Reaches(c, pool, actions, s) && s.jobs == []
    ensures Reaches(c, pool, actions', s') && s' == s.(jobs := ManyJobs(k))
    decreases k
  {
    if k == 0 {
      actions', s' := actions, s;
    } else {
      var before: State;
      actions', before := CreateMany(c, pool, actions, s, k - 1);
      forall i | 0 <= i < k - 1 ensures before.jobs[i].nullifier != Letters(k - 1) {
        assert |Letters(i)| != |Letters(k - 1)|;
      }
      actions', s' := Then(c, pool, actions', before, Create(Letters(k - 1), 0));
      assert s'.jobs == ManyJobs(k);
    }
  }

  /** A query for as many jobs as there are, all eligible, answers that many. */
  lemma FindAll(jobs: seq<Job>, maxAttempts: nat)
    requires forall j :: 0 <= j < |jobs| ==> Eligible(jobs[j], maxAttempts)
    ensures |FindMany(jobs, maxAttempts, |jobs|)| == |jobs|
  {
    EligibleAll(jobs, maxAttempts, 0);
  }

  lemma {:induction false} EligibleAll(jobs: seq<Job>, maxAttempts: nat, from: nat)
    requires forall j :: 0 <= j < |jobs| ==> Eligible(jobs[j], maxAttempts)
    requires from <= |jobs|
    ensures |EligibleFrom(jobs, maxAttempts, from)| == |jobs| - from
    decreases |jobs| - from
  {
    if from < |jobs| { EligibleAll(jobs, maxAttempts, from + 1); }
  }

  lemma FetchAll(c: Config, pool: nat, actions: seq<Action>, s: State, p: nat, ids: seq<JobId>)
    returns (actions': seq<Action>, s': State)
    requires Reaches(c, pool, actions, s) && p < |s.polls| && s.polls[p].Fetching?
    requires ids == FindMany(s.jobs, c.maxAttempts, s.polls[p].capacity) && ids != []
    ensures Reaches(c, pool, actions', s') && s'.polls == s.polls[p := Marking(ids)]
    ensures s'.activeJobs == s.activeJobs && s'.jobs == s.jobs
  {
    actions', s' := Then(c, pool, actions, s, FetchOk(p));
  }

  lemma MarkAll(c: Config, pool: nat, actions: seq<Action>, s: State, p: nat)
    returns (actions': seq<Action>, s': State)
    requires Reaches(c, pool, actions, s) && p < |s.polls| && s.polls[p].Marking?
    ensures Reaches(c, pool, actions', s') && s'.polls == s.polls[p := Ended]
    ensures s'.activeJobs == s.activeJobs + |s.polls[p].jobs|
  {
    actions', s' := Then(c, pool, actions, s, MarkOk(p));
  }

  /** Whatever the limit is, two overlapping polls launch twice as many jobs. */
  lemma LimitExceeded(c: Config, pool: nat) returns (actions: seq<Action>, s: State)
    requires c.maxConcurrent >= 1 && c.maxAttempts >= 1
    ensures Reaches(c, pool, actions, s) && s.activeJobs == 2 * c.maxConcurrent
  {
    actions, s := OverlappingPolls(c, pool);
    actions, s := CreateMany(c, pool, actions, s, c.maxConcurrent);
    var ids := FindMany(s.jobs, c.maxAttempts, c.maxConcurrent);
    FindAll(s.jobs, c.maxAttempts);
    actions, s := FetchAll(c, pool, actions, s, 1, ids);
    actions, s := FetchAll(c, pool, actions, s, 2, ids);
    actions, s := MarkAll(c, pool, actions, s, 1);
    actions, s := MarkAll(c, pool, actions, s, 2);
  }

  // ---- A confirmed row overwritten -----------------------------------------------------------------------

  /** Two overlapping polls launch one job twice. */
  lemma LaunchedTwice(c: Config, pool: nat, text: string, amount: nat) returns (actions: seq<Action>, s: State)
    requires c.maxConcurrent >= 1 && c.maxAttempts >= 1
    ensures Reaches(c, pool, actions, s) && s.tasks == [Task(0, Incrementing), Task(0, Incrementing)]
    ensures s.jobs == [Job(text, amount, Processing, 0, None)] && s.chain == Chain([], {}, pool)
  {
    hide IsRun, IsSerialRun, Exec;
    actions, s := OverlappingPolls(c, pool);
    actions, s := CreateFirst(c, pool, actions, s, text, amount);
    actions, s := FetchOnlyJob(c, pool, actions, s, 1);
    actions, s := FetchOnlyJob(c, pool, actions, s, 2);
    actions, s := MarkOnlyJob(c, pool, actions, s, 1);
    actions, s := MarkOnlyJob(c, pool, actions, s, 2);
  }

  /** The first of them is paid and confirmed. */
  lemma FirstConfirms(c: Config, pool: nat, text: string, amount: nat) returns (actions: seq<Action>, s: State)
    requires c.maxConcurrent >= 1 && c.maxAttempts >= 1 && HashOf(text).Some? && amount <= pool
    ensures Reaches(c, pool, actions, s) && s.jobs == [Job(text, amount, Confirmed, 1, Some(0))]
    ensures s.tasks == [Task(0, Settling), Task(0, Incrementing)]
  {
    actions, s := LaunchedTwice(c, pool, text, amount);
    actions, s := RecordAttempt(c, pool, actions, s, 0);
    actions, s := SendOnce(c, pool, actions, s, 0, 1, 1);
    actions, s := LandFirst(c, pool, actions, s);
    actions, s := ConfirmFirst(c, pool, actions, s, 0, 1);
  }

  /** The second turns the confirmed row into a failed one, or into one to be tried again. */
  lemma ConfirmedOverwritten(c: Config, pool: nat, text: string, amount: nat)
    returns (before: seq<Action>, after: seq<Action>, s: State, s': State)
    requires c.maxConcurrent >= 1 && c.maxAttempts >= 1 && HashOf(text).Some? && amount <= pool
    ensures Reaches(c, pool, before, s) && Reaches(c, pool, after, s') && before <= after
    ensures |s.jobs| == |s'.jobs| == 1 && s.jobs[0].status == Confirmed
    ensures s'.jobs[0].status == if c.maxAttempts <= 2 then Failed else Pending
  {
    before, s := FirstConfirms(c, pool, text, amount);
    after, s' := RecordAttempt(c, pool, before, s, 1);
    after, s' := FailTries(c, pool, after, s', 1, 2, 1);
    after, s' := RecordFailure(c, pool, after, s', 1, 2);
  }

  // ---- Paid, and given up on -------------------------------------------------------------------------------

  /** Nothing runs, a timer is armed, and the table holds one job. */
  ghost predicate Resting(s: State, job: Job, chain: Chain) {
    && s.clock.running && s.clock.armed != {} && NoPollActive(s) && s.activeJobs == 0
    && s.jobs == [job] && s.chain == chain
  }

  lemma PollAgain(c: Config, pool: nat, actions: seq<Action>, s: State, job: Job, chain: Chain)
    returns (actions': seq<Action>, s': State)
    requires Reaches(c, pool, actions, s) && IsSerialRun(c, Init(pool), actions) && c.maxConcurrent >= 1
    requires Resting(s, job, chain)
    ensures Reaches(c, pool, actions', s') && IsSerialRun(c, Init(pool), actions')
    ensures s'.polls == s.polls + [Fetching(c.maxConcurrent)] && s'.clock.running
    ensures s'.activeJobs == 0 && s'.jobs == s.jobs && s'.chain == s.chain && s'.tasks == s.tasks
  {
    var timer :| timer in s.clock.armed;
    actions', s' := Then(c, pool, actions, s, TimerFires(timer));
  }

  /** A poll launches the only job. */
  lemma LaunchAgain(c: Config, pool: nat, actions: seq<Action>, s: State, job: Job, chain: Chain)
    returns (actions': seq<Action>, s': State, t: nat)
    requires Reaches(c, pool, actions, s) && IsSerialRun(c, Init(pool), actions) && c.maxConcurrent >= 1
    requires Resting(s, job, chain) && Eligible(job, c.maxAttempts)
    ensures Reaches(c, pool, actions', s') && IsSerialRun(c, Init(pool), actions')
    ensures t < |s'.tasks| && s'.tasks[t] == Task(0, Incrementing)
    ensures s'.clock.running && s'.clock.armed != {} && NoPollActive(s') && s'.activeJobs == 1
    ensures s'.jobs == [job.(status := Processing)] && s'.chain == chain
  {
    var p := |s.polls|;
    t := |s.tasks|;
    actions', s' := PollAgain(c, pool, actions, s, job, chain);
    actions', s' := FetchOnlyJob(c, pool, actions', s', p);
    ghost var marked := s';
    actions', s' := MarkOnlyJob(c, pool, actions', s', p);
    assert marked.clock.nextTimer in s'.clock.armed;
    forall q | 0 <= q < |s'.polls| ensures !Active(s'.polls[q]) {
      if q < p { assert s'.polls[q] == s.polls[q]; }
    }
  }

  /** What a submission leaves in flight. */
  function Pledged(chain: Chain, text: string, amount: nat): Chain
    requires HashOf(text).Some?
  {
    Submit(chain, Tx(Some(0), HashOf(text).value, amount, InFlight))
  }

  /** The first try of an attempt fails, with or without a transaction left in flight. */
  lemma FirstTry(c: Config, pool: nat, actions: seq<Action>, s: State, t: nat, send: bool)
    returns (actions': seq<Action>, s': State)
    requires Reaches(c, pool, actions, s) && c.maxAttempts >= 1
    requires t < |s.tasks| && s.tasks[t] == Task(0, Incrementing) && |s.jobs| == 1 && (send ==> CanSend(s.jobs[0]))
    ensures Reaches(c, pool, actions', s') && (IsSerialRun(c, Init(pool), actions) ==> IsSerialRun(c, Init(pool), actions'))
    ensures s'.clock == s.clock && s'.polls == s.polls && s'.activeJobs == s.activeJobs
    ensures var attempt := s.jobs[0].attempts + 1;
      t < |s'.tasks| && s'.tasks[t] == Task(0, Failing(attempt)) && s'.jobs == [s.jobs[0].(attempts := attempt)]
    ensures s'.chain == if send then Pledged(s.chain, s.jobs[0].nullifier, s.jobs[0].amount) else s.chain
  {
    var attempt := s.jobs[0].attempts + 1;
    actions', s' := RecordAttempt(c, pool, actions, s, t);
    if send {
      var x := |s'.chain.txs|;
      actions', s' := SendOnce(c, pool, actions', s', t, attempt, 1);
      actions', s' := TimeOut(c, pool, actions', s', t, attempt, 1, x);
      if 2 <= c.maxAttempts {
        actions', s' := FailTries(c, pool, actions', s', t, attempt, 2);
      }
    } else {
      actions', s' := FailTries(c, pool, actions', s', t, attempt, 1);
    }
  }

  /** The failure is recorded and the slot is given back. */
  lemma AttemptEnds(c: Config, pool: nat, actions: seq<Action>, s: State, t: nat, attempt: nat)
    returns (actions': seq<Action>, s': State)
    requires Reaches(c, pool, actions, s) && IsSerialRun(c, Init(pool), actions)
    requires t < |s.tasks| && s.tasks[t] == Task(0, Failing(attempt)) && |s.jobs| == 1
    requires s.clock.running && s.clock.armed != {} && NoPollActive(s) && s.activeJobs == 1
    ensures Reaches(c, pool, actions', s') && IsSerialRun(c, Init(pool), actions')
    ensures Resting(s', s.jobs[0].(status := if attempt >= c.maxAttempts then Failed else Pending), s.chain)
  {
    hide IsRun, IsSerialRun, Exec;
    actions', s' := RecordFailure(c, pool, actions, s, t, attempt);
    actions', s' := Then(c, pool, actions', s', Settle(t));
  }

  /** One attempt fails. */
  lemma AttemptFails(c: Config, pool: nat, actions: seq<Action>, s: State, job: Job, chain: Chain, send: bool)
    returns (actions': seq<Action>, s': State)
    requires Reaches(c, pool, actions, s) && IsSerialRun(c, Init(pool), actions)
    requires c.maxConcurrent >= 1 && Resting(s, job, chain) && Eligible(job, c.maxAttempts) && (send ==> CanSend(job))
    ensures Reaches(c, pool, actions', s') && IsSerialRun(c, Init(pool), actions')
    ensures Resting(s', AfterAttempt(c, job), if send then Pledged(chain, job.nullifier, job.amount) else chain)
  {
    hide IsRun, IsSerialRun, Exec;
    var t: nat;
    actions', s', t := LaunchAgain(c, pool, actions, s, job, chain);
    actions', s' := FirstTry(c, pool, actions', s', t, send);
    actions', s' := AttemptEnds(c, pool, actions', s', t, job.attempts + 1);
  }

  function AfterAttempt(c: Config, job: Job): Job {
    job.(attempts := job.attempts + 1, status := if job.attempts + 1 >= c.maxAttempts then Failed else Pending)
  }

  lemma {:induction false} ExhaustAttempts(c: Config, pool: nat, actions: seq<Action>, s: State, job: Job, chain: Chain)
    returns (actions': seq<Action>, s': State)
    requires Reaches(c, pool, actions, s) && IsSerialRun(c, Init(pool), actions)
    requires c.maxConcurrent >= 1 && Resting(s, job, chain)
    requires job.attempts <= c.maxAttempts && job.status == if job.attempts == c.maxAttempts then Failed else Pending
    ensures Reaches(c, pool, actions', s') && IsSerialRun(c, Init(pool), actions')
    ensures Resting(s', job.(attempts := c.maxAttempts, status := Failed), chain)
    decreases c.maxAttempts - job.attempts
  {
    if job.attempts == c.maxAttempts {
      actions', s' := actions, s;
    } else {
      actions', s' := AttemptFails(c, pool, actions, s, job, chain, false);
      actions', s' := ExhaustAttempts(c, pool, actions', s', AfterAttempt(c, job), chain);
    }
  }

  /** Without any overlap, and whatever the limits: a send that times out and lands after the last
      attempt pays a job that ended failed. */
  lemma PaidButFailed(c: Config, pool: nat, text: string, amount: nat) returns (actions: seq<Action>, s: State)
    requires c.maxConcurrent >= 1 && c.maxAttempts >= 1 && HashOf(text).Some? && amount <= pool
    ensures IsSerialRun(c, Init(pool), actions) && Reaches(c, pool, actions, s)
    ensures |s.jobs| == 1 && s.jobs[0].status == Failed && IsSpent(s.chain, s.jobs[0].nullifier)
    ensures s.chain.pool == pool - amount
  {
    hide IsRun, IsSerialRun, Exec;
    var job, chain := Job(text, amount, Pending, 0, None), Chain([], {}, pool);
    actions, s := IdlePoll(c, pool);
    actions, s := CreateFirst(c, pool, actions, s, text, amount);
    assert 1 in s.clock.armed;
    actions, s := AttemptFails(c, pool, actions, s, job, chain, true);
    actions, s := ExhaustAttempts(c, pool, actions, s, AfterAttempt(c, job), Pledged(chain, text, amount));
    actions, s := LandFirst(c, pool, actions, s);
  }

  // ---- Paid by a row with another spelling --------------------------------------------------------------

  lemma FindSecond(jobs: seq<Job>, maxAttempts: nat, take: nat)
    requires |jobs| == 2 && !Eligible(jobs[0], maxAttempts) && Eligible(jobs[1], maxAttempts) && take > 0
    ensures FindMany(jobs, maxAttempts, take) == [1]
  {
    assert EligibleFrom(jobs, maxAttempts, 2) == [];
    assert EligibleFrom(jobs, maxAttempts, 1) == [1];
  }

  lemma SecondAsked(c: Config, pool: nat, actions: seq<Action>, s: State, job: Job, text: string, amount: nat)
    returns (actions': seq<Action>, s': State)
    requires Reaches(c, pool, actions, s) && IsSerialRun(c, Init(pool), actions)
    requires s.jobs == [job] && job.nullifier != text
    ensures Reaches(c, pool, actions', s') && IsSerialRun(c, Init(pool), actions')
    ensures s' == s.(jobs := [job, Job(text, amount, Pending, 0, None)])
  {
    hide IsRun, IsSerialRun, Exec;
    actions', s' := Then(c, pool, actions, s, Create(text, amount));
    assert s'.jobs == [job, Job(text, amount, Pending, 0, None)];
  }

  /** A second job is asked for and picked. */
  lemma SecondPicked(c: Config, pool: nat, actions: seq<Action>, s: State, job: Job, chain: Chain, text: string, amount: nat)
    returns (actions': seq<Action>, s': State)
    requires Reaches(c, pool, actions, s) && IsSerialRun(c, Init(pool), actions)
    requires c.maxConcurrent >= 1 && c.maxAttempts >= 1
    requires Resting(s, job, chain) && job.status.Failed? && job.nullifier != text
    ensures Reaches(c, pool, actions', s') && IsSerialRun(c, Init(pool), actions')
    ensures s'.polls == s.polls + [Marking([1])] && s'.tasks == s.tasks && s'.chain == chain
    ensures s'.jobs == [job, Job(text, amount, Pending, 0, None)]
  {
    hide IsRun, IsSerialRun, Exec;
    actions', s' := SecondAsked(c, pool, actions, s, job, text, amount);
    var timer :| timer in s'.clock.armed;
    actions', s' := Then(c, pool, actions', s', TimerFires(timer));
    FindSecond(s'.jobs, c.maxAttempts, c.maxConcurrent);
    actions', s' := Then(c, pool, actions', s', FetchOk(|s.polls|));
    assert s'.polls == s.polls + [Marking([1])];
  }

  lemma SecondLaunched(c: Config, pool: nat, actions: seq<Action>, s: State, p: nat)
    returns (actions': seq<Action>, s': State)
    requires Reaches(c, pool, actions, s) && IsSerialRun(c, Init(pool), actions)
    requires p < |s.polls| && s.polls[p] == Marking([1]) && |s.jobs| == 2 && s.jobs[1].status.Pending?
    ensures Reaches(c, pool, actions', s') && IsSerialRun(c, Init(pool), actions')
    ensures s'.jobs == [s.jobs[0], s.jobs[1].(status := Processing)] && s'.tasks == s.tasks + [Task(1, Incrementing)]
    ensures s'.chain == s.chain
  {
    hide IsRun, IsSerialRun, Exec;
    actions', s' := Then(c, pool, actions, s, MarkOk(p));
    assert s'.jobs == [s.jobs[0], s.jobs[1].(status := Processing)];
  }

  lemma SecondSent(c: Config, pool: nat, actions: seq<Action>, s: State, p: nat, t: nat)
    returns (actions': seq<Action>, s': State)
    requires Reaches(c, pool, actions, s) && IsSerialRun(c, Init(pool), actions) && c.maxAttempts >= 1
    requires p < |s.polls| && s.polls[p] == Marking([1]) && t == |s.tasks|
    requires |s.jobs| == 2 && s.jobs[1].status.Pending? && s.jobs[1].attempts == 0 && CanSend(s.jobs[1])
    ensures Reaches(c, pool, actions', s') && IsSerialRun(c, Init(pool), actions')
    ensures t < |s'.tasks| && s'.tasks[t] == Task(1, Awaiting(1, 1, |s.chain.txs|))
    ensures s'.jobs == [s.jobs[0], s.jobs[1].(status := Processing, attempts := 1)]
    ensures s'.chain == Submit(s.chain, WithdrawalOf(s.jobs, 1))
  {
    hide IsRun, IsSerialRun, Exec;
    actions', s' := SecondLaunched(c, pool, actions, s, p);
    actions', s' := Then(c, pool, actions', s', IncrementOk(t));
    assert s'.jobs == [s.jobs[0], s.jobs[1].(status := Processing, attempts := 1)] && s'.tasks[t] == Task(1, Building(1, 1));
    actions', s' := Then(c, pool, actions', s', Send(t));
  }

  lemma SecondConfirmed(c: Config, pool: nat, actions: seq<Action>, s: State, t: nat)
    returns (actions': seq<Action>, s': State)
    requires Reaches(c, pool, actions, s) && IsSerialRun(c, Init(pool), actions)
    requires t < |s.tasks| && s.tasks[t] == Task(1, Awaiting(1, 1, 0)) && |s.jobs| == 2
    requires |s.chain.txs| == 1 && s.chain.txs[0].state == InFlight
    requires s.chain.txs[0].nullifier !in s.chain.spent && s.chain.txs[0].amount <= s.chain.pool
    ensures Reaches(c, pool, actions', s') && IsSerialRun(c, Init(pool), actions')
    ensures s'.jobs == [s.jobs[0], s.jobs[1].(status := Confirmed, txSignature := Some(0))]
    ensures s'.chain.txs == [s.chain.txs[0].(state := Landed)] && s.chain.txs[0].nullifier in s'.chain.spent
  {
    hide IsRun, IsSerialRun, Exec;
    actions', s' := Then(c, pool, actions, s, Land(0));
    actions', s' := Then(c, pool, actions', s', SendConfirmed(t));
    assert s'.tasks[t] == Task(1, Confirming(1, 0)) && s'.jobs == s.jobs;
    actions', s' := Then(c, pool, actions', s', RecordOk(t));
    assert s'.jobs == [s.jobs[0], s.jobs[1].(status := Confirmed, txSignature := Some(0))];
  }

  /** A job of which nothing was ever sent ends failed, and a second row that spells its nullifier
      otherwise is paid it. */
  lemma PaidByOtherSpelling(c: Config, pool: nat, a: string, b: string, amount: nat) returns (actions: seq<Action>, s: State)
    requires c.maxConcurrent >= 1 && c.maxAttempts >= 1 && Respelled(a, b) && amount <= pool
    ensures IsSerialRun(c, Init(pool), actions) && Reaches(c, pool, actions, s)
    ensures |s.jobs| == 2 && s.jobs[0].nullifier == a && s.jobs[1].nullifier == b
    ensures s.jobs[0].status.Failed? && s.jobs[1].status.Confirmed?
    ensures IsSpent(s.chain, a) && forall x :: 0 <= x < |s.chain.txs| ==> s.chain.txs[x].job == Some(1)
  {
    hide IsRun, IsSerialRun, Exec;
    var job, chain := Job(a, amount, Pending, 0, None), Chain([], {}, pool);
    actions, s := IdlePoll(c, pool);
    actions, s := CreateFirst(c, pool, actions, s, a, amount);
    assert 1 in s.clock.armed;
    actions, s := ExhaustAttempts(c, pool, actions, s, job, chain);
    var failed, p, t := s.jobs[0], |s.polls|, |s.tasks|;
    actions, s := SecondPicked(c, pool, actions, s, failed, chain, b, amount);
    actions, s := SecondSent(c, pool, actions, s, p, t);
    actions, s := SecondConfirmed(c, pool, actions, s, t);
  }

  /** Such spellings there are. */
  lemma TwoSpellings() returns (a: string, b: string)
    ensures |a| == |b| == 64 && Respelled(a, b)
  {
    a, b := seq(64, _ => 'A'), seq(64, _ => 'a');
    SendableIff(a);
    SendableIff(b);
    assert Lowered(a) == b == Lowered(b);
    OneNullifierIff(a, b);
    assert a[0] != b[0];
  }

  // ---- Stopping ------------------------------------------------------------------------

  /** `stop` forgets every timer but the last one armed, so an idle poll leaves one behind. */
  lemma TimerLeftByStop(c: Config, pool: nat) returns (actions: seq<Action>, s: State)
    requires c.maxConcurrent > 0
    ensures Reaches(c, pool, actions, s) && Stop in actions
    ensures !s.clock.running && s.activeJobs == 0 && s.clock.armed == {1} && s.jobs == [] && NoPollActive(s)
  {
    actions, s := IdlePoll(c, pool);
    actions, s := Then(c, pool, actions, s, Stop);
    assert Stop in actions by { assert actions[|actions| - 1] == Stop; }
  }

  predicate Quiet(s: State) {
    !s.clock.running && s.clock.armed == {} && NoPollActive(s)
  }

  /** Without another start, some continuation of the run marks jobs and launches them. */
  ghost predicate CanLaunch(c: Config, s: State) {
    exists actions: seq<Action>, p: nat :: IsRun(c, s, actions + [MarkOk(p)]) && Start !in actions
  }

  lemma {:induction false} QuietCannotLaunch(c: Config, s: State, actions: seq<Action>, p: nat)
    requires Quiet(s) && Start !in actions
    ensures !IsRun(c, s, actions + [MarkOk(p)])
    decreases |actions|
  {
    if IsRun(c, s, actions + [MarkOk(p)]) {
      if actions != [] {
        assert (actions + [MarkOk(p)])[1..] == actions[1..] + [MarkOk(p)];
        assert actions[0] in actions && Quiet(Next(c, s, actions[0]));
        QuietCannotLaunch(c, Next(c, s, actions[0]), actions[1..], p);
      }
    }
  }

  lemma PickIsNonEmpty(c: Config, s: State, j: JobId, take: nat)
    requires j < |s.jobs| && Eligible(s.jobs[j], c.maxAttempts) && take > 0
    ensures FindMany(s.jobs, c.maxAttempts, take) != []
  {
    FindManyIs(s.jobs, c.maxAttempts, take);
  }

  lemma FetchThenLaunch(c: Config, s: State, p: nat, j: JobId)
    requires p < |s.polls| && s.polls[p].Fetching?
    requires j < |s.jobs| && Eligible(s.jobs[j], c.maxAttempts)
    ensures IsRun(c, s, [FetchOk(p), MarkOk(p)])
  {
    PickIsNonEmpty(c, s, j, s.polls[p].capacity);
    assert [FetchOk(p), MarkOk(p)][1..] == [MarkOk(p)];
  }

  /** A suspended poll body can go on to launch. */
  lemma PollLaunches(c: Config, s: State, p: nat, j: JobId)
    requires p < |s.polls| && Active(s.polls[p]) && j < |s.jobs| && Eligible(s.jobs[j], c.maxAttempts)
    ensures CanLaunch(c, s)
  {
    if s.polls[p].Fetching? {
      FetchThenLaunch(c, s, p, j);
      Launches(c, s, [FetchOk(p)], p);
    } else {
      assert [MarkOk(p)][1..] == [];
      Launches(c, s, [], p);
    }
  }

  lemma Launches(c: Config, s: State, actions: seq<Action>, p: nat)
    requires Start !in actions && (IsRun(c, s, actions + [MarkOk(p)]) || (actions == [] && IsRun(c, s, [MarkOk(p)])))
    ensures CanLaunch(c, s)
  {
    if actions == [] {
      assert actions + [MarkOk(p)] == [MarkOk(p)];
    }
    assert IsRun(c, s, actions + [MarkOk(p)]) && Start !in actions;
  }

  /** A timer left armed can begin a poll that launches. */
  lemma TimerLaunches(c: Config, s: State, timer: nat, j: JobId)
    requires timer in s.clock.armed && !s.clock.running && s.activeJobs < c.maxConcurrent
    requires j < |s.jobs| && Eligible(s.jobs[j], c.maxAttempts)
    ensures CanLaunch(c, s)
  {
    var p := |s.polls|;
    FetchThenLaunch(c, Next(c, s, TimerFires(timer)), p, j);
    var actions := [TimerFires(timer), FetchOk(p)];
    assert (actions + [MarkOk(p)])[1..] == [FetchOk(p), MarkOk(p)];
    Launches(c, s, actions, p);
  }

  /** With a free slot and an eligible job, a stopped processor launches again exactly when a
      timer is still armed or a poll body is still suspended. */
  lemma StopSilencesIff(c: Config, s: State, j: JobId)
    requires !s.clock.running && s.activeJobs < c.maxConcurrent
    requires j < |s.jobs| && Eligible(s.jobs[j], c.maxAttempts)
    ensures CanLaunch(c, s) <==> !Quiet(s)
  {
    if Quiet(s) {
      forall actions: seq<Action>, p: nat | Start !in actions ensures !IsRun(c, s, actions + [MarkOk(p)]) {
        QuietCannotLaunch(c, s, actions, p);
      }
    } else if !NoPollActive(s) {
      var p: nat :| p < |s.polls| && Active(s.polls[p]);
      PollLaunches(c, s, p, j);
    } else {
      var timer :| timer in s.clock.armed;
      TimerLaunches(c, s, timer, j);
    }
  }
}
