/** What every run of the relayer keeps, and what it keeps when poll bodies do not overlap. */
module RelayerSafety {
  import opened Base
  import opened Bytes
  import opened Nullifiers
  import opened RelayerProtocol

  // ---- What is measured ---------------------------------------------------------

  function Unfinished(t: Task): int { if t.phase.Settled? then 0 else 1 }

  function SentFor(j: JobId): Tx -> int { (x: Tx) => if x.job == Some(j) then 1 else 0 }

  function PaidFor(nullifier: Key): Tx -> int {
    (x: Tx) => if x.state.Landed? && x.nullifier == nullifier then 1 else 0
  }

  function PaidOut(x: Tx): int { if x.state.Landed? then x.amount else 0 }

  function Attempts(job: Job): int { job.attempts }

  /** How many transactions were submitted for a job. */
  function Sends(txs: seq<Tx>, j: JobId): int { Total(txs, SentFor(j)) }

  // ---- Rows and transactions grow -------------------------------------------------

  ghost predicate RowsGrow(before: seq<Job>, after: seq<Job>) {
    |before| <= |after| &&
    forall j :: 0 <= j < |before| ==>
      && after[j].nullifier == before[j].nullifier && after[j].amount == before[j].amount
      && before[j].attempts <= after[j].attempts
  }

  ghost predicate TxsGrow(before: seq<Tx>, after: seq<Tx>) {
    |before| <= |after| &&
    forall x :: 0 <= x < |before| ==>
      && after[x].(state := InFlight) == before[x].(state := InFlight)
      && (before[x].state.Landed? ==> after[x].state.Landed?)
  }

  lemma StepGrows(c: Config, s: State, a: Action)
    requires Enabled(c, s, a)
    ensures RowsGrow(s.jobs, JobsAfter(c, s, a)) && TxsGrow(s.chain.txs, ChainAfter(c, s, a).txs)
  {
  }

  // ---- Nullifiers are unique -------------------------------------------------------

  ghost predicate DistinctNullifiers(jobs: seq<Job>) {
    forall i, j :: 0 <= i < j < |jobs| ==> jobs[i].nullifier != jobs[j].nullifier
  }

  lemma StepKeepsDistinct(c: Config, s: State, a: Action)
    requires Enabled(c, s, a) && DistinctNullifiers(s.jobs)
    ensures DistinctNullifiers(JobsAfter(c, s, a))
  {
    StepGrows(c, s, a);
  }

  // ---- activeJobs counts the unfinished tasks ------------------------------------------

  ghost predicate CountsTasks(s: State) {
    s.activeJobs == Total(s.tasks, Unfinished)
  }

  lemma StepKeepsCount(c: Config, s: State, a: Action)
    requires Enabled(c, s, a) && CountsTasks(s)
    ensures ActiveAfter(c, s, a) == Total(TasksAfter(c, s, a), Unfinished)
  {
    if IsTaskStep(a) {
      TotalUpdate(s.tasks, a.task, s.tasks[a.task].(phase := PhaseAfter(c, s, a)), Unfinished);
    } else if a.MarkOk? {
      var ids := s.polls[a.poll].jobs;
      TotalConcat(s.tasks, NewTasks(ids), Unfinished);
      TotalBounds(NewTasks(ids), Unfinished, 1, 1);
    }
  }

  // ---- The chain pays each nullifier once ----------------------------------------------

  /** Nullifiers are spent exactly by landed transactions, once each, out of the pool. */
  ghost predicate ChainInv(chain: Chain, initialPool: nat) {
    && chain.pool + Total(chain.txs, PaidOut) == initialPool
    && forall n :: Total(chain.txs, PaidFor(n)) == if n in chain.spent then 1 else 0
  }

  lemma SubmitKeepsChain(chain: Chain, tx: Tx, initialPool: nat)
    requires ChainInv(chain, initialPool) && tx.state.InFlight?
    ensures ChainInv(Submit(chain, tx), initialPool)
  {
    TotalAppend(chain.txs, tx, PaidOut);
    forall n ensures Total(chain.txs + [tx], PaidFor(n)) == Total(chain.txs, PaidFor(n)) {
      TotalAppend(chain.txs, tx, PaidFor(n));
    }
  }

  lemma ResolveKeepsChain(chain: Chain, x: nat, initialPool: nat)
    requires ChainInv(chain, initialPool) && x < |chain.txs| && chain.txs[x].state.InFlight?
    ensures ChainInv(Execute(chain, x), initialPool)
    ensures ChainInv(chain.(txs := chain.txs[x := chain.txs[x].(state := Rejected)]), initialPool)
  {
    var landed, rejected := chain.txs[x].(state := Landed), chain.txs[x].(state := Rejected);
    TotalUpdate(chain.txs, x, landed, PaidOut);
    TotalUpdate(chain.txs, x, rejected, PaidOut);
    forall n
      ensures Total(chain.txs[x := landed], PaidFor(n)) == Total(chain.txs, PaidFor(n)) + PaidFor(n)(landed)
      ensures Total(chain.txs[x := rejected], PaidFor(n)) == Total(chain.txs, PaidFor(n))
    {
      TotalUpdate(chain.txs, x, landed, PaidFor(n));
      TotalUpdate(chain.txs, x, rejected, PaidFor(n));
    }
  }

  lemma StepKeepsChain(c: Config, s: State, a: Action, initialPool: nat)
    requires Enabled(c, s, a) && ChainInv(s.chain, initialPool)
    ensures ChainInv(ChainAfter(c, s, a), initialPool)
  {
    match a
    case Send(t) =>
      SubmitKeepsChain(s.chain, WithdrawalOf(s.jobs, s.tasks[t].job), initialPool);
    case OutsideTx(hash, amount) => SubmitKeepsChain(s.chain, Tx(None, hash, amount, InFlight), initialPool);
    case Land(x) => ResolveKeepsChain(s.chain, x, initialPool);
    case Drop(x) => ResolveKeepsChain(s.chain, x, initialPool);
    case _ =>
  }

  // ---- What tasks remember is true, and rows record it ----------------------------------

  predicate TxOf(jobs: seq<Job>, txs: seq<Tx>, j: JobId, x: nat) {
    j < |jobs| && CanSend(jobs[j]) && x < |txs| && txs[x].(state := InFlight) == WithdrawalOf(jobs, j)
  }

  predicate PaidBy(jobs: seq<Job>, txs: seq<Tx>, j: JobId, x: nat) {
    TxOf(jobs, txs, j, x) && txs[x].state.Landed?
  }

  ghost predicate TaskOk(c: Config, jobs: seq<Job>, txs: seq<Tx>, t: Task) {
    && t.job < |jobs|
    && match t.phase
       case Incrementing => true
       case Building(attempt, try) => attempt <= jobs[t.job].attempts && 1 <= try <= c.maxAttempts
       case Awaiting(attempt, try, tx) =>
         attempt <= jobs[t.job].attempts && 1 <= try <= c.maxAttempts && TxOf(jobs, txs, t.job, tx)
       case Confirming(attempt, tx) => attempt <= jobs[t.job].attempts && PaidBy(jobs, txs, t.job, tx)
       case Failing(attempt) => attempt <= jobs[t.job].attempts
       case Settling => true
       case Settled => true
  }

  ghost predicate TasksOk(c: Config, s: State) {
    forall t :: 0 <= t < |s.tasks| ==> TaskOk(c, s.jobs, s.chain.txs, s.tasks[t])
  }

  ghost predicate RowOk(c: Config, jobs: seq<Job>, txs: seq<Tx>, j: JobId)
    requires j < |jobs|
  {
    && (jobs[j].status.Confirmed? ==> jobs[j].txSignature.Some? && PaidBy(jobs, txs, j, jobs[j].txSignature.value))
    && (jobs[j].status.Failed? ==> jobs[j].attempts >= c.maxAttempts)
  }

  ghost predicate RowsOk(c: Config, s: State) {
    forall j :: 0 <= j < |s.jobs| ==> RowOk(c, s.jobs, s.chain.txs, j)
  }

  ghost predicate PicksKnown(s: State) {
    forall p, k :: 0 <= p < |s.polls| && s.polls[p].Marking? && 0 <= k < |s.polls[p].jobs| ==>
      s.polls[p].jobs[k] < |s.jobs|
  }

  lemma TaskOkKept(c: Config, jobs: seq<Job>, txs: seq<Tx>, jobs': seq<Job>, txs': seq<Tx>, t: Task)
    requires RowsGrow(jobs, jobs') && TxsGrow(txs, txs') && TaskOk(c, jobs, txs, t)
    ensures TaskOk(c, jobs', txs', t)
  {
  }

  lemma ChangedTaskOk(c: Config, s: State, a: Action)
    requires Enabled(c, s, a) && IsTaskStep(a) && TaskOk(c, s.jobs, s.chain.txs, s.tasks[a.task])
    ensures TaskOk(c, JobsAfter(c, s, a), ChainAfter(c, s, a).txs, s.tasks[a.task].(phase := PhaseAfter(c, s, a)))
  {
  }

  ghost predicate AllTasksOk(c: Config, jobs: seq<Job>, txs: seq<Tx>, tasks: seq<Task>) {
    forall t :: 0 <= t < |tasks| ==> TaskOk(c, jobs, txs, tasks[t])
  }

  lemma TasksOkKept(c: Config, jobs: seq<Job>, txs: seq<Tx>, jobs': seq<Job>, txs': seq<Tx>, tasks: seq<Task>)
    requires RowsGrow(jobs, jobs') && TxsGrow(txs, txs') && AllTasksOk(c, jobs, txs, tasks)
    ensures AllTasksOk(c, jobs', txs', tasks)
  {
    forall t | 0 <= t < |tasks| ensures TaskOk(c, jobs', txs', tasks[t]) {
      TaskOkKept(c, jobs, txs, jobs', txs', tasks[t]);
    }
  }

  lemma NewTasksOk(c: Config, jobs: seq<Job>, txs: seq<Tx>, tasks: seq<Task>, ids: seq<JobId>)
    requires AllTasksOk(c, jobs, txs, tasks) && forall k :: 0 <= k < |ids| ==> ids[k] < |jobs|
    ensures AllTasksOk(c, jobs, txs, tasks + NewTasks(ids))
  {
    forall t | |tasks| <= t < |tasks + NewTasks(ids)| ensures TaskOk(c, jobs, txs, (tasks + NewTasks(ids))[t]) {
      assert (tasks + NewTasks(ids))[t] == Task(ids[t - |tasks|], Incrementing);
    }
  }

  lemma StepKeepsTasks(c: Config, s: State, a: Action)
    requires Enabled(c, s, a) && TasksOk(c, s) && PicksKnown(s)
    ensures TasksOk(c, Next(c, s, a))
  {
    var jobs', txs' := JobsAfter(c, s, a), ChainAfter(c, s, a).txs;
    StepGrows(c, s, a);
    assert AllTasksOk(c, s.jobs, s.chain.txs, s.tasks);
    TasksOkKept(c, s.jobs, s.chain.txs, jobs', txs', s.tasks);
    if IsTaskStep(a) {
      ChangedTaskOk(c, s, a);
    } else if a.MarkOk? {
      NewTasksOk(c, jobs', txs', s.tasks, s.polls[a.poll].jobs);
    }
    assert AllTasksOk(c, jobs', txs', TasksAfter(c, s, a));
  }

  lemma RowOkKept(c: Config, jobs: seq<Job>, txs: seq<Tx>, jobs': seq<Job>, txs': seq<Tx>, j: JobId)
    requires RowsGrow(jobs, jobs') && TxsGrow(txs, txs') && j < |jobs| && RowOk(c, jobs, txs, j)
    requires jobs'[j].status == jobs[j].status && jobs'[j].txSignature == jobs[j].txSignature
    ensures RowOk(c, jobs', txs', j)
  {
  }

  /** A row keeps its status and signature, becomes pending or processing, or is recorded. */
  lemma StepRow(c: Config, s: State, a: Action, j: JobId)
    requires Enabled(c, s, a) && j < |s.jobs|
    ensures j < |JobsAfter(c, s, a)|
    ensures var row := JobsAfter(c, s, a)[j];
      if a.RecordOk? && s.tasks[a.task].job == j then row == Recorded(c, s.jobs[j], s.tasks[a.task].phase)
      else (row.status == s.jobs[j].status && row.txSignature == s.jobs[j].txSignature)
           || row.status.Pending? || row.status.Processing?
  {
  }

  lemma StepKeepsRows(c: Config, s: State, a: Action)
    requires Enabled(c, s, a) && TasksOk(c, s) && RowsOk(c, s)
    ensures RowsOk(c, Next(c, s, a))
  {
    var jobs', txs' := JobsAfter(c, s, a), ChainAfter(c, s, a).txs;
    StepGrows(c, s, a);
    forall j | 0 <= j < |jobs'| ensures RowOk(c, jobs', txs', j) {
      if j < |s.jobs| {
        StepRow(c, s, a, j);
        assert RowOk(c, s.jobs, s.chain.txs, j);
        if a.RecordOk? && s.tasks[a.task].job == j {
          TaskOkKept(c, s.jobs, s.chain.txs, jobs', txs', s.tasks[a.task]);
        } else if jobs'[j].status == s.jobs[j].status && jobs'[j].txSignature == s.jobs[j].txSignature {
          RowOkKept(c, s.jobs, s.chain.txs, jobs', txs', j);
        }
      }
    }
  }

  // ---- What a poll picks ------------------------------------------------------------------

  /** `ids` are the eligible positions from `from` on, ascending. */
  ghost predicate ListsEligible(jobs: seq<Job>, maxAttempts: nat, from: nat, ids: seq<JobId>) {
    && (forall k :: 0 <= k < |ids| ==> from <= ids[k] < |jobs| && Eligible(jobs[ids[k]], maxAttempts))
    && (forall k, l :: 0 <= k < l < |ids| ==> ids[k] < ids[l])
    && (forall j :: from <= j < |jobs| && Eligible(jobs[j], maxAttempts) ==> j in ids)
  }

  lemma ListsFirst(jobs: seq<Job>, maxAttempts: nat, from: nat, rest: seq<JobId>)
    requires from < |jobs| && Eligible(jobs[from], maxAttempts) && ListsEligible(jobs, maxAttempts, from + 1, rest)
    ensures ListsEligible(jobs, maxAttempts, from, [from] + rest)
  {
    var ids := [from] + rest;
    assert forall k :: 0 < k < |ids| ==> ids[k] == rest[k - 1];
    forall j | from <= j < |jobs| && Eligible(jobs[j], maxAttempts) ensures j in ids {
      assert ids[0] == from;
      assert j > from ==> j in rest;
    }
  }

  lemma ListsCons(jobs: seq<Job>, maxAttempts: nat, from: nat, rest: seq<JobId>)
    requires from < |jobs| && ListsEligible(jobs, maxAttempts, from + 1, rest)
    ensures ListsEligible(jobs, maxAttempts, from, if Eligible(jobs[from], maxAttempts) then [from] + rest else rest)
  {
    if Eligible(jobs[from], maxAttempts) {
      ListsFirst(jobs, maxAttempts, from, rest);
    }
  }

  lemma {:induction false} EligibleFromIs(jobs: seq<Job>, maxAttempts: nat, from: nat)
    ensures ListsEligible(jobs, maxAttempts, from, EligibleFrom(jobs, maxAttempts, from))
    decreases |jobs| - from
  {
    if from < |jobs| {
      EligibleFromIs(jobs, maxAttempts, from + 1);
      ListsCons(jobs, maxAttempts, from, EligibleFrom(jobs, maxAttempts, from + 1));
    }
  }

  /** A poll picks eligible jobs only, in creation order, and passes over an eligible job
      only when it is full of older ones. */
  lemma FindManyIs(jobs: seq<Job>, maxAttempts: nat, take: nat)
    ensures var ids := FindMany(jobs, maxAttempts, take);
      && |ids| <= take
      && (forall k :: 0 <= k < |ids| ==> ids[k] < |jobs| && Eligible(jobs[ids[k]], maxAttempts))
      && (forall k, l :: 0 <= k < l < |ids| ==> ids[k] < ids[l])
      && (forall j :: 0 <= j < |jobs| && Eligible(jobs[j], maxAttempts) && j !in ids ==>
            |ids| == take && forall k :: 0 <= k < |ids| ==> ids[k] < j)
  {
    EligibleFromIs(jobs, maxAttempts, 0);
    var all, ids := EligibleFrom(jobs, maxAttempts, 0), FindMany(jobs, maxAttempts, take);
    forall j, k | 0 <= j < |jobs| && Eligible(jobs[j], maxAttempts) && j !in ids && 0 <= k < |ids|
      ensures |ids| == take && ids[k] < j
    {
      var m :| 0 <= m < |all| && all[m] == j;
      assert m >= |ids|;
    }
  }

  lemma StepKeepsPicksKnown(c: Config, s: State, a: Action)
    requires Enabled(c, s, a) && PicksKnown(s)
    ensures PicksKnown(Next(c, s, a))
  {
    StepGrows(c, s, a);
    if a.FetchOk? {
      FindManyIs(s.jobs, c.maxAttempts, s.polls[a.poll].capacity);
    }
  }

  ghost predicate SendersKnown(s: State) {
    forall x :: 0 <= x < |s.chain.txs| && s.chain.txs[x].job.Some? ==> s.chain.txs[x].job.value < |s.jobs|
  }

  lemma StepKeepsSendersKnown(c: Config, s: State, a: Action)
    requires Enabled(c, s, a) && SendersKnown(s)
    ensures SendersKnown(Next(c, s, a))
  {
    StepGrows(c, s, a);
    var txs, txs' := s.chain.txs, ChainAfter(c, s, a).txs;
    forall x | 0 <= x < |txs'| && txs'[x].job.Some? ensures txs'[x].job.value < |JobsAfter(c, s, a)| {
      assert x < |txs| ==> txs'[x].(state := InFlight) == txs[x].(state := InFlight);
    }
  }

  // ---- First launches happen in creation order ----------------------------------------------

  /** A row as `create` left it, which no task and no reset refers to. */
  ghost predicate Untouched(jobs: seq<Job>, tasks: seq<Task>, resets: multiset<JobId>, j: JobId) {
    && (j < |jobs| ==> jobs[j].status.Pending? && jobs[j].attempts == 0)
    && j !in resets
    && (forall t :: 0 <= t < |tasks| ==> tasks[t].job != j)
  }

  ghost predicate UnlaunchedIsUntouched(s: State) {
    forall j :: j !in s.launched ==> Untouched(s.jobs, s.tasks, s.resets, j)
  }

  ghost predicate LaunchedIsPrefix(launched: set<JobId>) {
    forall i, j :: 0 <= i < j && j in launched ==> i in launched
  }

  ghost predicate ClosedBelow(ids: seq<JobId>, launched: set<JobId>) {
    forall k, i :: 0 <= k < |ids| && 0 <= i < ids[k] && i !in launched && ids[k] !in launched ==> i in ids
  }

  ghost predicate PicksClosedBelow(s: State) {
    forall p :: 0 <= p < |s.polls| && s.polls[p].Marking? ==> ClosedBelow(s.polls[p].jobs, s.launched)
  }

  ghost predicate FirstLaunchInOrder(s: State) {
    LaunchedIsPrefix(s.launched) && UnlaunchedIsUntouched(s) && PicksClosedBelow(s)
  }

  lemma LaunchIsPrefix(ids: seq<JobId>, launched: set<JobId>)
    requires LaunchedIsPrefix(launched) && ClosedBelow(ids, launched)
    ensures LaunchedIsPrefix(launched + set j | j in ids)
  {
  }

  lemma StepKeepsUntouched(c: Config, s: State, a: Action, j: JobId)
    requires Enabled(c, s, a) && Untouched(s.jobs, s.tasks, s.resets, j)
    requires j !in LaunchedAfter(c, s, a)
    ensures Untouched(JobsAfter(c, s, a), TasksAfter(c, s, a), ResetsAfter(c, s, a), j)
  {
    var tasks' := TasksAfter(c, s, a);
    forall t | 0 <= t < |tasks'| ensures tasks'[t].job != j {
      if t >= |s.tasks| {
        assert tasks'[t].job == s.polls[a.poll].jobs[t - |s.tasks|];
      }
    }
  }

  lemma FetchIsClosedBelow(c: Config, s: State, p: nat)
    requires Enabled(c, s, FetchOk(p)) && UnlaunchedIsUntouched(s)
    ensures ClosedBelow(Picked(c, s, p), s.launched)
  {
    var ids := Picked(c, s, p);
    FindManyIs(s.jobs, c.maxAttempts, s.polls[p].capacity);
    forall k, i | 0 <= k < |ids| && 0 <= i < ids[k] && i !in s.launched && ids[k] !in s.launched
      ensures i in ids
    {
      assert Untouched(s.jobs, s.tasks, s.resets, i);
      assert Eligible(s.jobs[i], c.maxAttempts);
    }
  }

  lemma StepKeepsClosedBelow(c: Config, s: State, a: Action)
    requires Enabled(c, s, a) && UnlaunchedIsUntouched(s) && PicksClosedBelow(s)
    ensures PicksClosedBelow(Next(c, s, a))
  {
    var polls', launched' := PollsAfter(c, s, a), LaunchedAfter(c, s, a);
    forall p | 0 <= p < |polls'| && polls'[p].Marking? ensures ClosedBelow(polls'[p].jobs, launched') {
      if a.FetchOk? && p == a.poll {
        FetchIsClosedBelow(c, s, p);
      } else {
        assert p < |s.polls| && polls'[p] == s.polls[p] && s.launched <= launched';
        assert ClosedBelow(s.polls[p].jobs, s.launched);
      }
    }
  }

  lemma StepKeepsOrder(c: Config, s: State, a: Action)
    requires Enabled(c, s, a) && FirstLaunchInOrder(s)
    ensures FirstLaunchInOrder(Next(c, s, a))
  {
    if a.MarkOk? {
      LaunchIsPrefix(s.polls[a.poll].jobs, s.launched);
    }
    forall j | j !in LaunchedAfter(c, s, a)
      ensures Untouched(JobsAfter(c, s, a), TasksAfter(c, s, a), ResetsAfter(c, s, a), j)
    {
      StepKeepsUntouched(c, s, a, j);
    }
    StepKeepsClosedBelow(c, s, a);
  }

  ghost predicate RunInv(c: Config, s: State, initialPool: nat) {
    && DistinctNullifiers(s.jobs) && CountsTasks(s) && ChainInv(s.chain, initialPool)
    && TasksOk(c, s) && RowsOk(c, s) && PicksKnown(s) && SendersKnown(s) && FirstLaunchInOrder(s)
  }

  lemma StepKeepsRunInv(c: Config, s: State, a: Action, initialPool: nat)
    requires Enabled(c, s, a) && RunInv(c, s, initialPool)
    ensures RunInv(c, Next(c, s, a), initialPool)
  {
    StepKeepsDistinct(c, s, a);
    StepKeepsCount(c, s, a);
    StepKeepsChain(c, s, a, initialPool);
    StepKeepsTasks(c, s, a);
    StepKeepsRows(c, s, a);
    StepKeepsPicksKnown(c, s, a);
    StepKeepsSendersKnown(c, s, a);
    StepKeepsOrder(c, s, a);
  }

  // ---- Runs with one poll body at a time: a processing row has one owner -------------------

  ghost predicate AttemptMatches(c: Config, job: Job, phase: Phase) {
    match phase
    case Incrementing => job.attempts < c.maxAttempts
    case Building(attempt, _) => attempt == job.attempts
    case Awaiting(attempt, _, _) => attempt == job.attempts
    case Confirming(attempt, _) => attempt == job.attempts
    case Failing(attempt) => attempt == job.attempts
    case _ => true
  }

  ghost predicate LiveOk(c: Config, jobs: seq<Job>, resets: multiset<JobId>, t: Task) {
    Live(t) ==>
      && t.job < |jobs|
      && jobs[t.job].status.Processing?
      && t.job !in resets
      && AttemptMatches(c, jobs[t.job], t.phase)
  }

  ghost predicate LiveTasksOk(c: Config, s: State) {
    forall t :: 0 <= t < |s.tasks| ==> LiveOk(c, s.jobs, s.resets, s.tasks[t])
  }

  ghost predicate OneLiveTaskPerJob(tasks: seq<Task>) {
    forall t, u :: 0 <= t < u < |tasks| && Live(tasks[t]) && Live(tasks[u]) ==> tasks[t].job != tasks[u].job
  }

  ghost predicate ResetsOk(jobs: seq<Job>, resets: multiset<JobId>) {
    forall j :: j in resets ==> j < |jobs| && resets[j] == 1 && jobs[j].status.Processing?
  }

  ghost predicate AttemptsBounded(c: Config, jobs: seq<Job>) {
    forall j :: 0 <= j < |jobs| ==> jobs[j].attempts <= c.maxAttempts
  }

  /** A processing row is owned by one live task or one reset in flight, never by two. */
  ghost predicate Exclusive(c: Config, s: State) {
    LiveTasksOk(c, s) && OneLiveTaskPerJob(s.tasks) && ResetsOk(s.jobs, s.resets) && AttemptsBounded(c, s.jobs)
  }

  ghost predicate PickOk(c: Config, jobs: seq<Job>, ids: seq<JobId>) {
    && (forall k :: 0 <= k < |ids| ==> ids[k] < |jobs| && Eligible(jobs[ids[k]], c.maxAttempts))
    && (forall k, l :: 0 <= k < l < |ids| ==> ids[k] < ids[l])
  }

  ghost predicate PicksOk(c: Config, s: State) {
    forall p :: 0 <= p < |s.polls| && s.polls[p].Marking? ==> PickOk(c, s.jobs, s.polls[p].jobs)
  }

  ghost predicate OnePoll(polls: seq<Poll>) {
    forall p, q :: 0 <= p < q < |polls| ==> !Active(polls[p]) || !Active(polls[q])
  }

  ghost predicate WithinCapacity(c: Config, active: int, polls: seq<Poll>) {
    && active <= c.maxConcurrent
    && (forall p :: 0 <= p < |polls| && polls[p].Fetching? ==> active + polls[p].capacity <= c.maxConcurrent)
    && (forall p :: 0 <= p < |polls| && polls[p].Marking? ==> active + |polls[p].jobs| <= c.maxConcurrent)
  }

  lemma StepKeepsOnePoll(c: Config, s: State, a: Action)
    requires Enabled(c, s, a) && SerialStep(s, a) && OnePoll(s.polls)
    ensures OnePoll(PollsAfter(c, s, a))
  {
  }

  lemma StepKeepsCapacity(c: Config, s: State, a: Action)
    requires Enabled(c, s, a) && SerialStep(s, a) && OnePoll(s.polls) && WithinCapacity(c, s.activeJobs, s.polls)
    ensures WithinCapacity(c, ActiveAfter(c, s, a), PollsAfter(c, s, a))
  {
    if a.FetchOk? {
      FindManyIs(s.jobs, c.maxAttempts, s.polls[a.poll].capacity);
    }
  }

  /** Only a launch changes a pending row. */
  lemma PendingRowKept(c: Config, s: State, a: Action, j: JobId)
    requires Enabled(c, s, a) && Exclusive(c, s) && j < |s.jobs| && s.jobs[j].status.Pending? && !a.MarkOk?
    ensures j < |JobsAfter(c, s, a)| && JobsAfter(c, s, a)[j] == s.jobs[j]
  {
    if IsTaskStep(a) {
      assert LiveOk(c, s.jobs, s.resets, s.tasks[a.task]);
    }
  }

  lemma PickOkKept(c: Config, s: State, a: Action, ids: seq<JobId>)
    requires Enabled(c, s, a) && Exclusive(c, s) && PickOk(c, s.jobs, ids) && !a.MarkOk?
    ensures PickOk(c, JobsAfter(c, s, a), ids)
  {
    forall k | 0 <= k < |ids| ensures ids[k] < |JobsAfter(c, s, a)| && JobsAfter(c, s, a)[ids[k]] == s.jobs[ids[k]] {
      PendingRowKept(c, s, a, ids[k]);
    }
  }

  lemma StepKeepsPicks(c: Config, s: State, a: Action)
    requires Enabled(c, s, a) && SerialStep(s, a) && OnePoll(s.polls) && PicksOk(c, s) && Exclusive(c, s)
    ensures PicksOk(c, Next(c, s, a))
  {
    var polls' := PollsAfter(c, s, a);
    forall p | 0 <= p < |polls'| && polls'[p].Marking? ensures PickOk(c, JobsAfter(c, s, a), polls'[p].jobs) {
      if a.FetchOk? && p == a.poll {
        FindManyIs(s.jobs, c.maxAttempts, s.polls[p].capacity);
      } else {
        assert p < |s.polls| && polls'[p] == s.polls[p] && Active(s.polls[p]);
        assert PickOk(c, s.jobs, s.polls[p].jobs);
        if a.MarkOk? {
          assert false;
        } else {
          PickOkKept(c, s, a, s.polls[p].jobs);
        }
      }
    }
  }

  // ---- Exclusive ownership, action by action -------------------------------------------------

  lemma NewTaskIs(s: State, ids: seq<JobId>, t: nat)
    requires t < |s.tasks| + |ids|
    ensures (s.tasks + NewTasks(ids))[t] == if t < |s.tasks| then s.tasks[t] else Task(ids[t - |s.tasks|], Incrementing)
  {
  }

  lemma LaunchKeepsOneLive(c: Config, s: State, ids: seq<JobId>)
    requires LiveTasksOk(c, s) && OneLiveTaskPerJob(s.tasks) && PickOk(c, s.jobs, ids)
    ensures OneLiveTaskPerJob(s.tasks + NewTasks(ids))
  {
    var tasks' := s.tasks + NewTasks(ids);
    forall t, u | 0 <= t < u < |tasks'| && Live(tasks'[t]) && Live(tasks'[u])
      ensures tasks'[t].job != tasks'[u].job
    {
      NewTaskIs(s, ids, t);
      NewTaskIs(s, ids, u);
      if t < |s.tasks| {
        assert LiveOk(c, s.jobs, s.resets, s.tasks[t]);
        assert u >= |s.tasks| ==> Eligible(s.jobs[ids[u - |s.tasks|]], c.maxAttempts);
      }
    }
  }

  lemma LaunchKeepsExclusive(c: Config, s: State, p: nat)
    requires Enabled(c, s, MarkOk(p)) && PicksOk(c, s) && Exclusive(c, s)
    ensures Exclusive(c, Next(c, s, MarkOk(p)))
  {
    var ids := s.polls[p].jobs;
    var jobs' := MarkProcessing(s.jobs, ids);
    assert PickOk(c, s.jobs, ids);
    LaunchKeepsOneLive(c, s, ids);
    forall t | 0 <= t < |s.tasks| + |ids| ensures LiveOk(c, jobs', s.resets, (s.tasks + NewTasks(ids))[t]) {
      NewTaskIs(s, ids, t);
      if t < |s.tasks| {
        assert LiveOk(c, s.jobs, s.resets, s.tasks[t]);
      } else {
        assert Eligible(s.jobs[ids[t - |s.tasks|]], c.maxAttempts);
      }
    }
  }

  lemma PhaseChangeKeepsOneLive(tasks: seq<Task>, t: nat, phase: Phase)
    requires t < |tasks| && OneLiveTaskPerJob(tasks)
    requires Live(tasks[t]) || phase.Settling? || phase.Settled?
    ensures OneLiveTaskPerJob(tasks[t := tasks[t].(phase := phase)])
  {
  }

  /** The step's own task stays in order with its row. */
  lemma TaskStepKeepsOwn(c: Config, s: State, a: Action)
    requires Enabled(c, s, a) && IsTaskStep(a) && Exclusive(c, s)
    ensures LiveOk(c, JobsAfter(c, s, a), ResetsAfter(c, s, a), TasksAfter(c, s, a)[a.task])
  {
    assert LiveOk(c, s.jobs, s.resets, s.tasks[a.task]);
  }

  /** Every other live task owns another row, which the step does not touch. */
  lemma TaskStepKeepsOther(c: Config, s: State, a: Action, u: nat)
    requires Enabled(c, s, a) && IsTaskStep(a) && Exclusive(c, s) && u < |s.tasks| && u != a.task
    ensures LiveOk(c, JobsAfter(c, s, a), ResetsAfter(c, s, a), s.tasks[u])
  {
    assert LiveOk(c, s.jobs, s.resets, s.tasks[a.task]) && LiveOk(c, s.jobs, s.resets, s.tasks[u]);
  }

  lemma TaskStepKeepsRows(c: Config, s: State, a: Action)
    requires Enabled(c, s, a) && IsTaskStep(a) && Exclusive(c, s)
    ensures ResetsOk(JobsAfter(c, s, a), ResetsAfter(c, s, a)) && AttemptsBounded(c, JobsAfter(c, s, a))
  {
    assert LiveOk(c, s.jobs, s.resets, s.tasks[a.task]);
  }

  lemma TaskStepKeepsExclusive(c: Config, s: State, a: Action)
    requires Enabled(c, s, a) && IsTaskStep(a) && Exclusive(c, s)
    ensures Exclusive(c, Next(c, s, a))
  {
    var tasks' := TasksAfter(c, s, a);
    PhaseChangeKeepsOneLive(s.tasks, a.task, PhaseAfter(c, s, a));
    TaskStepKeepsRows(c, s, a);
    TaskStepKeepsOwn(c, s, a);
    forall u | 0 <= u < |tasks'| ensures LiveOk(c, JobsAfter(c, s, a), ResetsAfter(c, s, a), tasks'[u]) {
      if u != a.task { TaskStepKeepsOther(c, s, a, u); }
    }
  }

  lemma OtherStepKeepsLive(c: Config, s: State, a: Action)
    requires Enabled(c, s, a) && !IsTaskStep(a) && !a.MarkOk? && LiveTasksOk(c, s)
    ensures LiveTasksOk(c, Next(c, s, a))
  {
    var tasks' := TasksAfter(c, s, a);
    forall u | 0 <= u < |tasks'| ensures LiveOk(c, JobsAfter(c, s, a), ResetsAfter(c, s, a), tasks'[u]) {
      assert LiveOk(c, s.jobs, s.resets, s.tasks[u]);
    }
  }

  lemma OtherStepKeepsExclusive(c: Config, s: State, a: Action)
    requires Enabled(c, s, a) && !IsTaskStep(a) && !a.MarkOk? && Exclusive(c, s)
    ensures Exclusive(c, Next(c, s, a))
  {
    OtherStepKeepsLive(c, s, a);
  }

  lemma StepKeepsExclusive(c: Config, s: State, a: Action)
    requires Enabled(c, s, a) && PicksOk(c, s) && Exclusive(c, s)
    ensures Exclusive(c, Next(c, s, a))
  {
    if a.MarkOk? {
      LaunchKeepsExclusive(c, s, a.poll);
    } else if IsTaskStep(a) {
      TaskStepKeepsExclusive(c, s, a);
    } else {
      OtherStepKeepsExclusive(c, s, a);
    }
  }

  predicate Terminal(job: Job) { job.status.Confirmed? || job.status.Failed? }

  /** A confirmed or failed row is never written again. */
  lemma TerminalRowKept(c: Config, s: State, a: Action, j: JobId)
    requires Enabled(c, s, a) && PicksOk(c, s) && Exclusive(c, s)
    requires j < |s.jobs| && Terminal(s.jobs[j])
    ensures j < |JobsAfter(c, s, a)| && JobsAfter(c, s, a)[j] == s.jobs[j]
  {
    if IsTaskStep(a) {
      assert LiveOk(c, s.jobs, s.resets, s.tasks[a.task]);
    } else if a.MarkOk? {
      assert PickOk(c, s.jobs, s.polls[a.poll].jobs);
    }
  }

  // ---- Transactions per job --------------------------------------------------------

  /** Tries a suspended executor may still turn into transactions. */
  function Remaining(c: Config, phase: Phase): int {
    match phase
    case Building(_, try) => c.maxAttempts - try + 1
    case Awaiting(_, try, _) => c.maxAttempts - try
    case _ => 0
  }

  function Budget(c: Config, job: Job): int { job.attempts * c.maxAttempts }

  ghost predicate TaskWithinBudget(c: Config, jobs: seq<Job>, txs: seq<Tx>, t: Task) {
    Live(t) && t.job < |jobs| ==> Sends(txs, t.job) + Remaining(c, t.phase) <= Budget(c, jobs[t.job])
  }

  /** Every recorded attempt is worth `maxAttempts` transactions. */
  ghost predicate WithinBudget(c: Config, s: State) {
    && (forall j :: 0 <= j < |s.jobs| ==> Sends(s.chain.txs, j) <= Budget(c, s.jobs[j]))
    && (forall t :: 0 <= t < |s.tasks| ==> TaskWithinBudget(c, s.jobs, s.chain.txs, s.tasks[t]))
  }

  lemma SubmitSends(chain: Chain, tx: Tx, j: JobId)
    ensures Sends(Submit(chain, tx).txs, j) == Sends(chain.txs, j) + if tx.job == Some(j) then 1 else 0
  {
    TotalAppend(chain.txs, tx, SentFor(j));
  }

  /** Resolving a transaction leaves its sender. */
  lemma ResolveSends(txs: seq<Tx>, x: nat, state: TxState, j: JobId)
    requires x < |txs|
    ensures Sends(txs[x := txs[x].(state := state)], j) == Sends(txs, j)
  {
    TotalUpdate(txs, x, txs[x].(state := state), SentFor(j));
  }

  lemma ExecuteSends(chain: Chain, x: nat, j: JobId)
    requires x < |chain.txs|
    ensures Sends(Execute(chain, x).txs, j) == Sends(chain.txs, j)
  {
    ResolveSends(chain.txs, x, Landed, j);
    ResolveSends(chain.txs, x, Rejected, j);
  }

  lemma StepSends(c: Config, s: State, a: Action, j: JobId)
    requires Enabled(c, s, a)
    ensures Sends(ChainAfter(c, s, a).txs, j) == Sends(s.chain.txs, j) + if a.Send? && s.tasks[a.task].job == j then 1 else 0
  {
    match a
    case Send(t) => SubmitSends(s.chain, WithdrawalOf(s.jobs, s.tasks[t].job), j);
    case OutsideTx(hash, amount) => SubmitSends(s.chain, Tx(None, hash, amount, InFlight), j);
    case Land(x) => ExecuteSends(s.chain, x, j);
    case Drop(x) => ResolveSends(s.chain.txs, x, Rejected, j);
    case _ =>
  }

  lemma NothingSentYet(s: State, j: JobId)
    requires SendersKnown(s) && j >= |s.jobs|
    ensures Sends(s.chain.txs, j) == 0
  {
    TotalBounds(s.chain.txs, SentFor(j), 0, 0);
  }

  lemma StepBudget(c: Config, s: State, a: Action, j: JobId)
    requires Enabled(c, s, a) && j < |JobsAfter(c, s, a)|
    ensures Budget(c, JobsAfter(c, s, a)[j]) ==
      if j >= |s.jobs| then 0
      else Budget(c, s.jobs[j]) + if a.IncrementOk? && s.tasks[a.task].job == j then c.maxAttempts else 0
  {
    if a.IncrementOk? && s.tasks[a.task].job == j {
      assert (s.jobs[j].attempts + 1) * c.maxAttempts == s.jobs[j].attempts * c.maxAttempts + c.maxAttempts;
    } else if j < |s.jobs| {
      assert JobsAfter(c, s, a)[j].attempts == s.jobs[j].attempts;
    }
  }

  lemma ChangedTaskWithinBudget(c: Config, s: State, a: Action)
    requires Enabled(c, s, a) && IsTaskStep(a) && WithinBudget(c, s) && TaskOk(c, s.jobs, s.chain.txs, s.tasks[a.task])
    ensures TaskWithinBudget(c, JobsAfter(c, s, a), ChainAfter(c, s, a).txs, s.tasks[a.task].(phase := PhaseAfter(c, s, a)))
  {
    var t := s.tasks[a.task];
    assert TaskWithinBudget(c, s.jobs, s.chain.txs, t);
    StepSends(c, s, a, t.job);
    StepBudget(c, s, a, t.job);
  }

  lemma OtherTaskWithinBudget(c: Config, s: State, a: Action, t: nat)
    requires Enabled(c, s, a) && WithinBudget(c, s) && TasksOk(c, s) && OneLiveTaskPerJob(s.tasks)
    requires t < |s.tasks| && (IsTaskStep(a) ==> t != a.task)
    ensures TaskWithinBudget(c, JobsAfter(c, s, a), ChainAfter(c, s, a).txs, s.tasks[t])
  {
    assert TaskOk(c, s.jobs, s.chain.txs, s.tasks[t]) && TaskWithinBudget(c, s.jobs, s.chain.txs, s.tasks[t]);
    StepGrows(c, s, a);
    StepSends(c, s, a, s.tasks[t].job);
    StepBudget(c, s, a, s.tasks[t].job);
    if a.Send? {
      assert Live(s.tasks[a.task]);
    }
  }

  lemma RowWithinBudget(c: Config, s: State, a: Action, j: JobId)
    requires Enabled(c, s, a) && WithinBudget(c, s) && TasksOk(c, s) && SendersKnown(s) && j < |JobsAfter(c, s, a)|
    ensures Sends(ChainAfter(c, s, a).txs, j) <= Budget(c, JobsAfter(c, s, a)[j])
  {
    StepSends(c, s, a, j);
    StepBudget(c, s, a, j);
    if j >= |s.jobs| {
      NothingSentYet(s, j);
    } else if a.Send? {
      assert TaskOk(c, s.jobs, s.chain.txs, s.tasks[a.task]);
      assert TaskWithinBudget(c, s.jobs, s.chain.txs, s.tasks[a.task]);
    }
  }

  lemma StepKeepsBudget(c: Config, s: State, a: Action)
    requires Enabled(c, s, a) && WithinBudget(c, s) && OneLiveTaskPerJob(s.tasks) && SendersKnown(s) && TasksOk(c, s)
    ensures WithinBudget(c, Next(c, s, a))
  {
    var tasks' := TasksAfter(c, s, a);
    forall j | 0 <= j < |JobsAfter(c, s, a)|
      ensures Sends(ChainAfter(c, s, a).txs, j) <= Budget(c, JobsAfter(c, s, a)[j])
    {
      RowWithinBudget(c, s, a, j);
    }
    forall t | 0 <= t < |tasks'|
      ensures TaskWithinBudget(c, JobsAfter(c, s, a), ChainAfter(c, s, a).txs, tasks'[t])
    {
      if IsTaskStep(a) && t == a.task {
        assert TaskOk(c, s.jobs, s.chain.txs, s.tasks[t]);
        ChangedTaskWithinBudget(c, s, a);
      } else if t < |s.tasks| {
        OtherTaskWithinBudget(c, s, a, t);
      } else {
        NewTaskIs(s, s.polls[a.poll].jobs, t);
      }
    }
  }

  ghost predicate SerialInv(c: Config, s: State) {
    && OnePoll(s.polls) && WithinCapacity(c, s.activeJobs, s.polls)
    && PicksOk(c, s) && Exclusive(c, s) && WithinBudget(c, s)
  }

  lemma StepKeepsSerialInv(c: Config, s: State, a: Action)
    requires Enabled(c, s, a) && SerialStep(s, a) && SerialInv(c, s) && SendersKnown(s) && TasksOk(c, s)
    ensures SerialInv(c, Next(c, s, a))
  {
    StepKeepsOnePoll(c, s, a);
    StepKeepsCapacity(c, s, a);
    StepKeepsPicks(c, s, a);
    StepKeepsExclusive(c, s, a);
    StepKeepsBudget(c, s, a);
  }

  // ---- Whole runs --------------------------------------------------------------------

  lemma InitInv(c: Config, initialPool: nat)
    ensures RunInv(c, Init(initialPool), initialPool) && SerialInv(c, Init(initialPool))
  {
  }

  lemma {:induction false} RunKeepsInv(c: Config, s: State, actions: seq<Action>, initialPool: nat)
    requires IsRun(c, s, actions) && RunInv(c, s, initialPool)
    ensures RunInv(c, Exec(c, s, actions), initialPool)
    decreases |actions|
  {
    if actions != [] {
      StepKeepsRunInv(c, s, actions[0], initialPool);
      RunKeepsInv(c, Next(c, s, actions[0]), actions[1..], initialPool);
    }
  }

  lemma {:induction false} SerialRunIsRun(c: Config, s: State, actions: seq<Action>)
    requires IsSerialRun(c, s, actions)
    ensures IsRun(c, s, actions)
    decreases |actions|
  {
    if actions != [] {
      SerialRunIsRun(c, Next(c, s, actions[0]), actions[1..]);
    }
  }

  lemma {:induction false} SerialRunKeepsInv(c: Config, s: State, actions: seq<Action>, initialPool: nat)
    requires IsSerialRun(c, s, actions) && RunInv(c, s, initialPool) && SerialInv(c, s)
    ensures IsRun(c, s, actions)
    ensures RunInv(c, Exec(c, s, actions), initialPool) && SerialInv(c, Exec(c, s, actions))
    decreases |actions|
  {
    SerialRunIsRun(c, s, actions);
    if actions != [] {
      StepKeepsRunInv(c, s, actions[0], initialPool);
      StepKeepsSerialInv(c, s, actions[0]);
      SerialRunKeepsInv(c, Next(c, s, actions[0]), actions[1..], initialPool);
    }
  }

  lemma {:induction false} TerminalRowsKept(c: Config, s: State, actions: seq<Action>, j: JobId, initialPool: nat)
    requires IsSerialRun(c, s, actions) && RunInv(c, s, initialPool) && SerialInv(c, s)
    requires j < |s.jobs| && Terminal(s.jobs[j])
    ensures IsRun(c, s, actions)
    ensures var s' := Exec(c, s, actions); j < |s'.jobs| && s'.jobs[j] == s.jobs[j]
    decreases |actions|
  {
    SerialRunIsRun(c, s, actions);
    if actions != [] {
      StepKeepsRunInv(c, s, actions[0], initialPool);
      StepKeepsSerialInv(c, s, actions[0]);
      TerminalRowKept(c, s, actions[0], j);
      TerminalRowsKept(c, Next(c, s, actions[0]), actions[1..], j, initialPool);
    }
  }
}
