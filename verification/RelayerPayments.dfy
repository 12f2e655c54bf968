/** Exactly when a job the relayer gave up on is paid after all. */
module RelayerPayments {
  import opened Base
  import opened Nullifiers
  import opened RelayerProtocol
  import opened RelayerSafety
  import opened RelayerTheorems

  // ---- A failed row is left alone ----------------------------------------------------------------

  predicate NotOn(t: Task, j: JobId) {
    t.job == j ==> !Live(t)
  }

  predicate NotIn(p: Poll, j: JobId) {
    p.Marking? ==> j !in p.jobs
  }

  /** Nothing in flight belongs to the job. */
  ghost predicate Unattended(s: State, j: JobId) {
    && (forall t :: 0 <= t < |s.tasks| ==> NotOn(s.tasks[t], j))
    && (forall p :: 0 <= p < |s.polls| ==> NotIn(s.polls[p], j))
    && j !in s.resets
  }

  ghost predicate AtRest(s: State, j: JobId) {
    j < |s.jobs| && s.jobs[j].status.Failed? && Unattended(s, j)
  }

  lemma FailedIsAtRest(c: Config, s: State, j: JobId)
    requires SerialInv(c, s) && j < |s.jobs| && s.jobs[j].status.Failed?
    ensures AtRest(s, j)
  {
    forall t | 0 <= t < |s.tasks| ensures NotOn(s.tasks[t], j) {
      assert LiveOk(c, s.jobs, s.resets, s.tasks[t]);
    }
    forall p | 0 <= p < |s.polls| ensures NotIn(s.polls[p], j) {
      if s.polls[p].Marking? { assert PickOk(c, s.jobs, s.polls[p].jobs); }
    }
  }

  /** A job that no poll can pick stays unattended. */
  lemma StepKeepsUnattended(c: Config, s: State, a: Action, j: JobId)
    requires Enabled(c, s, a) && Unattended(s, j) && j < |s.jobs| && !s.jobs[j].status.Pending?
    ensures Unattended(Next(c, s, a), j)
  {
    var tasks', polls' := TasksAfter(c, s, a), PollsAfter(c, s, a);
    forall t | 0 <= t < |tasks'| ensures NotOn(tasks'[t], j) {
      TaskStaysOff(c, s, a, j, t);
    }
    forall p | 0 <= p < |polls'| ensures NotIn(polls'[p], j) {
      PollStaysOff(c, s, a, j, p);
    }
    if IsTaskStep(a) { assert NotOn(s.tasks[a.task], j); }
  }

  lemma TaskStaysOff(c: Config, s: State, a: Action, j: JobId, t: nat)
    requires Enabled(c, s, a) && Unattended(s, j) && t < |TasksAfter(c, s, a)|
    ensures NotOn(TasksAfter(c, s, a)[t], j)
  {
    if a.MarkOk? {
      var ids := s.polls[a.poll].jobs;
      assert NotIn(s.polls[a.poll], j);
      NewTaskIs(s, ids, t);
      if t < |s.tasks| {
        assert NotOn(s.tasks[t], j);
      } else {
        assert ids[t - |s.tasks|] in ids;
      }
    } else {
      assert NotOn(s.tasks[t], j);
    }
  }

  lemma PollStaysOff(c: Config, s: State, a: Action, j: JobId, p: nat)
    requires Enabled(c, s, a) && Unattended(s, j) && p < |PollsAfter(c, s, a)|
    requires j < |s.jobs| && !s.jobs[j].status.Pending?
    ensures NotIn(PollsAfter(c, s, a)[p], j)
  {
    if a.FetchOk? && p == a.poll {
      FindManyIs(s.jobs, c.maxAttempts, s.polls[p].capacity);
    } else if p < |s.polls| {
      assert NotIn(s.polls[p], j);
    }
  }

  /** An unattended row that is not pending is not written. */
  lemma UnattendedRowKept(c: Config, s: State, a: Action, j: JobId)
    requires Enabled(c, s, a) && Unattended(s, j) && j < |s.jobs| && !s.jobs[j].status.Pending?
    ensures j < |JobsAfter(c, s, a)| && JobsAfter(c, s, a)[j] == s.jobs[j]
  {
    if IsTaskStep(a) { assert NotOn(s.tasks[a.task], j); }
  }

  lemma StepKeepsRest(c: Config, s: State, a: Action, j: JobId)
    requires Enabled(c, s, a) && AtRest(s, j)
    ensures AtRest(Next(c, s, a), j) && JobsAfter(c, s, a)[j] == s.jobs[j]
  {
    StepKeepsUnattended(c, s, a, j);
    UnattendedRowKept(c, s, a, j);
  }

  // ---- What can still pay it ------------------------------------------------------------------------

  /** A submitted transaction that is neither confirmed nor dropped and that the pool covers. */
  predicate CanLand(chain: Chain, n: string, x: nat) {
    x < |chain.txs| && chain.txs[x].state.InFlight? && Names(n, chain.txs[x].nullifier) && chain.txs[x].amount <= chain.pool
  }

  ghost predicate Payable(chain: Chain, n: string) {
    exists x :: CanLand(chain, n, x)
  }

  ghost predicate Unpayable(chain: Chain, n: string) {
    !IsSpent(chain, n) && !Payable(chain, n)
  }

  lemma SubmitOtherKeepsUnpayable(chain: Chain, tx: Tx, n: string)
    requires Unpayable(chain, n) && !Names(n, tx.nullifier)
    ensures Unpayable(Submit(chain, tx), n)
  {
    var after := Submit(chain, tx);
    forall x | CanLand(after, n, x) ensures false {
      assert CanLand(chain, n, x);
    }
  }

  lemma ExecuteKeepsUnpayable(chain: Chain, x: nat, n: string)
    requires Unpayable(chain, n) && x < |chain.txs| && chain.txs[x].state.InFlight?
    ensures Unpayable(Execute(chain, x), n)
  {
    var after := Execute(chain, x);
    assert !CanLand(chain, n, x);
    forall y | CanLand(after, n, y) ensures false {
      assert CanLand(chain, n, y);
    }
  }

  lemma DropKeepsUnpayable(chain: Chain, x: nat, n: string)
    requires Unpayable(chain, n) && x < |chain.txs|
    ensures Unpayable(chain.(txs := chain.txs[x := chain.txs[x].(state := Rejected)]), n)
  {
    var after := chain.(txs := chain.txs[x := chain.txs[x].(state := Rejected)]);
    forall y | CanLand(after, n, y) ensures false {
      assert CanLand(chain, n, y);
    }
  }

  /** Somebody else submits the nullifier: to the chain, or to the relayer with another spelling. */
  predicate IsForeign(a: Action, n: string) {
    (a.OutsideTx? && Names(n, a.hash)) || (a.Create? && Respelled(a.nullifier, n))
  }

  /** No row of the table spells the nullifier otherwise. */
  ghost predicate OnlySpelling(jobs: seq<Job>, n: string) {
    forall i :: 0 <= i < |jobs| ==> !Respelled(jobs[i].nullifier, n)
  }

  lemma StepKeepsSpelling(c: Config, s: State, a: Action, n: string)
    requires Enabled(c, s, a) && OnlySpelling(s.jobs, n) && !IsForeign(a, n)
    ensures OnlySpelling(JobsAfter(c, s, a), n)
  {
    StepGrows(c, s, a);
  }

  lemma StepKeepsUnpayable(c: Config, s: State, a: Action, j: JobId)
    requires Enabled(c, s, a) && AtRest(s, j) && DistinctNullifiers(s.jobs)
    requires Unpayable(s.chain, s.jobs[j].nullifier) && !IsForeign(a, s.jobs[j].nullifier)
    requires OnlySpelling(s.jobs, s.jobs[j].nullifier)
    ensures Unpayable(ChainAfter(c, s, a), s.jobs[j].nullifier)
  {
    var n := s.jobs[j].nullifier;
    match a
    case Send(t) =>
      assert NotOn(s.tasks[t], j);
      var k := s.tasks[t].job;
      assert s.jobs[k].nullifier != n && !Respelled(s.jobs[k].nullifier, n);
      SubmitOtherKeepsUnpayable(s.chain, WithdrawalOf(s.jobs, k), n);
    case OutsideTx(hash, amount) => SubmitOtherKeepsUnpayable(s.chain, Tx(None, hash, amount, InFlight), n);
    case Land(x) => ExecuteKeepsUnpayable(s.chain, x, n);
    case Drop(x) => DropKeepsUnpayable(s.chain, x, n);
    case _ =>
  }

  ghost predicate NoForeign(actions: seq<Action>, n: string) {
    forall i :: 0 <= i < |actions| ==> !IsForeign(actions[i], n)
  }

  lemma {:induction false} NeverPaid(c: Config, s: State, actions: seq<Action>, j: JobId)
    requires IsRun(c, s, actions) && AtRest(s, j) && DistinctNullifiers(s.jobs)
    requires Unpayable(s.chain, s.jobs[j].nullifier) && NoForeign(actions, s.jobs[j].nullifier)
    requires OnlySpelling(s.jobs, s.jobs[j].nullifier)
    ensures !IsSpent(Exec(c, s, actions).chain, s.jobs[j].nullifier)
    decreases |actions|
  {
    if actions != [] {
      var a := actions[0];
      assert !IsForeign(a, s.jobs[j].nullifier);
      StepKeepsRest(c, s, a, j);
      StepKeepsDistinct(c, s, a);
      StepKeepsSpelling(c, s, a, s.jobs[j].nullifier);
      StepKeepsUnpayable(c, s, a, j);
      assert forall i :: 0 <= i < |actions[1..]| ==> actions[1..][i] == actions[i + 1];
      NeverPaid(c, Next(c, s, a), actions[1..], j);
    }
  }

  /** Some continuation, in which nobody else submits the nullifier, has it spent. Polls may overlap. */
  ghost predicate CanBePaid(c: Config, s: State, j: JobId)
    requires j < |s.jobs|
  {
    exists more :: IsRun(c, s, more) && NoForeign(more, s.jobs[j].nullifier) && IsSpent(Exec(c, s, more).chain, s.jobs[j].nullifier)
  }

  lemma SpentCanBePaid(c: Config, s: State, j: JobId)
    requires j < |s.jobs| && IsSpent(s.chain, s.jobs[j].nullifier)
    ensures CanBePaid(c, s, j)
  {
    assert IsRun(c, s, []) && NoForeign([], s.jobs[j].nullifier) && Exec(c, s, []) == s;
  }

  lemma LandingPays(c: Config, s: State, j: JobId, x: nat)
    requires j < |s.jobs| && CanLand(s.chain, s.jobs[j].nullifier, x)
    ensures CanBePaid(c, s, j)
  {
    var more := [Land(x)];
    RunAppend(c, s, [], Land(x));
    assert [] + more == more;
    assert NoForeign(more, s.jobs[j].nullifier);
  }

  lemma RestIsPaidIff(c: Config, s: State, j: JobId)
    requires AtRest(s, j) && DistinctNullifiers(s.jobs) && OnlySpelling(s.jobs, s.jobs[j].nullifier)
    ensures CanBePaid(c, s, j) <==> IsSpent(s.chain, s.jobs[j].nullifier) || Payable(s.chain, s.jobs[j].nullifier)
  {
    var n := s.jobs[j].nullifier;
    if IsSpent(s.chain, n) {
      SpentCanBePaid(c, s, j);
    } else if Payable(s.chain, n) {
      var x :| CanLand(s.chain, n, x);
      LandingPays(c, s, j, x);
    } else {
      forall more | IsRun(c, s, more) && NoForeign(more, n) ensures !IsSpent(Exec(c, s, more).chain, n) {
        NeverPaid(c, s, more, j);
      }
    }
  }

  /** A job given up on is, or will yet be, paid exactly when its nullifier is spent already or one of
      its submitted transactions is still unresolved and covered by the pool, provided no other row
      spells its nullifier otherwise. */
  lemma FailedIsPaidIff(c: Config, actions: seq<Action>, j: JobId, initialPool: nat)
    requires IsSerialRun(c, Init(initialPool), actions) && IsRun(c, Init(initialPool), actions)
    requires var s := Exec(c, Init(initialPool), actions);
      j < |s.jobs| && s.jobs[j].status.Failed? && OnlySpelling(s.jobs, s.jobs[j].nullifier)
    ensures var s := Exec(c, Init(initialPool), actions); var n := s.jobs[j].nullifier;
      CanBePaid(c, s, j) <==> IsSpent(s.chain, n) || Payable(s.chain, n)
  {
    SerialReach(c, actions, initialPool);
    FailedIsAtRest(c, Exec(c, Init(initialPool), actions), j);
    RestIsPaidIff(c, Exec(c, Init(initialPool), actions), j);
  }

  // ---- When a failed row is never paid ---------------------------------------------------------------

  /** For the jobs of one nullifier: a send is only given up on when the chain rejected it, the
      record of a confirmation does not fail, and nobody else submits the nullifier. */
  predicate CarefulStep(s: State, a: Action, n: string) {
    && !IsForeign(a, n)
    && (a.SendFails? && Concerns(s, a.task, n) && s.tasks[a.task].phase.Awaiting? ==>
          s.tasks[a.task].phase.tx < |s.chain.txs| && s.chain.txs[s.tasks[a.task].phase.tx].state.Rejected?)
    && (a.RecordFails? && Concerns(s, a.task, n) ==> !s.tasks[a.task].phase.Confirming?)
  }

  predicate Concerns(s: State, t: nat, n: string) {
    t < |s.tasks| && s.tasks[t].job < |s.jobs| && s.jobs[s.tasks[t].job].nullifier == n
  }

  predicate Careful(c: Config, s: State, actions: seq<Action>, n: string)
    decreases |actions|
  {
    actions == [] ||
    (Enabled(c, s, actions[0]) && CarefulStep(s, actions[0], n) && Careful(c, Next(c, s, actions[0]), actions[1..], n))
  }

  /** A transaction of the nullifier that the chain did not reject. */
  predicate Unrejected(txs: seq<Tx>, n: string, x: nat) {
    x < |txs| && Names(n, txs[x].nullifier) && !txs[x].state.Rejected?
  }

  predicate OnIt(tasks: seq<Task>, t: nat, j: JobId, x: nat) {
    && t < |tasks| && tasks[t].job == j
    && ((tasks[t].phase.Awaiting? && tasks[t].phase.tx == x) || (tasks[t].phase.Confirming? && tasks[t].phase.tx == x))
  }

  /** Why it is there: the row is confirmed, its task still follows it, or a crash left the row
      processing for good. */
  ghost predicate Explained(s: State, n: string, j: JobId, x: nat) {
    && j < |s.jobs| && s.jobs[j].nullifier == n
    && (s.jobs[j].status.Confirmed? || (s.jobs[j].status.Processing? && Unattended(s, j)) || exists t :: OnIt(s.tasks, t, j, x))
  }

  ghost predicate AllExplained(s: State, n: string) {
    forall x :: Unrejected(s.chain.txs, n, x) ==> exists j :: Explained(s, n, j, x)
  }

  lemma NullifierKept(c: Config, s: State, a: Action, j: JobId)
    requires Enabled(c, s, a) && j < |s.jobs|
    ensures j < |JobsAfter(c, s, a)| && JobsAfter(c, s, a)[j].nullifier == s.jobs[j].nullifier
  {
    StepGrows(c, s, a);
  }

  lemma StrandedStays(c: Config, s: State, a: Action, n: string, j: JobId, x: nat)
    requires Enabled(c, s, a) && j < |s.jobs| && s.jobs[j].nullifier == n
    requires s.jobs[j].status.Processing? && Unattended(s, j)
    ensures Explained(Next(c, s, a), n, j, x)
  {
    StepKeepsUnattended(c, s, a, j);
    UnattendedRowKept(c, s, a, j);
  }

  lemma CrashStrands(c: Config, s: State, n: string, j: JobId, t: nat, x: nat)
    requires Exclusive(c, s) && j < |s.jobs| && s.jobs[j].nullifier == n && OnIt(s.tasks, t, j, x)
    ensures Explained(Next(c, s, Crash), n, j, x)
  {
    assert LiveOk(c, s.jobs, s.resets, s.tasks[t]);
    assert Unattended(Next(c, s, Crash), j);
  }

  /** The task's own step: it moves on with its transaction, or the row is confirmed. */
  lemma OwnStepExplains(c: Config, s: State, a: Action, n: string, j: JobId, x: nat)
    requires Enabled(c, s, a) && IsTaskStep(a) && CarefulStep(s, a, n)
    requires j < |s.jobs| && s.jobs[j].nullifier == n && OnIt(s.tasks, a.task, j, x)
    requires Unrejected(ChainAfter(c, s, a).txs, n, x)
    ensures Explained(Next(c, s, a), n, j, x)
  {
    NullifierKept(c, s, a, j);
    assert Concerns(s, a.task, n);
    if a.SendConfirmed? {
      assert OnIt(TasksAfter(c, s, a), a.task, j, x);
    }
  }

  lemma FollowedStays(c: Config, s: State, a: Action, n: string, j: JobId, t: nat, x: nat)
    requires Enabled(c, s, a) && CarefulStep(s, a, n) && Exclusive(c, s)
    requires j < |s.jobs| && s.jobs[j].nullifier == n && OnIt(s.tasks, t, j, x)
    requires Unrejected(ChainAfter(c, s, a).txs, n, x)
    ensures Explained(Next(c, s, a), n, j, x)
  {
    if a.Crash? {
      CrashStrands(c, s, n, j, t, x);
    } else if IsTaskStep(a) && a.task == t {
      OwnStepExplains(c, s, a, n, j, x);
    } else {
      NullifierKept(c, s, a, j);
      assert OnIt(TasksAfter(c, s, a), t, j, x);
    }
  }

  lemma ExplainedStays(c: Config, s: State, a: Action, n: string, j: JobId, x: nat)
    requires Enabled(c, s, a) && CarefulStep(s, a, n) && Exclusive(c, s) && PicksOk(c, s)
    requires Explained(s, n, j, x) && Unrejected(ChainAfter(c, s, a).txs, n, x)
    ensures Explained(Next(c, s, a), n, j, x)
  {
    if s.jobs[j].status.Confirmed? {
      TerminalRowKept(c, s, a, j);
    } else if s.jobs[j].status.Processing? && Unattended(s, j) {
      StrandedStays(c, s, a, n, j, x);
    } else {
      var t :| OnIt(s.tasks, t, j, x);
      FollowedStays(c, s, a, n, j, t, x);
    }
  }

  lemma OldTx(c: Config, s: State, a: Action, n: string, x: nat)
    requires Enabled(c, s, a) && x < |s.chain.txs| && Unrejected(ChainAfter(c, s, a).txs, n, x)
    ensures Unrejected(s.chain.txs, n, x)
  {
  }

  lemma NewTxExplained(c: Config, s: State, a: Action, n: string, x: nat)
    requires Enabled(c, s, a) && !IsForeign(a, n) && OnlySpelling(s.jobs, n)
    requires x >= |s.chain.txs| && Unrejected(ChainAfter(c, s, a).txs, n, x)
    ensures exists j :: Explained(Next(c, s, a), n, j, x)
  {
    assert a.Send? && x == |s.chain.txs|;
    var j := s.tasks[a.task].job;
    assert !Respelled(s.jobs[j].nullifier, n);
    NullifierKept(c, s, a, j);
    assert OnIt(TasksAfter(c, s, a), a.task, j, x);
    assert Explained(Next(c, s, a), n, j, x);
  }

  lemma StepKeepsExplained(c: Config, s: State, a: Action, n: string)
    requires Enabled(c, s, a) && CarefulStep(s, a, n) && Exclusive(c, s) && PicksOk(c, s)
    requires AllExplained(s, n) && OnlySpelling(s.jobs, n)
    ensures AllExplained(Next(c, s, a), n)
  {
    forall x: nat | Unrejected(ChainAfter(c, s, a).txs, n, x) ensures exists j :: Explained(Next(c, s, a), n, j, x) {
      if x < |s.chain.txs| {
        OldTx(c, s, a, n, x);
        var j :| Explained(s, n, j, x);
        ExplainedStays(c, s, a, n, j, x);
      } else {
        NewTxExplained(c, s, a, n, x);
      }
    }
  }

  lemma {:induction false} RunKeepsExplained(c: Config, s: State, actions: seq<Action>, n: string, initialPool: nat)
    requires IsSerialRun(c, s, actions) && RunInv(c, s, initialPool) && SerialInv(c, s)
    requires Careful(c, s, actions, n) && AllExplained(s, n) && OnlySpelling(s.jobs, n)
    ensures IsRun(c, s, actions) && AllExplained(Exec(c, s, actions), n) && OnlySpelling(Exec(c, s, actions).jobs, n)
    decreases |actions|
  {
    SerialRunIsRun(c, s, actions);
    if actions != [] {
      StepKeepsRunInv(c, s, actions[0], initialPool);
      StepKeepsSerialInv(c, s, actions[0]);
      StepKeepsExplained(c, s, actions[0], n);
      StepKeepsSpelling(c, s, actions[0], n);
      RunKeepsExplained(c, Next(c, s, actions[0]), actions[1..], n, initialPool);
    }
  }

  /** Nothing explains an unrejected transaction of a failed row. */
  lemma FailedHasNone(c: Config, s: State, j: JobId, x: nat)
    requires DistinctNullifiers(s.jobs) && Exclusive(c, s)
    requires j < |s.jobs| && s.jobs[j].status.Failed? && AllExplained(s, s.jobs[j].nullifier)
    ensures !Unrejected(s.chain.txs, s.jobs[j].nullifier, x)
  {
    forall t: nat ensures !OnIt(s.tasks, t, j, x) {
      if t < |s.tasks| { assert LiveOk(c, s.jobs, s.resets, s.tasks[t]); }
    }
    assert forall k: nat :: !Explained(s, s.jobs[j].nullifier, k, x);
  }

  lemma NoneMeansUnspent(chain: Chain, n: string, initialPool: nat)
    requires ChainInv(chain, initialPool) && forall x :: !Unrejected(chain.txs, n, x)
    ensures Unpayable(chain, n)
  {
    if HashOf(n).Some? {
      var hash := HashOf(n).value;
      forall x | 0 <= x < |chain.txs| ensures PaidFor(hash)(chain.txs[x]) == 0 {
        assert !Unrejected(chain.txs, n, x);
      }
      TotalBounds(chain.txs, PaidFor(hash), 0, 0);
    }
    forall x | CanLand(chain, n, x) ensures false {
      assert Unrejected(chain.txs, n, x);
    }
  }

  /** If no send of a job was given up on while its transaction was unresolved, no record of its
      confirmation failed and nobody else submitted its nullifier, then a job that ended failed was
      not paid and never will be. */
  lemma CarefulFailureIsUnpaid(c: Config, actions: seq<Action>, j: JobId, initialPool: nat)
    requires IsSerialRun(c, Init(initialPool), actions) && IsRun(c, Init(initialPool), actions)
    requires var s := Exec(c, Init(initialPool), actions); j < |s.jobs| && s.jobs[j].status.Failed?
    requires Careful(c, Init(initialPool), actions, Exec(c, Init(initialPool), actions).jobs[j].nullifier)
    ensures var s := Exec(c, Init(initialPool), actions);
      !IsSpent(s.chain, s.jobs[j].nullifier) && !CanBePaid(c, s, j)
  {
    InitInv(c, initialPool);
    SerialReach(c, actions, initialPool);
    var s := Exec(c, Init(initialPool), actions);
    RunKeepsExplained(c, Init(initialPool), actions, s.jobs[j].nullifier, initialPool);
    forall x ensures !Unrejected(s.chain.txs, s.jobs[j].nullifier, x) {
      FailedHasNone(c, s, j, x);
    }
    NoneMeansUnspent(s.chain, s.jobs[j].nullifier, initialPool);
    FailedIsPaidIff(c, actions, j, initialPool);
  }
}
