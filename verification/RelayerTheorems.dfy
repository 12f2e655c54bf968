/** The relayer's guarantees, stated about whole runs from an empty job table. */
module RelayerTheorems {
  import opened Base
  import opened Bytes
  import opened Nullifiers
  import opened RelayerProtocol
  import opened RelayerSafety

  // ---- Runs that never overlap two poll bodies ------------------------------------

  lemma SerialReach(c: Config, actions: seq<Action>, initialPool: nat)
    requires IsSerialRun(c, Init(initialPool), actions)
    ensures IsRun(c, Init(initialPool), actions)
    ensures RunInv(c, Exec(c, Init(initialPool), actions), initialPool)
    ensures SerialInv(c, Exec(c, Init(initialPool), actions))
  {
    InitInv(c, initialPool);
    SerialRunKeepsInv(c, Init(initialPool), actions, initialPool);
  }

  /** A job has one live task at most, is never tried more than `maxAttempts` times, fails
      only when its attempts are used up, and the concurrency limit holds. */
  ghost predicate Safe(c: Config, s: State) {
    && (forall t, u :: 0 <= t < u < |s.tasks| && Live(s.tasks[t]) && Live(s.tasks[u]) ==>
          s.tasks[t].job != s.tasks[u].job)
    && (forall j :: 0 <= j < |s.jobs| ==> s.jobs[j].attempts <= c.maxAttempts)
    && (forall j :: 0 <= j < |s.jobs| && s.jobs[j].status.Failed? ==> s.jobs[j].attempts == c.maxAttempts)
    && s.activeJobs == Total(s.tasks, Unfinished) && s.activeJobs <= c.maxConcurrent
  }

  lemma InvIsSafe(c: Config, s: State)
    requires CountsTasks(s) && RowsOk(c, s) && WithinCapacity(c, s.activeJobs, s.polls) && Exclusive(c, s)
    ensures Safe(c, s)
  {
    forall j | 0 <= j < |s.jobs| && s.jobs[j].status.Failed? ensures s.jobs[j].attempts == c.maxAttempts {
      assert RowOk(c, s.jobs, s.chain.txs, j);
    }
  }

  lemma SerialSafety(c: Config, actions: seq<Action>, initialPool: nat)
    requires IsSerialRun(c, Init(initialPool), actions)
    ensures IsRun(c, Init(initialPool), actions)
    ensures Safe(c, Exec(c, Init(initialPool), actions))
  {
    SerialReach(c, actions, initialPool);
    InvIsSafe(c, Exec(c, Init(initialPool), actions));
  }

  /** Once a row is confirmed or failed, the rest of the run leaves it exactly as it is. */
  lemma TerminalIsForever(c: Config, before: seq<Action>, after: seq<Action>, j: JobId, initialPool: nat)
    requires IsSerialRun(c, Init(initialPool), before) && IsRun(c, Init(initialPool), before)
    requires var s := Exec(c, Init(initialPool), before);
      IsSerialRun(c, s, after) && j < |s.jobs| && Terminal(s.jobs[j])
    ensures var s := Exec(c, Init(initialPool), before);
      IsRun(c, s, after) && j < |Exec(c, s, after).jobs| && Exec(c, s, after).jobs[j] == s.jobs[j]
  {
    InitInv(c, initialPool);
    SerialRunKeepsInv(c, Init(initialPool), before, initialPool);
    TerminalRowsKept(c, Exec(c, Init(initialPool), before), after, j, initialPool);
  }

  lemma BudgetBounds(c: Config, s: State, j: JobId)
    requires SendersKnown(s) && WithinBudget(c, s) && AttemptsBounded(c, s.jobs)
    ensures Sends(s.chain.txs, j) <= c.maxAttempts * c.maxAttempts
  {
    if j < |s.jobs| {
      assert (c.maxAttempts - s.jobs[j].attempts) * c.maxAttempts >= 0;
    } else {
      NothingSentYet(s, j);
    }
  }

  lemma SendsBounded(c: Config, actions: seq<Action>, j: JobId, initialPool: nat)
    requires IsSerialRun(c, Init(initialPool), actions)
    ensures IsRun(c, Init(initialPool), actions)
    ensures Sends(Exec(c, Init(initialPool), actions).chain.txs, j) <= c.maxAttempts * c.maxAttempts
  {
    SerialReach(c, actions, initialPool);
    BudgetBounds(c, Exec(c, Init(initialPool), actions), j);
  }

  /** A job that was never launched has seen at most `maxAttempts` recorded attempts for each
      older job and none for a younger one, however many younger jobs arrived. */
  lemma NoStarvation(c: Config, actions: seq<Action>, j: JobId, initialPool: nat)
    requires IsSerialRun(c, Init(initialPool), actions) && IsRun(c, Init(initialPool), actions)
    requires var s := Exec(c, Init(initialPool), actions); j < |s.jobs| && j !in s.launched
    ensures var s := Exec(c, Init(initialPool), actions);
      && (c.maxAttempts > 0 ==> Eligible(s.jobs[j], c.maxAttempts))
      && Total(s.jobs, Attempts) <= j * c.maxAttempts
      && Total(s.jobs[j..], Attempts) == 0
  {
    SerialReach(c, actions, initialPool);
    UnlaunchedBounds(c, Exec(c, Init(initialPool), actions), j);
  }

  lemma UnlaunchedBounds(c: Config, s: State, j: JobId)
    requires FirstLaunchInOrder(s) && AttemptsBounded(c, s.jobs) && j < |s.jobs| && j !in s.launched
    ensures s.jobs[j].status.Pending? && s.jobs[j].attempts == 0
    ensures Total(s.jobs, Attempts) <= j * c.maxAttempts
    ensures Total(s.jobs[j..], Attempts) == 0
  {
    assert s.jobs == s.jobs[..j] + s.jobs[j..];
    TotalConcat(s.jobs[..j], s.jobs[j..], Attempts);
    TotalBounds(s.jobs[..j], Attempts, 0, c.maxAttempts);
    forall k | j <= k < |s.jobs| ensures s.jobs[k].status.Pending? && Attempts(s.jobs[k]) == 0 {
      assert Untouched(s.jobs, s.tasks, s.resets, k);
    }
    TotalBounds(s.jobs[j..], Attempts, 0, 0);
  }

  // ---- All runs, however polls overlap --------------------------------------------

  lemma ActiveJobsIsExact(c: Config, actions: seq<Action>, initialPool: nat)
    requires IsRun(c, Init(initialPool), actions)
    ensures var s := Exec(c, Init(initialPool), actions); s.activeJobs == Total(s.tasks, Unfinished)
  {
    InitInv(c, initialPool);
    RunKeepsInv(c, Init(initialPool), actions, initialPool);
  }

  /** No mix of retries, duplicated tasks, outside transactions and late landings pays a
      nullifier twice, and the pool only ever loses what was paid out. */
  lemma PaysAtMostOnce(c: Config, actions: seq<Action>, nullifier: Key, initialPool: nat)
    requires IsRun(c, Init(initialPool), actions)
    ensures var s := Exec(c, Init(initialPool), actions);
      && 0 <= Total(s.chain.txs, PaidFor(nullifier)) <= 1
      && (Total(s.chain.txs, PaidFor(nullifier)) == 1 <==> nullifier in s.chain.spent)
      && s.chain.pool + Total(s.chain.txs, PaidOut) == initialPool
  {
    InitInv(c, initialPool);
    RunKeepsInv(c, Init(initialPool), actions, initialPool);
  }

  predicate IsSpent(chain: Chain, text: string) {
    HashOf(text).Some? && HashOf(text).value in chain.spent
  }

  /** The row carries the signature of the transaction that paid its own nullifier and amount. */
  predicate IsPaid(s: State, j: JobId)
    requires j < |s.jobs|
  {
    && s.jobs[j].txSignature.Some? && PaidBy(s.jobs, s.chain.txs, j, s.jobs[j].txSignature.value)
    && IsSpent(s.chain, s.jobs[j].nullifier)
  }

  lemma ConfirmedIsPaid(c: Config, actions: seq<Action>, j: JobId, initialPool: nat)
    requires IsRun(c, Init(initialPool), actions)
    requires j < |Exec(c, Init(initialPool), actions).jobs|
    ensures var s := Exec(c, Init(initialPool), actions); s.jobs[j].status.Confirmed? ==> IsPaid(s, j)
  {
    InitInv(c, initialPool);
    RunKeepsInv(c, Init(initialPool), actions, initialPool);
    var s := Exec(c, Init(initialPool), actions);
    assert RowOk(c, s.jobs, s.chain.txs, j);
    if s.jobs[j].status.Confirmed? {
      LandedIsCounted(s.chain.txs, s.jobs[j].txSignature.value);
    }
  }

  lemma {:induction false} LandedIsCounted(txs: seq<Tx>, x: nat)
    requires x < |txs| && txs[x].state.Landed?
    ensures Total(txs, PaidFor(txs[x].nullifier)) >= 1
  {
    var n := txs[x].nullifier;
    TotalBounds(txs[..|txs| - 1], PaidFor(n), 0, 1);
    if x < |txs| - 1 {
      LandedIsCounted(txs[..|txs| - 1], x);
    }
  }

  lemma TwoLandedAreCounted(txs: seq<Tx>, x: nat, y: nat)
    requires x < |txs| && y < |txs| && x != y && txs[x].state.Landed? && txs[y].state.Landed?
    requires txs[x].nullifier == txs[y].nullifier
    ensures Total(txs, PaidFor(txs[x].nullifier)) >= 2
  {
    var rejected := txs[x].(state := Rejected);
    TotalUpdate(txs, x, rejected, PaidFor(txs[x].nullifier));
    LandedIsCounted(txs[x := rejected], y);
  }

  /** However their texts are spelled, two confirmed rows never share a nullifier on the chain. */
  lemma ConfirmedApart(c: Config, actions: seq<Action>, i: JobId, j: JobId, initialPool: nat)
    requires IsRun(c, Init(initialPool), actions) && i != j
    requires var s := Exec(c, Init(initialPool), actions);
      i < |s.jobs| && j < |s.jobs| && s.jobs[i].status.Confirmed? && s.jobs[j].status.Confirmed?
    ensures var s := Exec(c, Init(initialPool), actions); HashOf(s.jobs[i].nullifier) != HashOf(s.jobs[j].nullifier)
  {
    ConfirmedIsPaid(c, actions, i, initialPool);
    ConfirmedIsPaid(c, actions, j, initialPool);
    InitInv(c, initialPool);
    RunKeepsInv(c, Init(initialPool), actions, initialPool);
    var s := Exec(c, Init(initialPool), actions);
    if HashOf(s.jobs[i].nullifier) == HashOf(s.jobs[j].nullifier) {
      TwoLandedAreCounted(s.chain.txs, s.jobs[i].txSignature.value, s.jobs[j].txSignature.value);
    }
  }

  // ---- One row for each nullifier ----------------------------------------------------

  ghost predicate Asked(actions: seq<Action>, text: string) {
    exists k :: 0 <= k < |actions| && actions[k].Create? && actions[k].nullifier == text
  }

  /** The rows are the texts that were asked for. */
  lemma {:induction false} RowsAreAsked(c: Config, s: State, actions: seq<Action>, text: string)
    requires IsRun(c, s, actions)
    ensures HasNullifier(Exec(c, s, actions).jobs, text) <==> HasNullifier(s.jobs, text) || Asked(actions, text)
    decreases |actions|
  {
    if actions != [] {
      var a, rest := actions[0], actions[1..];
      RowsAfterStep(c, s, a, text);
      RowsAreAsked(c, Next(c, s, a), rest, text);
      assert actions == [a] + rest;
      if Asked(rest, text) {
        var k :| 0 <= k < |rest| && rest[k].Create? && rest[k].nullifier == text;
        assert actions[k + 1] == rest[k];
      }
    }
  }

  lemma RowsAfterStep(c: Config, s: State, a: Action, text: string)
    requires Enabled(c, s, a)
    ensures HasNullifier(JobsAfter(c, s, a), text) <==> HasNullifier(s.jobs, text) || (a.Create? && a.nullifier == text)
  {
    var jobs' := JobsAfter(c, s, a);
    StepGrows(c, s, a);
    if HasNullifier(s.jobs, text) {
      var j :| 0 <= j < |s.jobs| && s.jobs[j].nullifier == text;
      assert jobs'[j].nullifier == text;
    } else if a.Create? && a.nullifier == text {
      assert jobs'[|s.jobs|].nullifier == text;
    }
  }

  /** No two rows are one nullifier on the chain. */
  ghost predicate NullifiersApart(jobs: seq<Job>) {
    forall i, j :: 0 <= i < |jobs| && 0 <= j < |jobs| && i != j && CanSend(jobs[i]) ==>
      HashOf(jobs[i].nullifier) != HashOf(jobs[j].nullifier)
  }

  ghost predicate OneSpellingEach(actions: seq<Action>) {
    forall a, b :: Asked(actions, a) && Asked(actions, b) ==> !Respelled(a, b)
  }

  /** The unique index is on the text: nullifiers have one row each exactly when no client spells
      one in two ways. */
  lemma NullifiersApartIff(c: Config, actions: seq<Action>, initialPool: nat)
    requires IsRun(c, Init(initialPool), actions)
    ensures NullifiersApart(Exec(c, Init(initialPool), actions).jobs) <==> OneSpellingEach(actions)
  {
    var jobs := Exec(c, Init(initialPool), actions).jobs;
    InitInv(c, initialPool);
    RunKeepsInv(c, Init(initialPool), actions, initialPool);
    forall text ensures HasNullifier(jobs, text) <==> Asked(actions, text) {
      RowsAreAsked(c, Init(initialPool), actions, text);
    }
    if OneSpellingEach(actions) {
      RowsApart(actions, jobs);
    } else {
      var a, b :| Asked(actions, a) && Asked(actions, b) && Respelled(a, b);
      assert HasNullifier(jobs, a) && HasNullifier(jobs, b);
    }
  }

  lemma RowsApart(actions: seq<Action>, jobs: seq<Job>)
    requires DistinctNullifiers(jobs) && OneSpellingEach(actions)
    requires forall text :: HasNullifier(jobs, text) <==> Asked(actions, text)
    ensures NullifiersApart(jobs)
  {
    forall i, j | 0 <= i < |jobs| && 0 <= j < |jobs| && i != j && CanSend(jobs[i])
      ensures HashOf(jobs[i].nullifier) != HashOf(jobs[j].nullifier)
    {
      assert HasNullifier(jobs, jobs[i].nullifier) && HasNullifier(jobs, jobs[j].nullifier);
      assert !Respelled(jobs[i].nullifier, jobs[j].nullifier);
    }
  }

  /** As the client's own code does: hex text in lower case. */
  predicate InOneCase(text: string) {
    |text| == 64 && Lowered(text) == text
  }

  lemma OneCaseSuffices(actions: seq<Action>)
    requires forall text :: Asked(actions, text) ==> InOneCase(text)
    ensures OneSpellingEach(actions)
  {
    forall a, b | Asked(actions, a) && Asked(actions, b) ensures !Respelled(a, b) {
      assert InOneCase(a) && InOneCase(b);
      if Respelled(a, b) { OneNullifierIff(a, b); }
    }
  }

  lemma FirstLaunchesInOrder(c: Config, actions: seq<Action>, i: JobId, j: JobId, initialPool: nat)
    requires IsRun(c, Init(initialPool), actions) && i < j
    ensures var s := Exec(c, Init(initialPool), actions);
      && (j in s.launched ==> i in s.launched)
      && (i < |s.jobs| && i !in s.launched ==> s.jobs[i].status.Pending? && s.jobs[i].attempts == 0)
  {
    InitInv(c, initialPool);
    RunKeepsInv(c, Init(initialPool), actions, initialPool);
    var s := Exec(c, Init(initialPool), actions);
    assert i !in s.launched ==> Untouched(s.jobs, s.tasks, s.resets, i);
  }

  lemma {:induction false} RunAppend(c: Config, s: State, actions: seq<Action>, a: Action)
    requires IsRun(c, s, actions) && Enabled(c, Exec(c, s, actions), a)
    ensures IsRun(c, s, actions + [a])
    ensures Exec(c, s, actions + [a]) == Next(c, Exec(c, s, actions), a)
    ensures IsSerialRun(c, s, actions) && SerialStep(Exec(c, s, actions), a) ==> IsSerialRun(c, s, actions + [a])
    decreases |actions|
  {
    if actions == [] {
      assert [a][1..] == [];
    } else {
      assert (actions + [a])[1..] == actions[1..] + [a];
      RunAppend(c, Next(c, s, actions[0]), actions[1..], a);
    }
  }
}
