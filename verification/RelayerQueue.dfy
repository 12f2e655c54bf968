/**
 * The QueueProcessor object itself. Each method is the code of `_poll`, `_processJob` or
 * `execute` between two awaits, updating the fields as the source does; each is proved to
 * take exactly the step of the protocol it stands for, so what RelayerTheorems proves about
 * runs holds of every interleaving of these methods.
 */
module RelayerQueue {
  import opened Base
  import opened Nullifiers
  import opened RelayerProtocol

  /** Both failures of a poll have one effect. */
  lemma FailureIs(c: Config, s: State, p: nat)
    requires Enabled(c, s, FetchFails(p)) || Enabled(c, s, MarkFails(p))
    ensures var after := s.(clock := Schedule(s.clock.(backoffMs := NextBackoff(s.clock.backoffMs))), polls := s.polls[p := Ended]);
      && (Enabled(c, s, FetchFails(p)) ==> Next(c, s, FetchFails(p)) == after)
      && (Enabled(c, s, MarkFails(p)) ==> Next(c, s, MarkFails(p)) == after)
  {
  }

  lemma LaunchIs(c: Config, s: State, p: nat)
    requires Enabled(c, s, MarkOk(p))
    ensures var ids := s.polls[p].jobs;
      Next(c, s, MarkOk(p)) == s.(
        clock := Schedule(s.clock), activeJobs := s.activeJobs + |ids|, polls := s.polls[p := Ended],
        tasks := s.tasks + NewTasks(ids), jobs := MarkProcessing(s.jobs, ids), launched := s.launched + set j | j in ids)
  {
  }

  /** Both rejections of a task have one effect. */
  lemma RejectionIs(c: Config, s: State, t: nat)
    requires Enabled(c, s, IncrementFails(t)) || (Enabled(c, s, RecordFails(t)) && s.tasks[t].phase.Failing?)
    ensures var after := s.(tasks := s.tasks[t := s.tasks[t].(phase := Settling)], resets := s.resets + multiset{s.tasks[t].job});
      && (Enabled(c, s, IncrementFails(t)) ==> Next(c, s, IncrementFails(t)) == after)
      && (Enabled(c, s, RecordFails(t)) ==> Next(c, s, RecordFails(t)) == after)
  {
  }

  class QueueProcessor {
    const config: Config
    var running: bool
    var timer: Option<nat>
    var activeJobs: int
    var backoffMs: nat

    // The event loop's share of the state
    var armed: set<nat>
    var nextTimer: nat
    var polls: seq<Poll>
    var tasks: seq<Task>
    var resets: multiset<JobId>

    // The database and the chain
    var jobs: seq<Job>
    var chain: Chain

    ghost var launched: set<JobId>

    ghost function View(): State
      reads this
    {
      State(ClockView(), activeJobs, polls, tasks, resets, jobs, chain, launched)
    }

    ghost function ClockView(): Clock
      reads this
    {
      Clock(running, timer, backoffMs, armed, nextTimer)
    }

    ghost predicate CanDo(a: Action)
      reads this
    {
      Enabled(config, View(), a)
    }

    constructor (config: Config, pool: nat)
      ensures this.config == config && View() == Init(pool)
    {
      this.config := config;
      running, timer, activeJobs, backoffMs := false, None, 0, 0;
      armed, nextTimer, polls, tasks, resets := {}, 0, [], [], multiset{};
      jobs, chain, launched := [], Chain([], {}, pool), {};
    }

    method ScheduleNextPoll()
      modifies `armed, `timer, `nextTimer
      ensures ClockView() == Schedule(old(ClockView()))
    {
      if !running { return; }
      armed := armed + {nextTimer};
      timer := Some(nextTimer);
      nextTimer := nextTimer + 1;
    }

    method Start()
      modifies this
      ensures View() == Next(config, old(View()), Action.Start)
    {
      if running { return; }
      running := true;
      ScheduleNextPoll();
    }

    method Stop()
      modifies this
      ensures View() == Next(config, old(View()), Action.Stop)
    {
      running := false;
      if timer != None {
        armed := armed - {timer.value};
        timer := None;
      }
    }

    /** POST /jobs: a known nullifier is answered with the row that has it. */
    method Enqueue(nullifier: string, amount: nat) returns (id: JobId, created: bool)
      modifies this
      ensures View() == Next(config, old(View()), Create(nullifier, amount))
      ensures id < |jobs| && jobs[id].nullifier == nullifier
      ensures created <==> forall j :: 0 <= j < |old(jobs)| ==> old(jobs)[j].nullifier != nullifier
      ensures created <==> |jobs| == |old(jobs)| + 1
    {
      id, created := 0, false;
      while id < |jobs|
        invariant id <= |jobs|
        invariant forall j :: 0 <= j < id ==> jobs[j].nullifier != nullifier
      {
        if jobs[id].nullifier == nullifier { return; }
        id := id + 1;
      }
      created := true;
      jobs := jobs + [Job(nullifier, amount, Pending, 0, None)];
    }

    /** `_poll` up to its first await. */
    method PollBegin(fired: nat)
      requires CanDo(TimerFires(fired))
      modifies this
      ensures View() == Next(config, old(View()), TimerFires(fired))
    {
      armed := armed - {fired};
      timer := None;
      var capacity := config.maxConcurrent - activeJobs;
      if capacity <= 0 {
        ScheduleNextPoll();
        ScheduleNextPoll();
        return;
      }
      polls := polls + [Fetching(capacity)];
    }

    /** `_poll` after `findMany` answered. */
    method PollFetched(p: nat)
      requires CanDo(FetchOk(p))
      modifies this
      ensures View() == Next(config, old(View()), FetchOk(p))
    {
      var found := FindMany(jobs, config.maxAttempts, polls[p].capacity);
      backoffMs := 0;
      if |found| == 0 {
        polls := polls[p := Ended];
        ScheduleNextPoll();
        ScheduleNextPoll();
        return;
      }
      polls := polls[p := Marking(found)];
    }

    /** Fire off the fetched jobs without waiting for any of them. */
    method LaunchAll(picked: seq<JobId>)
      modifies this`activeJobs, this`tasks, this`launched
      ensures activeJobs == old(activeJobs) + |picked|
      ensures tasks == old(tasks) + NewTasks(picked)
      ensures launched == old(launched) + set j | j in picked
    {
      for k := 0 to |picked|
        invariant activeJobs == old(activeJobs) + k
        invariant tasks == old(tasks) + NewTasks(picked[..k])
        invariant launched == old(launched) + set j | j in picked[..k]
      {
        activeJobs := activeJobs + 1;
        tasks := tasks + [Task(picked[k], Incrementing)];
        launched := launched + {picked[k]};
        assert picked[..k + 1] == picked[..k] + [picked[k]];
      }
      assert picked[..|picked|] == picked;
    }

    /** `_poll` after `updateMany` answered: launch every job that was fetched. */
    method PollMarked(p: nat)
      requires CanDo(MarkOk(p))
      modifies this
      ensures View() == Next(config, old(View()), MarkOk(p))
    {
      LaunchIs(config, View(), p);
      var picked := polls[p].jobs;
      jobs := MarkProcessing(jobs, picked);
      polls := polls[p := Ended];
      LaunchAll(picked);
      ScheduleNextPoll();
    }

    /** The catch block of `_poll`, for either query. */
    method PollFailed(p: nat)
      requires CanDo(FetchFails(p)) || CanDo(MarkFails(p))
      modifies this
      ensures old(CanDo(FetchFails(p))) ==> View() == Next(config, old(View()), FetchFails(p))
      ensures old(CanDo(MarkFails(p))) ==> View() == Next(config, old(View()), MarkFails(p))
    {
      FailureIs(config, View(), p);
      var nextBackoff := if backoffMs == 0 then BACKOFF_INITIAL_MS else Min(backoffMs * 2, BACKOFF_MAX_MS);
      backoffMs := nextBackoff;
      polls := polls[p := Ended];
      ScheduleNextPoll();
    }

    method SetTaskPhase(t: nat, phase: Phase)
      requires t < |tasks|
      modifies this`tasks
      ensures tasks == old(tasks)[t := old(tasks)[t].(phase := phase)]
    {
      tasks := tasks[t := tasks[t].(phase := phase)];
    }

    /** `_processJob` after the attempt counter was written and read back. */
    method AttemptRecorded(t: nat)
      requires CanDo(IncrementOk(t))
      modifies this
      ensures View() == Next(config, old(View()), IncrementOk(t))
    {
      var j := tasks[t].job;
      jobs := jobs[j := jobs[j].(attempts := jobs[j].attempts + 1)];
      var attemptNumber := jobs[j].attempts;
      SetTaskPhase(t, if 1 <= config.maxAttempts then Building(attemptNumber, 1) else Failing(attemptNumber));
    }

    /** The handler of a rejected `_processJob`: request a reset and do not wait for it. */
    method JobRejected(t: nat)
      requires CanDo(IncrementFails(t)) || (CanDo(RecordFails(t)) && tasks[t].phase.Failing?)
      modifies this
      ensures old(CanDo(IncrementFails(t))) ==> View() == Next(config, old(View()), IncrementFails(t))
      ensures old(CanDo(RecordFails(t))) ==> View() == Next(config, old(View()), RecordFails(t))
    {
      RejectionIs(config, View(), t);
      resets := resets + multiset{tasks[t].job};
      SetTaskPhase(t, Settling);
    }

    /** One round of the executor's loop threw: the next one, or give up. */
    method TryFailed(t: nat)
      requires CanDo(BuildFails(t)) || CanDo(SendFails(t))
      modifies this
      ensures old(CanDo(BuildFails(t))) ==> View() == Next(config, old(View()), BuildFails(t))
      ensures old(CanDo(SendFails(t))) ==> View() == Next(config, old(View()), SendFails(t))
    {
      var phase := tasks[t].phase;
      var try := phase.try + 1;
      if try <= config.maxAttempts {
        SetTaskPhase(t, Building(phase.attempt, try));
      } else {
        SetTaskPhase(t, Failing(phase.attempt));
      }
    }

    method TrySent(t: nat)
      requires CanDo(Send(t))
      modifies this
      ensures View() == Next(config, old(View()), Send(t))
    {
      var j, phase := tasks[t].job, tasks[t].phase;
      SetTaskPhase(t, Awaiting(phase.attempt, phase.try, |chain.txs|));
      chain := Submit(chain, Tx(Some(j), HashOf(jobs[j].nullifier).value, jobs[j].amount, InFlight));
    }

    method TryConfirmed(t: nat)
      requires CanDo(SendConfirmed(t))
      modifies this
      ensures View() == Next(config, old(View()), SendConfirmed(t))
    {
      SetTaskPhase(t, Confirming(tasks[t].phase.attempt, tasks[t].phase.tx));
    }

    /** The row is marked confirmed, or pending or failed in the catch block. */
    method OutcomeRecorded(t: nat)
      requires CanDo(RecordOk(t))
      modifies this
      ensures View() == Next(config, old(View()), RecordOk(t))
    {
      var j := tasks[t].job;
      if tasks[t].phase.Confirming? {
        jobs := jobs[j := jobs[j].(status := Confirmed, txSignature := Some(tasks[t].phase.tx))];
      } else {
        var exhausted := tasks[t].phase.attempt >= config.maxAttempts;
        jobs := jobs[j := jobs[j].(status := if exhausted then Failed else Pending)];
      }
      SetTaskPhase(t, Settling);
    }

    /** Marking a job confirmed threw, which is caught like a failed attempt. */
    method ConfirmationNotRecorded(t: nat)
      requires CanDo(RecordFails(t)) && tasks[t].phase.Confirming?
      modifies this
      ensures View() == Next(config, old(View()), RecordFails(t))
    {
      SetTaskPhase(t, Failing(tasks[t].phase.attempt));
    }

    method JobFinally(t: nat)
      requires CanDo(Settle(t))
      modifies this
      ensures View() == Next(config, old(View()), Settle(t))
    {
      activeJobs := activeJobs - 1;
      SetTaskPhase(t, Settled);
    }

    method ResetApplied(j: JobId)
      requires CanDo(ResetOk(j))
      modifies this
      ensures View() == Next(config, old(View()), ResetOk(j))
    {
      resets := resets - multiset{j};
      jobs := jobs[j := jobs[j].(status := Pending)];
    }

    /** A reset that fails is logged and not tried again; the row stays processing. */
    method ResetFailed(j: JobId)
      requires CanDo(ResetFails(j))
      modifies this
      ensures View() == Next(config, old(View()), ResetFails(j))
    {
      resets := resets - multiset{j};
    }
  }
}
