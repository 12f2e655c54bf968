/** Capped doubling delays and their closed forms: the queue's poll delay, the event subscription's
    reconnect delay, and the pauses between transaction attempts. */
module Backoff {
  import opened Base
  import RelayerProtocol
  import RelayerSafety

  /** 1000 * 2^doublings, at most 30000. */
  function Capped(doublings: nat): nat {
    var full := 1000 * Pow(2, doublings);
    if full > 30000 then 30000 else full
  }

  /** Doubling what is capped caps what is doubled. */
  lemma CappedDoubles(k: nat)
    ensures Capped(k + 1) == if Capped(k) * 2 > 30000 then 30000 else Capped(k) * 2
  {
  }

  lemma {:induction false} CapReached(k: nat)
    ensures k >= 5 <==> Capped(k) == 30000
  {
    if k <= 5 {
      assert Pow(2, 1) == 2;
      assert Pow(2, 2) == 4;
      assert Pow(2, 3) == 8;
      assert Pow(2, 4) == 16;
      assert Pow(2, 5) == 32;
    } else {
      CapReached(k - 1);
      CappedDoubles(k - 1);
    }
  }

  // ---- The queue's poll delay ------------------------------------------------------------------------

  /** Failures in a row that an action leaves. */
  function FailuresAfter(failures: nat, a: RelayerProtocol.Action): nat {
    if a.FetchOk? || a.Crash? then 0
    else if a.FetchFails? || a.MarkFails? then failures + 1
    else failures
  }

  function Failures(failures: nat, actions: seq<RelayerProtocol.Action>): nat
    decreases |actions|
  {
    if actions == [] then failures else Failures(FailuresAfter(failures, actions[0]), actions[1..])
  }

  /** The delay after that many failures in a row; zero stands for the regular interval. */
  function PollBackoff(failures: nat): nat {
    if failures == 0 then 0 else Capped(failures - 1)
  }

  lemma StepBackoff(c: RelayerProtocol.Config, s: RelayerProtocol.State, a: RelayerProtocol.Action, failures: nat)
    requires RelayerProtocol.Enabled(c, s, a) && s.clock.backoffMs == PollBackoff(failures)
    ensures RelayerProtocol.Next(c, s, a).clock.backoffMs == PollBackoff(FailuresAfter(failures, a))
  {
    if failures > 0 {
      CappedDoubles(failures - 1);
    }
  }

  /** After every run, however polls overlap, the backoff is the closed form of the number of failed
      queries since the last successful fetch. */
  lemma {:induction false} RunBackoff(c: RelayerProtocol.Config, s: RelayerProtocol.State, actions: seq<RelayerProtocol.Action>, failures: nat)
    requires RelayerProtocol.IsRun(c, s, actions) && s.clock.backoffMs == PollBackoff(failures)
    ensures RelayerProtocol.Exec(c, s, actions).clock.backoffMs == PollBackoff(Failures(failures, actions))
    decreases |actions|
  {
    if actions != [] {
      StepBackoff(c, s, actions[0], failures);
      RunBackoff(c, RelayerProtocol.Next(c, s, actions[0]), actions[1..], FailuresAfter(failures, actions[0]));
    }
  }

  /** While a poll marks what it fetched, the backoff is reset. */
  ghost predicate MarkingIsFresh(s: RelayerProtocol.State) {
    forall p :: 0 <= p < |s.polls| && s.polls[p].Marking? ==> s.clock.backoffMs == 0
  }

  lemma StepKeepsFresh(c: RelayerProtocol.Config, s: RelayerProtocol.State, a: RelayerProtocol.Action)
    requires RelayerProtocol.Enabled(c, s, a) && RelayerSafety.OnePoll(s.polls) && MarkingIsFresh(s)
    ensures MarkingIsFresh(RelayerProtocol.Next(c, s, a))
  {
    var polls' := RelayerProtocol.PollsAfter(c, s, a);
    forall p | 0 <= p < |polls'| && polls'[p].Marking? ensures RelayerProtocol.ClockAfter(c, s, a).backoffMs == 0 {
      if !a.FetchOk? {
        assert p < |s.polls| && s.polls[p] == polls'[p] && RelayerProtocol.Active(s.polls[p]);
      }
    }
  }

  lemma {:induction false} SerialRunIsFresh(c: RelayerProtocol.Config, s: RelayerProtocol.State, actions: seq<RelayerProtocol.Action>)
    requires RelayerProtocol.IsSerialRun(c, s, actions) && RelayerSafety.OnePoll(s.polls) && MarkingIsFresh(s)
    ensures RelayerProtocol.IsRun(c, s, actions) && MarkingIsFresh(RelayerProtocol.Exec(c, s, actions))
    decreases |actions|
  {
    if actions != [] {
      RelayerSafety.StepKeepsOnePoll(c, s, actions[0]);
      StepKeepsFresh(c, s, actions[0]);
      SerialRunIsFresh(c, RelayerProtocol.Next(c, s, actions[0]), actions[1..]);
    }
  }

  /** Without overlapping polls, a failed update waits one second, however often it has failed
      before: each poll resets the backoff between its two queries. */
  lemma FailedMarkNeverBacksOff(c: RelayerProtocol.Config, actions: seq<RelayerProtocol.Action>, p: nat, pool: nat)
    requires RelayerProtocol.IsSerialRun(c, RelayerProtocol.Init(pool), actions)
    ensures RelayerProtocol.IsRun(c, RelayerProtocol.Init(pool), actions)
    ensures var s := RelayerProtocol.Exec(c, RelayerProtocol.Init(pool), actions);
      RelayerProtocol.Enabled(c, s, RelayerProtocol.MarkFails(p)) ==>
        RelayerProtocol.Next(c, s, RelayerProtocol.MarkFails(p)).clock.backoffMs == 1000
  {
    SerialRunIsFresh(c, RelayerProtocol.Init(pool), actions);
  }

  // ---- Pauses between attempts ----------------------------------------------------------------------------

  /** Total pause of an execution whose first `n` attempts fail and are followed by another. */
  function Paused(n: nat): nat {
    if n == 0 then 0 else Paused(n - 1) + Capped(n - 1)
  }

  lemma {:induction false} PausedShort(n: nat)
    requires n <= 5
    ensures Paused(n) == 1000 * (Pow(2, n) - 1)
  {
    if n > 0 {
      PausedShort(n - 1);
      CapReached(n - 1);
    }
  }

  /** A failing execution with `n` attempts pauses 1000 * (2^(n-1) - 1) ms in all for n <= 6 and
      31000 + 30000 * (n - 6) ms beyond. */
  lemma {:induction false} PausedIs(n: nat)
    requires n >= 1
    ensures Paused(n - 1) == if n <= 6 then 1000 * (Pow(2, n - 1) - 1) else 31000 + 30000 * (n - 6)
  {
    if n <= 6 {
      PausedShort(n - 1);
    } else {
      PausedIs(n - 1);
      CapReached(n - 2);
      assert Pow(2, 5) == 32;
    }
  }

  datatype Execution = Execution(signature: Option<string>, sends: nat, pausedMs: nat)

  /** The first success among `n` attempts, or `n`. */
  function FirstSuccess(outcome: nat -> Option<string>, n: nat): (k: nat)
    ensures k <= n && (k < n ==> outcome(k).Some?) && forall i: nat :: i < k ==> outcome(i).None?
  {
    if n == 0 then 0
    else
      var k := FirstSuccess(outcome, n - 1);
      if k < n - 1 || outcome(n - 1).Some? then k else n
  }

  /** WithdrawExecutor.execute: it stops at the first attempt that succeeds, pauses only between
      attempts, and fails after the last. */
  method Execute(maxAttempts: nat, outcome: nat -> Option<string>) returns (e: Execution)
    ensures var k := FirstSuccess(outcome, maxAttempts);
      e == if k < maxAttempts then Execution(outcome(k), k + 1, Paused(k))
           else Execution(None, maxAttempts, Paused(if maxAttempts == 0 then 0 else maxAttempts - 1))
  {
    var pausedMs := 0;
    var attempt := 1;
    while attempt <= maxAttempts
      invariant 1 <= attempt <= maxAttempts + 1
      invariant forall i: nat :: i < attempt - 1 ==> outcome(i).None?
      invariant pausedMs == Paused(if attempt <= maxAttempts then attempt - 1 else if maxAttempts == 0 then 0 else maxAttempts - 1)
    {
      var sig := outcome(attempt - 1);
      if sig.Some? { return Execution(sig, attempt, pausedMs); }
      var backoffMs := 1000 * Pow(2, attempt - 1);
      backoffMs := if backoffMs > 30000 then 30000 else backoffMs;
      if attempt < maxAttempts {
        pausedMs := pausedMs + backoffMs;
      }
      attempt := attempt + 1;
    }
    return Execution(None, maxAttempts, pausedMs);
  }
}
