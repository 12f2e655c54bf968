/** The gateway's own relay: concurrent submissions under one capacity counter. */
module GatewayRelay {
  import opened Base
  import opened Bytes

  const MAX_SUBMIT_ATTEMPTS: nat := 3

  /** Between its awaits a call validates, waits for an attempt to be confirmed, or records one. */
  datatype Phase = Preparing | Attempting(attempt: nat) | Recording(attempt: nat) | Confirmed | Failed

  /** `nullifier` is what the request's text decodes to; `attempts` counts those attempts that were sent
      and those that failed before. */
  datatype Call = Call(nullifier: seq<Byte>, phase: Phase, attempts: nat)

  datatype State = State(pendingTxCount: int, totalRelayed: int, calls: seq<Call>, spent: set<seq<Byte>>)

  const IDLE := State(0, 0, [], {})

  /** A failed attempt may still have landed, when its nullifier was not spent. */
  datatype Event =
    | Submit(nullifier: string)
    | Invalid(call: nat)
    | Ready(call: nat)
    | SendOk(call: nat)
    | SendFails(call: nat, landed: bool)
    | RecordOk(call: nat)
    | RecordFails(call: nat)
    | Outside(hash: seq<Byte>)

  predicate Enabled(s: State, e: Event) {
    match e
    case Submit(_) => true
    case Invalid(i) => i < |s.calls| && s.calls[i].phase.Preparing?
    case Ready(i) => i < |s.calls| && s.calls[i].phase.Preparing? && |s.calls[i].nullifier| == 32
    case SendOk(i) => i < |s.calls| && s.calls[i].phase.Attempting? && s.calls[i].nullifier !in s.spent
    case SendFails(i, landed) => i < |s.calls| && s.calls[i].phase.Attempting? && (landed ==> s.calls[i].nullifier !in s.spent)
    case RecordOk(i) => i < |s.calls| && s.calls[i].phase.Recording?
    case RecordFails(i) => i < |s.calls| && s.calls[i].phase.Recording?
    case Outside(n) => n !in s.spent
  }

  /** The catch block: another attempt, or the end of the call, which gives its place back. */
  function AfterError(s: State, i: nat, attempt: nat, attempts: nat): State
    requires i < |s.calls|
  {
    if attempt + 1 < MAX_SUBMIT_ATTEMPTS then
      s.(calls := s.calls[i := s.calls[i].(phase := Attempting(attempt + 1), attempts := attempts)])
    else
      s.(calls := s.calls[i := s.calls[i].(phase := Failed, attempts := attempts)], pendingTxCount := s.pendingTxCount - 1)
  }

  function Next(s: State, maxPendingTxs: int, e: Event): State
    requires Enabled(s, e)
  {
    match e
    case Submit(n) =>
      if s.pendingTxCount >= maxPendingTxs then s
      else s.(pendingTxCount := s.pendingTxCount + 1, calls := s.calls + [Call(BufferFromHex(n), Preparing, 0)])
    case Invalid(i) =>
      s.(calls := s.calls[i := s.calls[i].(phase := Failed)], pendingTxCount := s.pendingTxCount - 1)
    case Ready(i) => s.(calls := s.calls[i := s.calls[i].(phase := Attempting(0))])
    case SendOk(i) =>
      var c := s.calls[i];
      s.(calls := s.calls[i := c.(phase := Recording(c.phase.attempt), attempts := c.attempts + 1)],
         totalRelayed := s.totalRelayed + 1, spent := s.spent + {c.nullifier})
    case SendFails(i, landed) =>
      var c := s.calls[i];
      var chain := if landed then s.(spent := s.spent + {c.nullifier}) else s;
      AfterError(chain, i, c.phase.attempt, c.attempts + 1)
    case RecordOk(i) =>
      s.(calls := s.calls[i := s.calls[i].(phase := Confirmed)], pendingTxCount := s.pendingTxCount - 1)
    case RecordFails(i) => AfterError(s, i, s.calls[i].phase.attempt, s.calls[i].attempts)
    case Outside(n) => s.(spent := s.spent + {n})
  }

  predicate IsRun(s: State, maxPendingTxs: int, events: seq<Event>)
    decreases |events|
  {
    events == [] || (Enabled(s, events[0]) && IsRun(Next(s, maxPendingTxs, events[0]), maxPendingTxs, events[1..]))
  }

  function Exec(s: State, maxPendingTxs: int, events: seq<Event>): State
    requires IsRun(s, maxPendingTxs, events)
    decreases |events|
  {
    if events == [] then s else Exec(Next(s, maxPendingTxs, events[0]), maxPendingTxs, events[1..])
  }

  // ---- Invariants -----------------------------------------------------------------------------------

  function InFlight(c: Call): int {
    if c.phase.Confirmed? || c.phase.Failed? then 0 else 1
  }

  predicate CallOk(s: State, c: Call) {
    && c.attempts <= MAX_SUBMIT_ATTEMPTS
    && (c.phase.Preparing? ==> c.attempts == 0)
    && (c.phase.Attempting? ==> c.attempts == c.phase.attempt < MAX_SUBMIT_ATTEMPTS)
    && (c.phase.Recording? ==> c.attempts == c.phase.attempt + 1 <= MAX_SUBMIT_ATTEMPTS && c.nullifier in s.spent)
    && (c.phase.Confirmed? ==> c.nullifier in s.spent)
  }

  ghost predicate Inv(s: State, maxPendingTxs: int) {
    && s.pendingTxCount == Total(s.calls, InFlight)
    && (s.calls != [] ==> s.pendingTxCount <= maxPendingTxs)
    && 0 <= s.totalRelayed <= |s.spent|
    && forall i :: 0 <= i < |s.calls| ==> CallOk(s, s.calls[i])
  }

  lemma CallStays(s: State, t: State, c: Call)
    requires CallOk(s, c) && s.spent <= t.spent
    ensures CallOk(t, c)
  {
  }

  /** One call changes and the counter follows what it occupies. */
  lemma CallMoves(s: State, t: State, maxPendingTxs: int, i: nat, c: Call)
    requires Inv(s, maxPendingTxs) && i < |s.calls| && t.calls == s.calls[i := c] && s.spent <= t.spent && CallOk(t, c)
    requires InFlight(c) <= InFlight(s.calls[i])
    requires t.pendingTxCount == s.pendingTxCount - InFlight(s.calls[i]) + InFlight(c)
    requires 0 <= t.totalRelayed <= |t.spent|
    ensures Inv(t, maxPendingTxs)
  {
    TotalUpdate(s.calls, i, c, InFlight);
    forall k | 0 <= k < |t.calls| ensures CallOk(t, t.calls[k]) {
      if k != i { CallStays(s, t, s.calls[k]); }
    }
  }

  lemma SpentGrows(s: State, n: seq<Byte>)
    ensures |s.spent| <= |s.spent + {n}|
    ensures n !in s.spent ==> |s.spent + {n}| == |s.spent| + 1
  {
    if n in s.spent { assert s.spent + {n} == s.spent; }
  }

  lemma SubmitKeepsInv(s: State, maxPendingTxs: int, n: string)
    requires Inv(s, maxPendingTxs)
    ensures Inv(Next(s, maxPendingTxs, Submit(n)), maxPendingTxs)
  {
    var t := Next(s, maxPendingTxs, Submit(n));
    TotalAppend(s.calls, Call(BufferFromHex(n), Preparing, 0), InFlight);
    forall k | 0 <= k < |t.calls| ensures CallOk(t, t.calls[k]) {
      if k < |s.calls| { CallStays(s, t, s.calls[k]); }
    }
  }

  lemma OutsideKeepsInv(s: State, maxPendingTxs: int, n: seq<Byte>)
    requires Inv(s, maxPendingTxs) && n !in s.spent
    ensures Inv(Next(s, maxPendingTxs, Outside(n)), maxPendingTxs)
  {
    var t := Next(s, maxPendingTxs, Outside(n));
    SpentGrows(s, n);
    forall k | 0 <= k < |t.calls| ensures CallOk(t, t.calls[k]) {
      CallStays(s, t, s.calls[k]);
    }
  }

  /** Events of a call that leave the chain as it is. */
  lemma LocalEventKeepsInv(s: State, maxPendingTxs: int, e: Event)
    requires Enabled(s, e) && Inv(s, maxPendingTxs) && (e.Invalid? || e.Ready? || e.RecordOk? || e.RecordFails?)
    ensures Inv(Next(s, maxPendingTxs, e), maxPendingTxs)
  {
    var t, i := Next(s, maxPendingTxs, e), e.call;
    assert CallOk(s, s.calls[i]);
    CallMoves(s, t, maxPendingTxs, i, t.calls[i]);
  }

  lemma SendOkKeepsInv(s: State, maxPendingTxs: int, i: nat)
    requires Enabled(s, SendOk(i)) && Inv(s, maxPendingTxs)
    ensures Inv(Next(s, maxPendingTxs, SendOk(i)), maxPendingTxs)
  {
    var t := Next(s, maxPendingTxs, SendOk(i));
    assert CallOk(s, s.calls[i]);
    SpentGrows(s, s.calls[i].nullifier);
    CallMoves(s, t, maxPendingTxs, i, t.calls[i]);
  }

  lemma SendFailsKeepsInv(s: State, maxPendingTxs: int, i: nat, landed: bool)
    requires Enabled(s, SendFails(i, landed)) && Inv(s, maxPendingTxs)
    ensures Inv(Next(s, maxPendingTxs, SendFails(i, landed)), maxPendingTxs)
  {
    var t := Next(s, maxPendingTxs, SendFails(i, landed));
    assert CallOk(s, s.calls[i]);
    SpentGrows(s, s.calls[i].nullifier);
    CallMoves(s, t, maxPendingTxs, i, t.calls[i]);
  }

  lemma StepKeepsInv(s: State, maxPendingTxs: int, e: Event)
    requires Enabled(s, e) && Inv(s, maxPendingTxs)
    ensures Inv(Next(s, maxPendingTxs, e), maxPendingTxs)
  {
    if e.Submit? {
      SubmitKeepsInv(s, maxPendingTxs, e.nullifier);
    } else if e.Outside? {
      OutsideKeepsInv(s, maxPendingTxs, e.hash);
    } else if e.SendOk? {
      SendOkKeepsInv(s, maxPendingTxs, e.call);
    } else if e.SendFails? {
      SendFailsKeepsInv(s, maxPendingTxs, e.call, e.landed);
    } else {
      LocalEventKeepsInv(s, maxPendingTxs, e);
    }
  }

  /** In every reachable state the counter is the number of calls in flight and within the capacity,
      no call made more than three attempts, what was reported confirmed was paid, and no more
      withdrawals were counted than nullifiers spent. */
  lemma {:induction false} RunKeepsInv(s: State, maxPendingTxs: int, events: seq<Event>)
    requires IsRun(s, maxPendingTxs, events) && Inv(s, maxPendingTxs)
    ensures Inv(Exec(s, maxPendingTxs, events), maxPendingTxs)
    decreases |events|
  {
    if events != [] {
      StepKeepsInv(s, maxPendingTxs, events[0]);
      RunKeepsInv(Next(s, maxPendingTxs, events[0]), maxPendingTxs, events[1..]);
    }
  }

  /** From an idle service: the counter is the number of calls in flight and within the capacity. */
  lemma CapacityHolds(maxPendingTxs: nat, events: seq<Event>)
    requires IsRun(IDLE, maxPendingTxs, events)
    ensures var s := Exec(IDLE, maxPendingTxs, events);
      && s.pendingTxCount == Total(s.calls, InFlight) <= maxPendingTxs
      && 0 <= s.totalRelayed <= |s.spent|
      && forall i :: 0 <= i < |s.calls| ==> s.calls[i].attempts <= MAX_SUBMIT_ATTEMPTS
  {
    RunKeepsInv(IDLE, maxPendingTxs, events);
    var s := Exec(IDLE, maxPendingTxs, events);
    forall i | 0 <= i < |s.calls| ensures s.calls[i].attempts <= MAX_SUBMIT_ATTEMPTS {
      assert CallOk(s, s.calls[i]);
    }
  }

  lemma {:induction false} ConfirmedIsFinal(s: State, m: int, i: nat, events: seq<Event>)
    requires IsRun(s, m, events) && i < |s.calls| && s.calls[i].phase.Confirmed?
    ensures i < |Exec(s, m, events).calls| && Exec(s, m, events).calls[i].phase.Confirmed?
    decreases |events|
  {
    if events != [] {
      ConfirmedIsFinal(Next(s, m, events[0]), m, i, events[1..]);
    }
  }

  /** A call whose nullifier was spent before its attempt. */
  predicate Doomed(s: State, i: nat) {
    && i < |s.calls|
    && (s.calls[i].phase.Failed? || (s.calls[i].phase.Attempting? && s.calls[i].nullifier in s.spent))
  }

  lemma DoomedStays(s: State, m: int, i: nat, e: Event)
    requires Enabled(s, e) && Doomed(s, i)
    ensures Doomed(Next(s, m, e), i)
  {
  }

  lemma {:induction false} DoomedNeverConfirms(s: State, m: int, i: nat, events: seq<Event>)
    requires IsRun(s, m, events) && Doomed(s, i)
    ensures Doomed(Exec(s, m, events), i)
    decreases |events|
  {
    if events != [] {
      DoomedStays(s, m, i, events[0]);
      DoomedNeverConfirms(Next(s, m, events[0]), m, i, events[1..]);
    }
  }

  /** The next record of a call in a run: stored, failed, or none. */
  function NextRecord(events: seq<Event>, i: nat): Option<bool> {
    if events == [] then None
    else if events[0] == RecordOk(i) then Some(true)
    else if events[0] == RecordFails(i) then Some(false)
    else NextRecord(events[1..], i)
  }

  /** From a confirmed attempt on, the record decides what the caller is told. */
  lemma {:induction false} RecordDecides(s: State, m: int, i: nat, events: seq<Event>)
    requires IsRun(s, m, events) && i < |s.calls| && s.calls[i].phase.Recording? && s.calls[i].nullifier in s.spent
    ensures var last := Exec(s, m, events);
      i < |last.calls| && (last.calls[i].phase.Confirmed? <==> NextRecord(events, i) == Some(true))
    decreases |events|
  {
    if events != [] {
      var next := Next(s, m, events[0]);
      if events[0] == RecordOk(i) {
        ConfirmedIsFinal(next, m, i, events[1..]);
      } else if events[0] == RecordFails(i) {
        DoomedNeverConfirms(next, m, i, events[1..]);
      } else {
        RecordDecides(next, m, i, events[1..]);
      }
    }
  }

  /** From the moment the nullifier of an attempting call is spent, by whatever: in every run its
      caller is told "confirmed" exactly when it was spent by that call's own confirmed attempt and
      the next record of that call is stored. A timed-out attempt that landed, another call and a
      foreign transaction all leave it to be told that it failed. */
  lemma ReportedIffOwnAndRecorded(s: State, m: int, i: nat, e: Event, events: seq<Event>)
    requires i < |s.calls| && s.calls[i].phase.Attempting? && s.calls[i].nullifier !in s.spent
    requires Enabled(s, e) && s.calls[i].nullifier in Next(s, m, e).spent && IsRun(Next(s, m, e), m, events)
    ensures var last := Exec(Next(s, m, e), m, events);
      i < |last.calls| && (last.calls[i].phase.Confirmed? <==> e == SendOk(i) && NextRecord(events, i) == Some(true))
  {
    var next := Next(s, m, e);
    if e == SendOk(i) {
      RecordDecides(next, m, i, events);
    } else {
      DoomedNeverConfirms(next, m, i, events);
    }
  }

  /** Whatever spends a nullifier before any attempt of a call, that call is never confirmed. */
  lemma {:induction false} SpentBeforeNeverConfirms(s: State, m: int, i: nat, events: seq<Event>)
    requires IsRun(s, m, events) && i < |s.calls| && s.calls[i].nullifier in s.spent
    requires s.calls[i].phase.Preparing? || Doomed(s, i)
    ensures var last := Exec(s, m, events); i < |last.calls| && !last.calls[i].phase.Confirmed?
    decreases |events|
  {
    if events != [] {
      SpentBeforeNeverConfirms(Next(s, m, events[0]), m, i, events[1..]);
    }
  }

  /** A valid call: one that has not failed before it used all its attempts. */
  predicate ValidCall(s: State, i: nat) {
    i < |s.calls| && !s.calls[i].phase.Preparing? && (s.calls[i].phase.Failed? ==> s.calls[i].attempts == 3)
  }

  lemma StepKeepsValidCall(s: State, m: int, i: nat, e: Event)
    requires Enabled(s, e) && Inv(s, m) && ValidCall(s, i)
    ensures ValidCall(Next(s, m, e), i)
  {
    assert CallOk(s, s.calls[i]);
  }

  /** The caller of a valid call is told that it failed only after exactly three attempts. */
  lemma {:induction false} FailsAfterThreeAttempts(s: State, m: int, i: nat, events: seq<Event>)
    requires IsRun(s, m, events) && Inv(s, m) && ValidCall(s, i)
    ensures i < |Exec(s, m, events).calls|
    ensures Exec(s, m, events).calls[i].phase.Failed? ==> Exec(s, m, events).calls[i].attempts == 3
    decreases |events|
  {
    if events != [] {
      StepKeepsValidCall(s, m, i, events[0]);
      StepKeepsInv(s, m, events[0]);
      FailsAfterThreeAttempts(Next(s, m, events[0]), m, i, events[1..]);
    }
  }

  function Confirmations(events: seq<Event>): nat {
    if events == [] then 0 else Confirmations(events[1..]) + if events[0].SendOk? then 1 else 0
  }

  /** Every confirmed attempt is counted once, and nothing else is. */
  lemma {:induction false} ConfirmationsAreCounted(s: State, m: int, events: seq<Event>)
    requires IsRun(s, m, events)
    ensures Exec(s, m, events).totalRelayed == s.totalRelayed + Confirmations(events)
    decreases |events|
  {
    if events != [] {
      ConfirmationsAreCounted(Next(s, m, events[0]), m, events[1..]);
    }
  }

  ghost predicate Reaches(m: int, events: seq<Event>, s: State) {
    IsRun(IDLE, m, events) && Exec(IDLE, m, events) == s
  }

  lemma {:induction false} RunAppend(s: State, m: int, events: seq<Event>, e: Event)
    requires IsRun(s, m, events) && Enabled(Exec(s, m, events), e)
    ensures IsRun(s, m, events + [e]) && Exec(s, m, events + [e]) == Next(Exec(s, m, events), m, e)
    decreases |events|
  {
    if events == [] {
      assert [e][1..] == [] && events + [e] == [e];
    } else {
      assert (events + [e])[1..] == events[1..] + [e];
      RunAppend(Next(s, m, events[0]), m, events[1..], e);
    }
  }

  lemma Then(m: int, events: seq<Event>, s: State, e: Event, after: State) returns (more: seq<Event>)
    requires Reaches(m, events, s) && Enabled(s, e) && Next(s, m, e) == after
    ensures Reaches(m, more, after) && more == events + [e]
  {
    RunAppend(IDLE, m, events, e);
    more := events + [e];
  }

  /** A call at its first attempt. */
  lemma FirstAttempt(text: string, m: int) returns (events: seq<Event>, n: seq<Byte>)
    requires m > 0 && |BufferFromHex(text)| == 32
    ensures events == [Submit(text), Ready(0)] && n == BufferFromHex(text)
    ensures Reaches(m, events, State(1, 0, [Call(n, Attempting(0), 0)], {}))
  {
    n := BufferFromHex(text);
    events := Then(m, [], IDLE, Submit(text), State(1, 0, [Call(n, Preparing, 0)], {}));
    events := Then(m, events, State(1, 0, [Call(n, Preparing, 0)], {}), Ready(0), State(1, 0, [Call(n, Attempting(0), 0)], {}));
  }

  /** The last two attempts meet the spent nullifier. */
  lemma FailTwice(n: seq<Byte>, m: int, events: seq<Event>, counted: int) returns (more: seq<Event>)
    requires Reaches(m, events, State(1, counted, [Call(n, Attempting(1), 1)], {n}))
    ensures Reaches(m, more, State(0, counted, [Call(n, Failed, 3)], {n}))
    ensures more == events + [SendFails(0, false), SendFails(0, false)]
  {
    more := Then(m, events, State(1, counted, [Call(n, Attempting(1), 1)], {n}), SendFails(0, false),
                 State(1, counted, [Call(n, Attempting(2), 2)], {n}));
    more := Then(m, more, State(1, counted, [Call(n, Attempting(2), 2)], {n}), SendFails(0, false),
                 State(0, counted, [Call(n, Failed, 3)], {n}));
    assert more == events + [SendFails(0, false), SendFails(0, false)];
  }

  /** Paid and counted, and its caller told that it failed: the record of a confirmed attempt fails. */
  lemma PaidButReportedFailed(text: string, m: int)
    requires m > 0 && |BufferFromHex(text)| == 32
    ensures var n := BufferFromHex(text); exists events :: Reaches(m, events, State(0, 1, [Call(n, Failed, 3)], {n}))
  {
    var events, n := FirstAttempt(text, m);
    var attempting, recording := Call(n, Attempting(0), 0), Call(n, Recording(0), 1);
    events := Then(m, events, State(1, 0, [attempting], {}), SendOk(0), State(1, 1, [recording], {n}));
    events := Then(m, events, State(1, 1, [recording], {n}), RecordFails(0), State(1, 1, [Call(n, Attempting(1), 1)], {n}));
    events := FailTwice(n, m, events, 1);
  }

  /** Paid and not even counted, and its caller told that it failed, with no record failing: the
      first attempt times out and lands. */
  lemma LandedButReportedFailed(text: string, m: int)
    requires m > 0 && |BufferFromHex(text)| == 32
    ensures var n := BufferFromHex(text);
      exists events :: Reaches(m, events, State(0, 0, [Call(n, Failed, 3)], {n})) && RecordFails(0) !in events
  {
    var events, n := FirstAttempt(text, m);
    var attempting := Call(n, Attempting(0), 0);
    events := Then(m, events, State(1, 0, [attempting], {}), SendFails(0, true), State(1, 0, [Call(n, Attempting(1), 1)], {n}));
    events := FailTwice(n, m, events, 0);
    assert events == [Submit(text), Ready(0), SendFails(0, true), SendFails(0, false), SendFails(0, false)];
  }

  // ---- The service -------------------------------------------------------------------------------------

  /** The fields of RelayService and its callers, one method for each stretch between two awaits. */
  class RelayService {
    const maxPendingTxs: int
    var pendingTxCount: int
    var totalRelayed: int
    var calls: seq<Call>
    ghost var spent: set<seq<Byte>>

    ghost function View(): State
      reads this
    {
      State(pendingTxCount, totalRelayed, calls, spent)
    }

    constructor (maxPendingTxs: int)
      ensures View() == IDLE && this.maxPendingTxs == maxPendingTxs
    {
      this.maxPendingTxs := maxPendingTxs;
      pendingTxCount, totalRelayed, calls, spent := 0, 0, [], {};
    }

    method SubmitWithdrawal(nullifier: string) returns (accepted: bool)
      modifies this
      ensures View() == Next(old(View()), maxPendingTxs, Submit(nullifier))
      ensures accepted <==> old(pendingTxCount) < maxPendingTxs
    {
      if pendingTxCount >= maxPendingTxs { return false; }
      pendingTxCount := pendingTxCount + 1;
      calls := calls + [Call(BufferFromHex(nullifier), Preparing, 0)];
      return true;
    }

    method Finish(i: nat, phase: Phase)
      requires i < |calls|
      modifies this
      ensures View() == old(View()).(calls := old(calls)[i := old(calls)[i].(phase := phase)], pendingTxCount := old(pendingTxCount) - 1)
    {
      calls := calls[i := calls[i].(phase := phase)];
      pendingTxCount := pendingTxCount - 1;
    }

    method Prepared(i: nat, valid: bool)
      requires i < |calls| && calls[i].phase.Preparing? && (valid ==> |calls[i].nullifier| == 32)
      modifies this
      ensures View() == Next(old(View()), maxPendingTxs, if valid then Ready(i) else Invalid(i))
    {
      if valid {
        calls := calls[i := calls[i].(phase := Attempting(0))];
      } else {
        Finish(i, Failed);
      }
    }

    method Catch(i: nat, attempt: nat, attempts: nat)
      requires i < |calls|
      modifies this
      ensures View() == AfterError(old(View()), i, attempt, attempts)
    {
      calls := calls[i := calls[i].(attempts := attempts)];
      if attempt + 1 < MAX_SUBMIT_ATTEMPTS {
        calls := calls[i := calls[i].(phase := Attempting(attempt + 1))];
      } else {
        Finish(i, Failed);
      }
    }

    method AttemptConfirmed(i: nat)
      requires Enabled(View(), SendOk(i))
      modifies this
      ensures View() == Next(old(View()), maxPendingTxs, SendOk(i))
    {
      var c := calls[i];
      totalRelayed := totalRelayed + 1;
      spent := spent + {c.nullifier};
      calls := calls[i := c.(phase := Recording(c.phase.attempt), attempts := c.attempts + 1)];
    }

    method AttemptFailed(i: nat, ghost landed: bool)
      requires Enabled(View(), SendFails(i, landed))
      modifies this
      ensures View() == Next(old(View()), maxPendingTxs, SendFails(i, landed))
    {
      spent := if landed then spent + {calls[i].nullifier} else spent;
      Catch(i, calls[i].phase.attempt, calls[i].attempts + 1);
    }

    method Recorded(i: nat, stored: bool)
      requires i < |calls| && calls[i].phase.Recording?
      modifies this
      ensures View() == Next(old(View()), maxPendingTxs, if stored then RecordOk(i) else RecordFails(i))
    {
      if stored {
        Finish(i, Confirmed);
      } else {
        Catch(i, calls[i].phase.attempt, calls[i].attempts);
      }
    }
  }
}
