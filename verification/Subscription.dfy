/** The event subscription's reconnection. */
module Subscription {
  import opened Backoff

  /** `sockets` counts the sockets created, `timers` the reconnect callbacks still due. */
  datatype State = State(reconnectDelay: nat, stopped: bool, timers: nat, sockets: nat)

  const START := State(1000, false, 0, 0)

  /** Connect is the first call or a due callback; creating the socket works or throws. */
  datatype Event = Connect(fromTimer: bool, created: bool) | Open | Close | Stop(cleared: bool)

  predicate Enabled(s: State, e: Event) {
    match e
    case Connect(fromTimer, _) => fromTimer ==> s.timers > 0
    case Open => s.sockets > 0
    case Close => s.sockets > 0
    case Stop(cleared) => cleared ==> s.timers > 0
  }

  function Rescheduled(s: State): State {
    var delay := s.reconnectDelay * 2;
    s.(reconnectDelay := if delay > 30000 then 30000 else delay, timers := s.timers + 1)
  }

  /** Stopping clears the last reconnect timer if it is still due. */
  function Next(s: State, e: Event): State
    requires Enabled(s, e)
  {
    match e
    case Connect(fromTimer, created) =>
      var called := if fromTimer then s.(timers := s.timers - 1) else s;
      if s.stopped then called
      else if created then called.(sockets := s.sockets + 1)
      else Rescheduled(called)
    case Open => s.(reconnectDelay := 1000)
    case Close => if s.stopped then s else Rescheduled(s)
    case Stop(cleared) => s.(stopped := true, timers := if cleared then s.timers - 1 else s.timers)
  }

  predicate IsRun(s: State, events: seq<Event>)
    decreases |events|
  {
    events == [] || (Enabled(s, events[0]) && IsRun(Next(s, events[0]), events[1..]))
  }

  function Exec(s: State, events: seq<Event>): State
    requires IsRun(s, events)
    decreases |events|
  {
    if events == [] then s else Exec(Next(s, events[0]), events[1..])
  }

  /** Reconnections scheduled since the last successful opening. */
  function Retries(s: State, retries: nat, events: seq<Event>): nat
    requires IsRun(s, events)
    decreases |events|
  {
    if events == [] then retries
    else
      var e := events[0];
      var scheduled := !s.stopped && (e.Close? || (e.Connect? && !e.created));
      Retries(Next(s, e), if e.Open? then 0 else if scheduled then retries + 1 else retries, events[1..])
  }

  /** After every run the delay is min(1000 * 2^k, 30000), k retries after the last opening. */
  lemma {:induction false} DelayIsCapped(s: State, retries: nat, events: seq<Event>)
    requires IsRun(s, events) && s.reconnectDelay == Capped(retries)
    ensures Exec(s, events).reconnectDelay == Capped(Retries(s, retries, events))
    decreases |events|
  {
    if events != [] {
      var e := events[0];
      CappedDoubles(retries);
      var scheduled := !s.stopped && (e.Close? || (e.Connect? && !e.created));
      DelayIsCapped(Next(s, e), if e.Open? then 0 else if scheduled then retries + 1 else retries, events[1..]);
    }
  }

  /** Once stopped, whatever still fires: no socket is created and nothing is scheduled. */
  lemma {:induction false} StoppedIsSilent(s: State, events: seq<Event>)
    requires IsRun(s, events) && s.stopped
    ensures var last := Exec(s, events); last.stopped && last.sockets == s.sockets && last.timers <= s.timers
    decreases |events|
  {
    if events != [] {
      StoppedIsSilent(Next(s, events[0]), events[1..]);
    }
  }

  predicate Schedules(e: Event) {
    e.Close? || (e.Connect? && !e.created)
  }

  function Count(events: seq<Event>, counts: Event -> bool): nat {
    if events == [] then 0 else (if counts(events[0]) then 1 else 0) + Count(events[1..], counts)
  }

  /** Until it is stopped, every closed socket and every failed creation arms one timer, every timer
      that fires uses one up, and every other connection makes a socket: nothing is lost. */
  lemma {:induction false} TimersAreAccounted(s: State, events: seq<Event>)
    requires IsRun(s, events) && !s.stopped && forall i :: 0 <= i < |events| ==> !events[i].Stop?
    ensures Exec(s, events).timers == s.timers + Count(events, Schedules) - Count(events, (e: Event) => e.Connect? && e.fromTimer)
    ensures Exec(s, events).sockets == s.sockets + Count(events, (e: Event) => e.Connect? && e.created)
    ensures !Exec(s, events).stopped
    decreases |events|
  {
    if events != [] {
      assert !events[0].Stop? && forall i :: 0 <= i < |events[1..]| ==> events[1..][i] == events[i + 1];
      TimersAreAccounted(Next(s, events[0]), events[1..]);
    }
  }

  class HeliusGeyserSubscriber {
    var reconnectDelay: nat
    var stopped: bool
    var timers: nat
    var sockets: nat

    ghost function View(): State
      reads this
    {
      State(reconnectDelay, stopped, timers, sockets)
    }

    constructor ()
      ensures View() == START
    {
      reconnectDelay, stopped, timers, sockets := 1000, false, 0, 0;
    }

    method ScheduleReconnect()
      modifies this
      ensures View() == Rescheduled(old(View()))
    {
      reconnectDelay := if reconnectDelay * 2 > 30000 then 30000 else reconnectDelay * 2;
      timers := timers + 1;
    }

    method Connect(fromTimer: bool, created: bool)
      requires Enabled(View(), Event.Connect(fromTimer, created))
      modifies this
      ensures View() == Next(old(View()), Event.Connect(fromTimer, created))
    {
      if fromTimer {
        timers := timers - 1;
      }
      if stopped { return; }
      if created {
        sockets := sockets + 1;
      } else {
        ScheduleReconnect();
      }
    }

    method OnOpen()
      requires sockets > 0
      modifies this
      ensures View() == Next(old(View()), Open)
    {
      reconnectDelay := 1000;
    }

    method OnClose()
      requires sockets > 0
      modifies this
      ensures View() == Next(old(View()), Close)
    {
      if !stopped {
        ScheduleReconnect();
      }
    }

    method Stop(cleared: bool)
      requires cleared ==> timers > 0
      modifies this
      ensures View() == Next(old(View()), Event.Stop(cleared))
    {
      stopped := true;
      if cleared {
        timers := timers - 1;
      }
    }
  }
}
