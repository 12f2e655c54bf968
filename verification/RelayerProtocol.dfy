/**
 * The relayer's withdrawal queue as a state machine over its atomic segments:
 * everything the event loop runs between two `await`s is one action.
 */
module RelayerProtocol {
  import opened Base
  import opened Bytes
  import opened Nullifiers

  type JobId = nat

  datatype Config = Config(maxAttempts: nat, maxConcurrent: nat)

  // ---- The job table ------------------------------------------------------------

  datatype Status = Pending | Processing | Confirmed | Failed

  /** One row; its id is its position, so the table is in `createdAt` order. */
  datatype Job = Job(nullifier: string, amount: nat, status: Status, attempts: nat,
                     txSignature: Option<nat>)

  // ---- The chain ------------------------------------------------------------------

  datatype TxState = InFlight | Landed | Rejected

  /** A submitted withdrawal; `job` is None when somebody else submitted it. */
  datatype Tx = Tx(job: Option<JobId>, nullifier: Key, amount: nat, state: TxState)

  /** `txs` holds every transaction ever submitted; a signature is a position in it. */
  datatype Chain = Chain(txs: seq<Tx>, spent: set<Key>, pool: nat)

  // ---- In-memory activities -----------------------------------------------------

  type Slots = n: nat | n > 0 witness 1

  datatype Poll = Fetching(capacity: Slots) | Marking(jobs: seq<JobId>) | Ended

  /** Where a `_processJob` call is suspended. `attempt` is the number read back after
      the increment, `try` the executor's own loop counter. */
  datatype Phase =
    | Incrementing
    | Building(attempt: nat, try: nat)
    | Awaiting(attempt: nat, try: nat, tx: nat)
    | Confirming(attempt: nat, tx: nat)
    | Failing(attempt: nat)
    | Settling
    | Settled

  datatype Task = Task(job: JobId, phase: Phase)

  predicate Live(t: Task) {
    !t.phase.Settling? && !t.phase.Settled?
  }

  predicate Active(p: Poll) {
    !p.Ended?
  }

  /** The timer fields of the processor and the timers armed in the event loop. */
  datatype Clock = Clock(running: bool, timer: Option<nat>, backoffMs: nat, armed: set<nat>, nextTimer: nat)

  datatype State = State(
    clock: Clock,
    activeJobs: int,
    polls: seq<Poll>, tasks: seq<Task>, resets: multiset<JobId>,  // suspended calls, unawaited resets
    jobs: seq<Job>, chain: Chain,                                 // outside the process
    launched: set<JobId>)                                         // history: jobs some poll has launched

  const STOPPED := Clock(false, None, 0, {}, 0)

  function Init(pool: nat): State {
    State(STOPPED, 0, [], [], multiset{}, [], Chain([], {}, pool), {})
  }

  datatype Action =
    | Create(nullifier: string, amount: nat)
    | Start | Stop | Crash
    | TimerFires(timer: nat)
    | FetchOk(poll: nat) | FetchFails(poll: nat)
    | MarkOk(poll: nat) | MarkFails(poll: nat)
    | IncrementOk(task: nat) | IncrementFails(task: nat)
    | BuildFails(task: nat) | Send(task: nat) | SendFails(task: nat) | SendConfirmed(task: nat)
    | RecordOk(task: nat) | RecordFails(task: nat)
    | Settle(task: nat)
    | ResetOk(job: JobId) | ResetFails(job: JobId)
    | OutsideTx(hash: Key, amount: nat) | Land(tx: nat) | Drop(tx: nat)

  // ---- Scheduling and backoff -----------------------------------------------------

  const BACKOFF_INITIAL_MS: nat := 1000
  const BACKOFF_MAX_MS: nat := 30000

  function Min(a: int, b: int): int { if a < b then a else b }

  function NextBackoff(backoffMs: nat): nat {
    if backoffMs == 0 then BACKOFF_INITIAL_MS else Min(backoffMs * 2, BACKOFF_MAX_MS)
  }

  function Schedule(k: Clock): Clock {
    if !k.running then k
    else k.(armed := k.armed + {k.nextTimer}, timer := Some(k.nextTimer), nextTimer := k.nextTimer + 1)
  }

  // ---- Queries on the job table -----------------------------------------------------

  predicate Eligible(job: Job, maxAttempts: nat) {
    job.status.Pending? && job.attempts < maxAttempts
  }

  /** Eligible rows from position `from` on, oldest first. */
  function EligibleFrom(jobs: seq<Job>, maxAttempts: nat, from: nat): seq<JobId>
    decreases |jobs| - from
  {
    if from >= |jobs| then []
    else if Eligible(jobs[from], maxAttempts) then [from] + EligibleFrom(jobs, maxAttempts, from + 1)
    else EligibleFrom(jobs, maxAttempts, from + 1)
  }

  function FindMany(jobs: seq<Job>, maxAttempts: nat, take: nat): seq<JobId> {
    var all := EligibleFrom(jobs, maxAttempts, 0);
    if take <= |all| then all[..take] else all
  }

  function MarkRow(job: Job): Job {
    if job.status.Pending? then job.(status := Processing) else job
  }

  function MarkProcessing(jobs: seq<Job>, ids: seq<JobId>): seq<Job> {
    seq(|jobs|, j requires 0 <= j < |jobs| => if j in ids then MarkRow(jobs[j]) else jobs[j])
  }

  function NewTasks(ids: seq<JobId>): seq<Task> {
    seq(|ids|, k requires 0 <= k < |ids| => Task(ids[k], Incrementing))
  }

  // ---- When an action can happen, and what it does ---------------------------------

  /** The executor throws before it sends anything else. */
  predicate CanSend(job: Job) { HashOf(job.nullifier).Some? }

  predicate TaskIn(s: State, t: nat) { t < |s.tasks| && s.tasks[t].job < |s.jobs| }

  predicate Enabled(c: Config, s: State, a: Action) {
    match a
    case Create(_, _) => true
    case Start => true
    case Stop => true
    case Crash => true
    case TimerFires(timer) => timer in s.clock.armed
    case FetchOk(p) => p < |s.polls| && s.polls[p].Fetching?
    case FetchFails(p) => p < |s.polls| && s.polls[p].Fetching?
    case MarkOk(p) => p < |s.polls| && s.polls[p].Marking?
    case MarkFails(p) => p < |s.polls| && s.polls[p].Marking?
    case IncrementOk(t) => TaskIn(s, t) && s.tasks[t].phase.Incrementing?
    case IncrementFails(t) => TaskIn(s, t) && s.tasks[t].phase.Incrementing?
    case BuildFails(t) => TaskIn(s, t) && s.tasks[t].phase.Building?
    case Send(t) => TaskIn(s, t) && s.tasks[t].phase.Building? && CanSend(s.jobs[s.tasks[t].job])
    case SendFails(t) => TaskIn(s, t) && s.tasks[t].phase.Awaiting?
    case SendConfirmed(t) =>
      TaskIn(s, t) && s.tasks[t].phase.Awaiting? &&
      s.tasks[t].phase.tx < |s.chain.txs| && s.chain.txs[s.tasks[t].phase.tx].state.Landed?
    case RecordOk(t) => TaskIn(s, t) && (s.tasks[t].phase.Confirming? || s.tasks[t].phase.Failing?)
    case RecordFails(t) => TaskIn(s, t) && (s.tasks[t].phase.Confirming? || s.tasks[t].phase.Failing?)
    case Settle(t) => t < |s.tasks| && s.tasks[t].phase.Settling?
    case ResetOk(j) => j in s.resets && j < |s.jobs|
    case ResetFails(j) => j in s.resets
    case OutsideTx(_, _) => true
    case Land(x) => x < |s.chain.txs| && s.chain.txs[x].state.InFlight?
    case Drop(x) => x < |s.chain.txs| && s.chain.txs[x].state.InFlight?
  }

  predicate IsTaskStep(a: Action) {
    a.IncrementOk? || a.IncrementFails? || a.BuildFails? || a.Send? || a.SendFails? || a.SendConfirmed? ||
    a.RecordOk? || a.RecordFails? || a.Settle?
  }

  predicate HasNullifier(jobs: seq<Job>, nullifier: string) {
    exists j :: 0 <= j < |jobs| && jobs[j].nullifier == nullifier
  }

  /** Slots a poll that starts now may fill. */
  function Capacity(c: Config, s: State): int {
    c.maxConcurrent - s.activeJobs
  }

  function Picked(c: Config, s: State, p: nat): seq<JobId>
    requires p < |s.polls| && s.polls[p].Fetching?
  {
    FindMany(s.jobs, c.maxAttempts, s.polls[p].capacity)
  }

  function ClockAfter(c: Config, s: State, a: Action): Clock
    requires Enabled(c, s, a)
  {
    var k := s.clock;
    match a
    case Start => if k.running then k else Schedule(k.(running := true))
    case Stop =>
      k.(running := false, timer := None,
         armed := if k.timer.Some? then k.armed - {k.timer.value} else k.armed)
    case Crash => STOPPED.(nextTimer := k.nextTimer)
    case TimerFires(timer) =>
      var fired := k.(armed := k.armed - {timer}, timer := None);
      if Capacity(c, s) <= 0 then Schedule(Schedule(fired)) else fired
    case FetchOk(p) =>
      if Picked(c, s, p) == [] then Schedule(Schedule(k.(backoffMs := 0))) else k.(backoffMs := 0)
    case MarkOk(_) => Schedule(k)
    case FetchFails(_) => Schedule(k.(backoffMs := NextBackoff(k.backoffMs)))
    case MarkFails(_) => Schedule(k.(backoffMs := NextBackoff(k.backoffMs)))
    case _ => k
  }

  function ActiveAfter(c: Config, s: State, a: Action): int
    requires Enabled(c, s, a)
  {
    match a
    case MarkOk(p) => s.activeJobs + |s.polls[p].jobs|
    case Settle(_) => s.activeJobs - 1
    case Crash => 0
    case _ => s.activeJobs
  }

  function PollsAfter(c: Config, s: State, a: Action): seq<Poll>
    requires Enabled(c, s, a)
  {
    match a
    case TimerFires(_) => if Capacity(c, s) <= 0 then s.polls else s.polls + [Fetching(Capacity(c, s))]
    case FetchOk(p) => s.polls[p := if Picked(c, s, p) == [] then Ended else Marking(Picked(c, s, p))]
    case FetchFails(p) => s.polls[p := Ended]
    case MarkOk(p) => s.polls[p := Ended]
    case MarkFails(p) => s.polls[p := Ended]
    case Crash => []
    case _ => s.polls
  }

  /** `execute` enters its loop only when at least one try is allowed. */
  function AfterIncrement(c: Config, attempt: nat): Phase {
    if 1 <= c.maxAttempts then Building(attempt, 1) else Failing(attempt)
  }

  function AfterFailedTry(c: Config, attempt: nat, try: nat): Phase {
    if try + 1 <= c.maxAttempts then Building(attempt, try + 1) else Failing(attempt)
  }

  function PhaseAfter(c: Config, s: State, a: Action): Phase
    requires Enabled(c, s, a) && IsTaskStep(a)
  {
    var task := s.tasks[a.task];
    match a
    case IncrementOk(_) => AfterIncrement(c, s.jobs[task.job].attempts + 1)
    case IncrementFails(_) => Settling
    case BuildFails(_) => AfterFailedTry(c, task.phase.attempt, task.phase.try)
    case Send(_) => Awaiting(task.phase.attempt, task.phase.try, |s.chain.txs|)
    case SendFails(_) => AfterFailedTry(c, task.phase.attempt, task.phase.try)
    case SendConfirmed(_) => Confirming(task.phase.attempt, task.phase.tx)
    case RecordOk(_) => Settling
    case RecordFails(_) => if task.phase.Confirming? then Failing(task.phase.attempt) else Settling
    case Settle(_) => Settled
  }

  function TasksAfter(c: Config, s: State, a: Action): seq<Task>
    requires Enabled(c, s, a)
  {
    if IsTaskStep(a) then s.tasks[a.task := s.tasks[a.task].(phase := PhaseAfter(c, s, a))]
    else if a.MarkOk? then s.tasks + NewTasks(s.polls[a.poll].jobs)
    else if a.Crash? then []
    else s.tasks
  }

  /** The handler of a rejected task requests a reset and does not wait for it. */
  function ResetsAfter(c: Config, s: State, a: Action): multiset<JobId>
    requires Enabled(c, s, a)
  {
    match a
    case IncrementFails(t) => s.resets + multiset{s.tasks[t].job}
    case RecordFails(t) => if s.tasks[t].phase.Failing? then s.resets + multiset{s.tasks[t].job} else s.resets
    case ResetOk(j) => s.resets - multiset{j}
    case ResetFails(j) => s.resets - multiset{j}
    case Crash => multiset{}
    case _ => s.resets
  }

  function Recorded(c: Config, job: Job, phase: Phase): Job
    requires phase.Confirming? || phase.Failing?
  {
    match phase
    case Confirming(_, tx) => job.(status := Confirmed, txSignature := Some(tx))
    case Failing(attempt) => job.(status := if attempt >= c.maxAttempts then Failed else Pending)
  }

  /** The unique index on the nullifier rejects a duplicate insert. */
  function JobsAfter(c: Config, s: State, a: Action): seq<Job>
    requires Enabled(c, s, a)
  {
    match a
    case Create(nullifier, amount) =>
      if HasNullifier(s.jobs, nullifier) then s.jobs else s.jobs + [Job(nullifier, amount, Pending, 0, None)]
    case MarkOk(p) => MarkProcessing(s.jobs, s.polls[p].jobs)
    case IncrementOk(t) => var j := s.tasks[t].job; s.jobs[j := s.jobs[j].(attempts := s.jobs[j].attempts + 1)]
    case RecordOk(t) => var j := s.tasks[t].job; s.jobs[j := Recorded(c, s.jobs[j], s.tasks[t].phase)]
    case ResetOk(j) => s.jobs[j := s.jobs[j].(status := Pending)]
    case _ => s.jobs
  }

  /** The program pays a nullifier that is not spent yet, and rejects one that is. */
  function Execute(chain: Chain, x: nat): Chain
    requires x < |chain.txs|
  {
    var tx := chain.txs[x];
    if tx.nullifier !in chain.spent && tx.amount <= chain.pool then
      Chain(chain.txs[x := tx.(state := Landed)], chain.spent + {tx.nullifier}, chain.pool - tx.amount)
    else
      chain.(txs := chain.txs[x := tx.(state := Rejected)])
  }

  function Submit(chain: Chain, tx: Tx): Chain {
    chain.(txs := chain.txs + [tx])
  }

  function WithdrawalOf(jobs: seq<Job>, j: JobId): Tx
    requires j < |jobs| && CanSend(jobs[j])
  {
    Tx(Some(j), HashOf(jobs[j].nullifier).value, jobs[j].amount, InFlight)
  }

  function ChainAfter(c: Config, s: State, a: Action): Chain
    requires Enabled(c, s, a)
  {
    match a
    case Send(t) => Submit(s.chain, WithdrawalOf(s.jobs, s.tasks[t].job))
    case OutsideTx(hash, amount) => Submit(s.chain, Tx(None, hash, amount, InFlight))
    case Land(x) => Execute(s.chain, x)
    case Drop(x) => s.chain.(txs := s.chain.txs[x := s.chain.txs[x].(state := Rejected)])
    case _ => s.chain
  }

  function LaunchedAfter(c: Config, s: State, a: Action): set<JobId>
    requires Enabled(c, s, a)
  {
    if a.MarkOk? then s.launched + set j | j in s.polls[a.poll].jobs else s.launched
  }

  /** A crash loses everything in memory; rows and submitted transactions stay. */
  function Next(c: Config, s: State, a: Action): State
    requires Enabled(c, s, a)
  {
    State(ClockAfter(c, s, a), ActiveAfter(c, s, a), PollsAfter(c, s, a), TasksAfter(c, s, a),
          ResetsAfter(c, s, a), JobsAfter(c, s, a), ChainAfter(c, s, a), LaunchedAfter(c, s, a))
  }

  // ---- Runs -------------------------------------------------------------------------

  /** The actions can happen one after the other, starting in `s`. */
  predicate IsRun(c: Config, s: State, actions: seq<Action>)
    decreases |actions|
  {
    actions == [] || (Enabled(c, s, actions[0]) && IsRun(c, Next(c, s, actions[0]), actions[1..]))
  }

  function Exec(c: Config, s: State, actions: seq<Action>): State
    requires IsRun(c, s, actions)
    decreases |actions|
  {
    if actions == [] then s else Exec(c, Next(c, s, actions[0]), actions[1..])
  }

  predicate NoPollActive(s: State) {
    forall p :: 0 <= p < |s.polls| ==> !Active(s.polls[p])
  }

  /** The hypothesis "one poll body at a time": a timer fires only between polls. */
  predicate SerialStep(s: State, a: Action) {
    a.TimerFires? ==> NoPollActive(s)
  }

  predicate IsSerialRun(c: Config, s: State, actions: seq<Action>)
    decreases |actions|
  {
    actions == [] ||
    (Enabled(c, s, actions[0]) && SerialStep(s, actions[0]) && IsSerialRun(c, Next(c, s, actions[0]), actions[1..]))
  }
}
