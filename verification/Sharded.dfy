/** The accept-and-hand-off protocol of `ShardedManager`: one acceptor, N workers, locked queues,
    wake pipes and the atomics `live_conns_`, `next_`, `draining_`, `running_`, interleaved one
    atomic step at a time. */
module Sharded {
  import opened Wrappers

  type Fd = nat

  /** Sent through a wake pipe; the id that `wake_mgr` uses. */
  const WAKE_ID: nat := 1
  const UINT_RANGE: nat := 0x1_0000_0000

  /** `max` is `max_connections_`, 0 meaning no cap. */
  datatype Config = Config(n: nat, max: nat)

  /** The acceptor thread. `draining` is the local copy read before the poll. */
  datatype Acceptor =
    | TestRunning
    | ReadDraining
    | Polling(draining: bool)
    | Accepted(draining: bool, fd: Fd)      // the handler starts: `draining_` is read next
    | TestCap(draining: bool, fd: Fd)
    | Detach(draining: bool, fd: Fd)
    | Reserve(draining: bool, fd: Fd)       // the descriptor is in the handler's hands
    | PickWorker(draining: bool, fd: Fd)    // the slot is reserved
    | Push(draining: bool, fd: Fd, idx: nat)
    | Wake(draining: bool, idx: nat)
    | PollReturned(draining: bool)
    | Ending(cause: Cause)                  // about to clear `running_`
    | WakeAll(next: nat)                    // the loop has ended
    | Join
    | Flush(next: nat)
    | Finished

  datatype Phase =
    | Top
    | Drain
    | Holding(fd: Fd)                       // popped, not yet adopted
    | Dropping(fd: Fd)                      // adoption failed, slot released, socket still open
    | SeeDraining
    | SeeDeadline
    | PastDeadline                          // about to clear `running_`
    | Waiting
    | Serving                               // the wait is over, connections are being served
    | Closing(fd: Fd)                       // socket closed, MG_EV_CLOSE not yet delivered
    | Exited

  datatype Conn = Conn(fd: Fd, id: nat)

  datatype Worker = Worker(queue: seq<Fd>, phase: Phase, conns: seq<Conn>, pipe: nat, nextid: nat)

  datatype Cause = Stopped | DeadlinePassed | Drained

  /** `doomed` are accepted sockets that the acceptor keeps in order to close them; `closed`, `seen`
      and `causes` record what has happened: sockets closed, sockets accepted, why `running_` was cleared. */
  datatype State = State(
    acc: Acceptor, workers: seq<Worker>, live: int, next: nat, running: bool, draining: bool,
    deadline: nat, clock: nat, doomed: multiset<Fd>, closed: multiset<Fd>, seen: set<Fd>, causes: set<Cause>)

  function FreshWorker(i: nat): Worker { Worker([], Top, [], 0, i) }

  /** Entering the loops of `run()`. */
  function Init(c: Config): State {
    State(TestRunning, seq(c.n, (i: nat) => FreshWorker(i)), 0, 0, true, false, 0, 0, multiset{}, multiset{}, {}, {})
  }

  datatype Wakeup = ByDatagram | ByTimeout | BySocket

  datatype Step =
    // acceptor
    | AccTestRunning | AccReadDraining | AccAccept(fd: Fd) | AccSeeDraining | AccTestCap | AccDetach | AccReserve
    | AccPickWorker | AccPush | AccWake(delivered: bool) | AccCloseDoomed(fd: Fd) | AccPollReturns | AccTestDrained
    | AccClearRunning
    | AccWakeNext | AccJoined | AccFlushOne
    // worker i
    | WorkerTest(i: nat) | WorkerPop(i: nat) | WorkerAdopt(i: nat) | WorkerAdoptFails(i: nat) | WorkerDrop(i: nat)
    | WorkerSeeDraining(i: nat) | WorkerSeeDeadline(i: nat) | WorkerClearRunning(i: nat)
    | WorkerWakes(i: nat, why: Wakeup) | WorkerReadsPipe(i: nat)
    | WorkerCloses(i: nat, k: nat) | WorkerDelivers(i: nat) | WorkerPollEnds(i: nat)
    // other threads and time
    | CallStop | CallDrainDeadline(timeout: nat) | CallDrainFlag | Poke(i: nat) | Tick

  function With(s: State, i: nat, w: Worker): State
    requires i < |s.workers|
  {
    s.(workers := s.workers[i := w])
  }

  /** A wake-up is sent; a full pipe refuses it, but then it holds datagrams already. */
  function Woken(w: Worker, delivered: bool): Worker {
    if delivered || w.pipe == 0 then w.(pipe := w.pipe + 1) else w
  }

  function RoundRobin(next: nat, n: nat): (i: nat)
    requires n > 0
    ensures i < n
  {
    next % n
  }

  predicate PastDrainDeadline(s: State) {
    s.deadline != 0 && s.clock >= s.deadline
  }

  /** The acceptor's loop in `run()`. */
  function LoopStep(s: State, step: Step): Option<State> {
    match s.acc
    case TestRunning =>
      if step.AccTestRunning? then Some(s.(acc := if s.running then ReadDraining else WakeAll(0))) else None
    case ReadDraining =>
      if step.AccReadDraining? then Some(s.(acc := Polling(s.draining))) else None
    case Polling(d) =>
      if step.AccAccept? && step.fd !in s.seen then
        Some(s.(acc := Accepted(d, step.fd), seen := s.seen + {step.fd}))
      else if step.AccCloseDoomed? && step.fd in s.doomed then
        Some(s.(doomed := s.doomed - multiset{step.fd}, closed := s.closed + multiset{step.fd}))
      else if step.AccPollReturns? then Some(s.(acc := PollReturned(d)))
      else None
    case PollReturned(d) =>
      if !step.AccTestDrained? then None
      else if d && (s.live == 0 || PastDrainDeadline(s))
      then Some(s.(acc := Ending(if s.live == 0 then Drained else DeadlinePassed)))
      else Some(s.(acc := TestRunning))
    case Ending(cause) =>
      if step.AccClearRunning?
      then Some(s.(acc := TestRunning, running := false, causes := s.causes + {cause})) else None
    case _ => None
  }

  /** The accept handler up to the choice of a worker. */
  function AdmitStep(c: Config, s: State, step: Step): Option<State> {
    match s.acc
    case Accepted(d, fd) =>
      if !step.AccSeeDraining? then None
      else if s.draining then Some(s.(acc := Polling(d), doomed := s.doomed + multiset{fd}))
      else Some(s.(acc := TestCap(d, fd)))
    case TestCap(d, fd) =>
      if !step.AccTestCap? then None
      else if c.max > 0 && s.live >= c.max then Some(s.(acc := Polling(d), doomed := s.doomed + multiset{fd}))
      else Some(s.(acc := Detach(d, fd)))
    case Detach(d, fd) =>
      if step.AccDetach? then Some(s.(acc := Reserve(d, fd))) else None
    case Reserve(d, fd) =>
      if step.AccReserve? then Some(s.(acc := PickWorker(d, fd), live := s.live + 1)) else None
    case PickWorker(d, fd) =>
      if step.AccPickWorker? && c.n > 0
      then Some(s.(acc := Push(d, fd, RoundRobin(s.next, c.n)), next := (s.next + 1) % UINT_RANGE)) else None
    case _ => None
  }

  /** The acceptor on a worker's queue or pipe: the hand-off. */
  function HandoffStep(s: State, step: Step): Option<State> {
    match s.acc
    case Push(d, fd, i) =>
      if step.AccPush? && i < |s.workers|
      then Some(With(s, i, s.workers[i].(queue := s.workers[i].queue + [fd])).(acc := Wake(d, i))) else None
    case Wake(d, i) =>
      if step.AccWake? && i < |s.workers|
      then Some(With(s, i, Woken(s.workers[i], step.delivered)).(acc := Polling(d))) else None
    case _ => None
  }

  /** The end of `run()`: wake and join the workers, close what is still queued. */
  function ShutdownStep(s: State, step: Step): Option<State> {
    match s.acc
    case WakeAll(i) =>
      if !step.AccWakeNext? then None
      else if i >= |s.workers| then Some(s.(acc := Join))
      else Some(With(s, i, Woken(s.workers[i], true)).(acc := WakeAll(i + 1)))
    case Join =>
      if step.AccJoined? && (forall i :: 0 <= i < |s.workers| ==> s.workers[i].phase.Exited?)
      then Some(s.(acc := Flush(0))) else None
    case Flush(i) =>
      if !step.AccFlushOne? then None
      else if i >= |s.workers| then Some(s.(acc := Finished))
      else
        var w := s.workers[i];
        if w.queue == [] then Some(s.(acc := Flush(i + 1)))
        else Some(With(s, i, w.(queue := w.queue[1..])).(closed := s.closed + multiset{w.queue[0]}, live := s.live - 1))
    case _ => None
  }

  /** What a step changes in the worker itself. */
  function Advance(c: Config, s: State, w: Worker, step: Step): Option<Worker> {
    match w.phase
    case Top =>
      if step.WorkerTest? then Some(w.(phase := if s.running then Drain else Exited)) else None
    case Drain =>
      if !step.WorkerPop? then None
      else if w.queue == [] then Some(w.(phase := SeeDraining))
      else Some(w.(phase := Holding(w.queue[0]), queue := w.queue[1..]))
    case Holding(fd) =>
      if step.WorkerAdopt? then
        Some(w.(phase := Drain, nextid := w.nextid + c.n, conns := [Conn(fd, w.nextid + c.n)] + w.conns))
      else if step.WorkerAdoptFails? then Some(w.(phase := Dropping(fd)))
      else None
    case Dropping(fd) =>
      if step.WorkerDrop? then Some(w.(phase := Drain)) else None
    case SeeDraining =>
      if step.WorkerSeeDraining? then Some(w.(phase := if s.draining then SeeDeadline else Waiting)) else None
    case SeeDeadline =>
      if step.WorkerSeeDeadline?
      then Some(w.(phase := if PastDrainDeadline(s) then PastDeadline else Waiting)) else None
    case PastDeadline =>
      if step.WorkerClearRunning? then Some(w.(phase := Exited)) else None
    case Waiting =>
      if step.WorkerWakes? && (step.why.ByDatagram? ==> w.pipe > 0) then Some(w.(phase := Serving)) else None
    case Serving =>
      if step.WorkerReadsPipe? && w.pipe > 0 then Some(w.(pipe := w.pipe - 1))
      else if step.WorkerCloses? && step.k < |w.conns| then
        Some(w.(phase := Closing(w.conns[step.k].fd), conns := w.conns[..step.k] + w.conns[step.k + 1..]))
      else if step.WorkerPollEnds? then Some(w.(phase := Top))
      else None
    case Closing(fd) =>
      if step.WorkerDelivers? then Some(w.(phase := Serving)) else None
    case Exited => None
  }

  /** The slot given back: a failed adoption, or a delivered MG_EV_CLOSE. */
  function Released(step: Step): nat {
    if step.WorkerAdoptFails? || step.WorkerDelivers? then 1 else 0
  }

  /** The socket closed: a descriptor that was not adopted, or a connection that ends. */
  function Shut(w: Worker, step: Step): multiset<Fd> {
    if step.WorkerDrop? && w.phase.Dropping? then multiset{w.phase.fd}
    else if step.WorkerCloses? && step.k < |w.conns| then multiset{w.conns[step.k].fd}
    else multiset{}
  }

  function WorkerStep(c: Config, s: State, i: nat, step: Step): Option<State>
    requires i < |s.workers|
  {
    var w := s.workers[i];
    match Advance(c, s, w, step)
    case None => None
    case Some(w') =>
      var s' := With(s, i, w').(live := s.live - Released(step), closed := s.closed + Shut(w, step));
      Some(if step.WorkerClearRunning? then s'.(running := false, causes := s.causes + {DeadlinePassed}) else s')
  }

  function WorkerOf(step: Step): Option<nat> {
    match step
    case WorkerTest(i) => Some(i)
    case WorkerPop(i) => Some(i)
    case WorkerAdopt(i) => Some(i)
    case WorkerAdoptFails(i) => Some(i)
    case WorkerDrop(i) => Some(i)
    case WorkerSeeDraining(i) => Some(i)
    case WorkerSeeDeadline(i) => Some(i)
    case WorkerClearRunning(i) => Some(i)
    case WorkerWakes(i, _) => Some(i)
    case WorkerReadsPipe(i) => Some(i)
    case WorkerCloses(i, _) => Some(i)
    case WorkerDelivers(i) => Some(i)
    case WorkerPollEnds(i) => Some(i)
    case _ => None
  }

  function OtherStep(s: State, step: Step): Option<State> {
    match step
    case CallStop => Some(s.(running := false, causes := s.causes + {Stopped}))
    case CallDrainDeadline(t) => Some(s.(deadline := if t > 0 then s.clock + t else 0))
    case CallDrainFlag => Some(s.(draining := true))
    case Poke(i) => if i >= |s.workers| then None else Some(With(s, i, Woken(s.workers[i], true)))
    case Tick => Some(s.(clock := s.clock + 1))
    case _ => None
  }

  predicate ByOthers(step: Step) {
    step.CallStop? || step.CallDrainDeadline? || step.CallDrainFlag? || step.Poke? || step.Tick?
  }

  /** The state after a step, or None where the step is not enabled. */
  function Apply(c: Config, s: State, step: Step): Option<State> {
    match WorkerOf(step)
    case Some(i) => if i < |s.workers| then WorkerStep(c, s, i, step) else None
    case None =>
      if ByOthers(step) then OtherStep(s, step)
      else match s.acc
        case Push(_, _, _) => HandoffStep(s, step)
        case Wake(_, _) => HandoffStep(s, step)
        case WakeAll(_) => ShutdownStep(s, step)
        case Join => ShutdownStep(s, step)
        case Flush(_) => ShutdownStep(s, step)
        case Accepted(_, _) => AdmitStep(c, s, step)
        case TestCap(_, _) => AdmitStep(c, s, step)
        case Detach(_, _) => AdmitStep(c, s, step)
        case Reserve(_, _) => AdmitStep(c, s, step)
        case PickWorker(_, _) => AdmitStep(c, s, step)
        case _ => LoopStep(s, step)
  }

  ghost predicate Next(c: Config, s: State, s': State) {
    exists step :: Apply(c, s, step) == Some(s')
  }

  /** A run: any interleaving, from the entry of `run()` on. */
  ghost predicate IsRun(c: Config, run: seq<State>) {
    && c.n >= 1 && |run| > 0 && run[0] == Init(c)
    && forall k :: 0 <= k < |run| - 1 ==> Next(c, run[k], run[k + 1])
  }
}
