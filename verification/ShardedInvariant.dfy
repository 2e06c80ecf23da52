/** What every step of the hand-off protocol keeps: the slot count, the cap, one holder for every
    descriptor, the wake-up behind every queued connection, and the routing of connection ids. */
module ShardedInvariant {
  import opened Wrappers
  import opened Sharded

  // ----- slots

  predicate Reserved(a: Acceptor) {
    a.PickWorker? || a.Push?
  }

  /** The slots of `live_conns_` that a worker answers for. */
  function Slots(w: Worker): nat {
    |w.queue| + |w.conns| + (if w.phase.Holding? || w.phase.Closing? then 1 else 0)
  }

  function TotalSlots(ws: seq<Worker>): nat {
    if ws == [] then 0 else Slots(ws[0]) + TotalSlots(ws[1..])
  }

  /** Reserved and not pushed, queued, popped and not adopted, adopted without a delivered close. */
  function SlotsInUse(s: State): nat {
    (if Reserved(s.acc) then 1 else 0) + TotalSlots(s.workers)
  }

  // ----- descriptors

  predicate InHand(a: Acceptor) {
    a.Accepted? || a.TestCap? || a.Detach? || a.Reserve? || a.PickWorker? || a.Push?
  }

  function ConnCount(conns: seq<Conn>, fd: Fd): nat {
    if conns == [] then 0 else (if conns[0].fd == fd then 1 else 0) + ConnCount(conns[1..], fd)
  }

  /** How many times a worker holds the open descriptor `fd`. */
  function Holds(w: Worker, fd: Fd): nat {
    multiset(w.queue)[fd] + ConnCount(w.conns, fd) +
    (if (w.phase.Holding? || w.phase.Dropping?) && w.phase.fd == fd then 1 else 0)
  }

  function TotalHolds(ws: seq<Worker>, fd: Fd): nat {
    if ws == [] then 0 else Holds(ws[0], fd) + TotalHolds(ws[1..], fd)
  }

  /** How many parties hold the open descriptor `fd`. */
  function OpenPlaces(s: State, fd: Fd): nat {
    (if InHand(s.acc) && s.acc.fd == fd then 1 else 0) + s.doomed[fd] + TotalHolds(s.workers, fd)
  }

  function Places(s: State, fd: Fd): nat {
    OpenPlaces(s, fd) + s.closed[fd]
  }

  // ----- the invariant

  ghost predicate Shape(c: Config, s: State) {
    c.n >= 1 && |s.workers| == c.n && (s.acc.Push? || s.acc.Wake? ==> s.acc.idx < c.n)
  }

  ghost predicate SlotsCounted(s: State) {
    s.live == SlotsInUse(s)
  }

  ghost predicate CapKept(c: Config, s: State) {
    c.max > 0 ==> s.live <= c.max && (s.acc.Detach? || s.acc.Reserve? ==> s.live < c.max)
  }

  /** Every accepted descriptor is in exactly one place: held once, or closed once. */
  ghost predicate OneHolder(s: State) {
    forall fd: Fd :: Places(s, fd) == if fd in s.seen then 1 else 0
  }

  /** A worker that has found its queue empty and not yet stopped waiting. */
  predicate MayMiss(p: Phase) {
    p.SeeDraining? || p.SeeDeadline? || p.Waiting?
  }

  ghost predicate HandoffAnnounced(s: State) {
    forall i :: 0 <= i < |s.workers| && s.workers[i].queue != [] && MayMiss(s.workers[i].phase) ==>
      s.workers[i].pipe > 0 || (s.acc.Wake? && s.acc.idx == i)
  }

  predicate LoopEnded(a: Acceptor) {
    a.WakeAll? || a.Join? || a.Flush? || a.Finished?
  }

  /** No slot is in use and none can be taken any more. */
  ghost predicate Emptied(s: State) {
    s.live == 0 && (s.acc.Ending? || (s.acc.TestRunning? && !s.running) || LoopEnded(s.acc))
  }

  ghost predicate EndingExplained(s: State) {
    && (s.running <==> s.causes == {})
    && (LoopEnded(s.acc) ==> !s.running)
    && (forall i :: 0 <= i < |s.workers| && s.workers[i].phase.Exited? ==> !s.running)
    && (s.acc == Ending(Drained) || Drained in s.causes ==> Emptied(s))
  }

  ghost predicate Flushed(s: State) {
    s.acc.Flush? || s.acc.Finished? ==>
      forall i :: 0 <= i < |s.workers| ==>
        s.workers[i].phase.Exited? && (s.acc.Finished? || i < s.acc.next ==> s.workers[i].queue == [])
  }

  /** Worker i issues the ids i + N, i + 2N, ...; later connections stand in front. */
  ghost predicate IdsOf(n: nat, i: nat, w: Worker)
    requires n >= 1
  {
    && w.nextid % n == i && w.nextid >= i
    && (forall a :: 0 <= a < |w.conns| ==> w.conns[a].id % n == i && n + i <= w.conns[a].id <= w.nextid)
    && (forall a, b :: 0 <= a < b < |w.conns| ==> w.conns[a].id > w.conns[b].id)
  }

  ghost predicate IdsPartitioned(c: Config, s: State)
    requires c.n >= 1
  {
    forall i :: 0 <= i < |s.workers| ==> IdsOf(c.n, i, s.workers[i])
  }

  ghost predicate Inv(c: Config, s: State) {
    && Shape(c, s) && SlotsCounted(s) && CapKept(c, s) && OneHolder(s) && HandoffAnnounced(s)
    && EndingExplained(s) && Flushed(s) && IdsPartitioned(c, s)
  }

  // ----- sums over the workers

  lemma {:induction false} SlotsUpdate(ws: seq<Worker>, i: nat, w: Worker)
    requires i < |ws|
    ensures TotalSlots(ws[i := w]) == TotalSlots(ws) + Slots(w) - Slots(ws[i])
  {
    if i > 0 {
      assert ws[i := w][1..] == ws[1..][i - 1 := w];
      SlotsUpdate(ws[1..], i - 1, w);
    } else {
      assert ws[i := w][1..] == ws[1..];
    }
  }

  lemma {:induction false} HoldsUpdate(ws: seq<Worker>, i: nat, w: Worker, fd: Fd)
    requires i < |ws|
    ensures TotalHolds(ws[i := w], fd) == TotalHolds(ws, fd) + Holds(w, fd) - Holds(ws[i], fd)
  {
    if i > 0 {
      assert ws[i := w][1..] == ws[1..][i - 1 := w];
      HoldsUpdate(ws[1..], i - 1, w, fd);
    } else {
      assert ws[i := w][1..] == ws[1..];
    }
  }

  lemma {:induction false} SlotsOf(ws: seq<Worker>, i: nat)
    requires i < |ws|
    ensures Slots(ws[i]) <= TotalSlots(ws)
  {
    if i > 0 {
      SlotsOf(ws[1..], i - 1);
    }
  }

  lemma {:induction false} FreshTotals(ws: seq<Worker>, fd: Fd)
    requires forall i :: 0 <= i < |ws| ==> Slots(ws[i]) == 0 && Holds(ws[i], fd) == 0
    ensures TotalSlots(ws) == 0 && TotalHolds(ws, fd) == 0
  {
    if ws != [] {
      FreshTotals(ws[1..], fd);
    }
  }

  lemma {:induction false} ConnRemoved(conns: seq<Conn>, k: nat, fd: Fd)
    requires k < |conns|
    ensures ConnCount(conns[..k] + conns[k + 1..], fd) ==
            ConnCount(conns, fd) - (if conns[k].fd == fd then 1 else 0)
  {
    var rest := conns[..k] + conns[k + 1..];
    if k > 0 {
      assert rest[1..] == conns[1..][..k - 1] + conns[1..][k..];
      ConnRemoved(conns[1..], k - 1, fd);
    } else {
      assert rest == conns[1..];
    }
  }

  lemma ConnAdded(conns: seq<Conn>, x: Conn, fd: Fd)
    ensures ConnCount([x] + conns, fd) == ConnCount(conns, fd) + (if x.fd == fd then 1 else 0)
  {
    assert ([x] + conns)[1..] == conns;
  }

  lemma QueuePopped(q: seq<Fd>, fd: Fd)
    requires q != []
    ensures multiset(q)[fd] == multiset(q[1..])[fd] + (if q[0] == fd then 1 else 0)
  {
    assert q == [q[0]] + q[1..];
  }

  // ----- the initial state

  lemma InitInv(c: Config)
    requires c.n >= 1
    ensures Inv(c, Init(c))
  {
    hide TotalSlots, Places, IdsPartitioned;
    var s := Init(c);
    forall fd: Fd
      ensures Places(s, fd) == 0 && TotalSlots(s.workers) == 0
    {
      InitPlaces(c, fd);
    }
    assert Places(s, 0) == 0;
    InitIds(c);
  }

  lemma InitPlaces(c: Config, fd: Fd)
    ensures Places(Init(c), fd) == 0 && TotalSlots(Init(c).workers) == 0
  {
    FreshTotals(Init(c).workers, fd);
  }

  lemma InitIds(c: Config)
    requires c.n >= 1
    ensures IdsPartitioned(c, Init(c))
  {
    forall i | 0 <= i < c.n
      ensures IdsOf(c.n, i, FreshWorker(i))
    {
      assert i % c.n == i;
    }
  }

  // ----- slots and descriptors through a worker's step

  lemma AdvanceSlots(c: Config, s: State, w: Worker, step: Step)
    requires Advance(c, s, w, step).Some?
    ensures Slots(Advance(c, s, w, step).value) == Slots(w) - Released(step)
  {
  }

  /** A step that leaves the queue and the connections alone. */
  lemma PhaseHolds(c: Config, s: State, w: Worker, step: Step, fd: Fd)
    requires Advance(c, s, w, step).Some? && !step.WorkerAdopt? && !step.WorkerCloses?
    requires step.WorkerPop? ==> w.queue == []
    ensures Holds(Advance(c, s, w, step).value, fd) + Shut(w, step)[fd] == Holds(w, fd)
  {
    hide ConnCount;
  }

  lemma AdvanceHolds(c: Config, s: State, w: Worker, step: Step, fd: Fd)
    requires Advance(c, s, w, step).Some?
    ensures Holds(Advance(c, s, w, step).value, fd) + Shut(w, step)[fd] == Holds(w, fd)
  {
    hide ConnCount;
    if step.WorkerPop? && w.queue != [] {
      QueuePopped(w.queue, fd);
    } else if step.WorkerAdopt? {
      ConnAdded(w.conns, Conn(w.phase.fd, w.nextid + c.n), fd);
    } else if step.WorkerCloses? {
      ConnRemoved(w.conns, step.k, fd);
    } else {
      hide Advance, Shut, Holds;
      PhaseHolds(c, s, w, step, fd);
    }
  }

  /** Everything a worker's step changes outside the worker. */
  lemma WorkerStepEffect(c: Config, s: State, i: nat, step: Step, s': State)
    requires i < |s.workers| && WorkerStep(c, s, i, step) == Some(s')
    ensures |s'.workers| == |s.workers| && s'.workers == s.workers[i := s'.workers[i]]
    ensures Advance(c, s, s.workers[i], step) == Some(s'.workers[i])
    ensures s'.live == s.live - Released(step) && s'.closed == s.closed + Shut(s.workers[i], step)
    ensures s'.acc == s.acc && s'.doomed == s.doomed && s'.seen == s.seen
    ensures s'.deadline == s.deadline && s'.clock == s.clock
    ensures if step.WorkerClearRunning? then !s'.running && s'.causes == s.causes + {DeadlinePassed}
            else s'.running == s.running && s'.causes == s.causes
  {
    hide Advance, Released, Shut;
  }

  ghost predicate Counted(c: Config, s: State) {
    Shape(c, s) && SlotsCounted(s) && CapKept(c, s)
  }

  lemma WorkerKeepsCounts(c: Config, s: State, i: nat, step: Step, s': State)
    requires Counted(c, s) && OneHolder(s) && i < |s.workers| && WorkerStep(c, s, i, step) == Some(s')
    ensures Counted(c, s') && OneHolder(s') && s'.live <= s.live
  {
    hide WorkerStep, Advance, Released, Shut, Slots, Holds, TotalSlots, TotalHolds;
    WorkerStepEffect(c, s, i, step, s');
    AdvanceSlots(c, s, s.workers[i], step);
    SlotsUpdate(s.workers, i, s'.workers[i]);
    forall fd: Fd
      ensures Places(s', fd) == Places(s, fd)
    {
      AdvanceHolds(c, s, s.workers[i], step, fd);
      HoldsUpdate(s.workers, i, s'.workers[i], fd);
    }
  }

  // ----- and through the acceptor's

  lemma AdmitKeepsCounts(c: Config, s: State, step: Step, s': State)
    requires Counted(c, s) && OneHolder(s) && AdmitStep(c, s, step) == Some(s')
    ensures Counted(c, s') && OneHolder(s')
  {
    hide TotalSlots, TotalHolds, RoundRobin;
    forall fd: Fd
      ensures Places(s', fd) == Places(s, fd)
    {
    }
  }

  lemma LoopKeepsCounts(c: Config, s: State, step: Step, s': State)
    requires Counted(c, s) && OneHolder(s) && LoopStep(s, step) == Some(s')
    ensures Counted(c, s') && OneHolder(s')
  {
    LoopEffect(s, step, s');
    hide LoopStep, TotalSlots, TotalHolds, Places;
    forall fd: Fd
      ensures Places(s', fd) == if fd in s'.seen then 1 else 0
    {
      LoopPlaces(s, step, s', fd);
      assert Places(s, fd) == if fd in s.seen then 1 else 0;
    }
  }

  lemma LoopEffect(s: State, step: Step, s': State)
    requires LoopStep(s, step) == Some(s')
    ensures s'.workers == s.workers && s'.live == s.live && !Reserved(s.acc) && !Reserved(s'.acc)
    ensures !s'.acc.Detach? && !s'.acc.Reserve? && !s'.acc.Push? && !s'.acc.Wake?
    ensures if step.AccAccept? then step.fd !in s.seen && s'.seen == s.seen + {step.fd} else s'.seen == s.seen
  {
    hide PastDrainDeadline;
    match s.acc
    case Polling(_) =>
    case _ =>
  }

  lemma LoopPlaces(s: State, step: Step, s': State, fd: Fd)
    requires LoopStep(s, step) == Some(s')
    ensures Places(s', fd) == Places(s, fd) + (if step.AccAccept? && fd == step.fd then 1 else 0)
  {
    hide TotalHolds;
    LoopCloses(s, step, s', fd);
    assert s'.workers == s.workers by { LoopEffect(s, step, s'); }
    hide LoopStep;
  }

  /** Accepting takes a descriptor in hand, closing moves one from `doomed` to `closed`. */
  lemma LoopCloses(s: State, step: Step, s': State, fd: Fd)
    requires LoopStep(s, step) == Some(s')
    ensures s'.doomed[fd] + s'.closed[fd] == s.doomed[fd] + s.closed[fd]
    ensures !InHand(s.acc)
    ensures if step.AccAccept? then s'.acc.Accepted? && s'.acc.fd == step.fd else !InHand(s'.acc)
  {
  }

  /** Worker `i` is given `n` more entries in its queue, or fewer, `fd` among them `k` times. */
  lemma WorkerReplaced(s: State, i: nat, w: Worker, fd: Fd)
    requires i < |s.workers|
    ensures TotalSlots(With(s, i, w).workers) == TotalSlots(s.workers) + Slots(w) - Slots(s.workers[i])
    ensures TotalHolds(With(s, i, w).workers, fd) == TotalHolds(s.workers, fd) + Holds(w, fd) - Holds(s.workers[i], fd)
  {
    SlotsUpdate(s.workers, i, w);
    HoldsUpdate(s.workers, i, w, fd);
  }

  lemma HandoffKeepsCounts(c: Config, s: State, step: Step, s': State)
    requires Counted(c, s) && OneHolder(s) && HandoffStep(s, step) == Some(s')
    ensures Counted(c, s') && OneHolder(s')
  {
    hide TotalSlots, TotalHolds;
    forall fd: Fd
      ensures Places(s', fd) == Places(s, fd) && SlotsInUse(s') == SlotsInUse(s)
    {
      WorkerReplaced(s, s.acc.idx, s'.workers[s.acc.idx], fd);
    }
    assert Places(s', 0) == Places(s, 0);
  }

  lemma WakeAllKeepsCounts(c: Config, s: State, step: Step, s': State)
    requires Counted(c, s) && OneHolder(s) && (s.acc.WakeAll? || s.acc.Join?) && ShutdownStep(s, step) == Some(s')
    ensures Counted(c, s') && OneHolder(s') && s'.live == s.live
  {
    hide TotalSlots, TotalHolds, ConnCount;
    forall fd: Fd
      ensures Places(s', fd) == Places(s, fd) && SlotsInUse(s') == SlotsInUse(s)
    {
      if s.acc.WakeAll? && s.acc.next < |s.workers| {
        WorkerReplaced(s, s.acc.next, s'.workers[s.acc.next], fd);
      }
    }
    assert Places(s', 0) == Places(s, 0);
  }

  lemma Popped(w: Worker, fd: Fd)
    requires w.queue != []
    ensures var w' := w.(queue := w.queue[1..]);
            Slots(w') == Slots(w) - 1 && Holds(w', fd) == Holds(w, fd) - (if w.queue[0] == fd then 1 else 0)
  {
    hide ConnCount;
    QueuePopped(w.queue, fd);
  }

  lemma FlushKeepsCounts(c: Config, s: State, step: Step, s': State)
    requires Counted(c, s) && OneHolder(s) && s.acc.Flush? && ShutdownStep(s, step) == Some(s')
    ensures Counted(c, s') && OneHolder(s') && s'.live <= s.live
  {
    hide TotalSlots, TotalHolds, Slots, Holds;
    forall fd: Fd
      ensures Places(s', fd) == Places(s, fd) && SlotsInUse(s') - s'.live == SlotsInUse(s) - s.live
    {
      if s.acc.next < |s.workers| && s.workers[s.acc.next].queue != [] {
        WorkerReplaced(s, s.acc.next, s'.workers[s.acc.next], fd);
        Popped(s.workers[s.acc.next], fd);
      }
    }
    assert Places(s', 0) == Places(s, 0);
  }
}
