/** The invariant over every run, and what it says about caps, hand-offs, drains and ids. */
module ShardedRuns {
  import opened Wrappers
  import opened Sharded
  import opened ShardedInvariant

  /** The parts of the invariant that are not counts. */
  ghost predicate Ordered(c: Config, s: State)
    requires c.n >= 1
  {
    HandoffAnnounced(s) && EndingExplained(s) && Flushed(s) && IdsPartitioned(c, s)
  }

  lemma Gap(n: nat, small: nat, large: nat)
    requires small < large
    ensures n * large >= n * small + n
  {
    assert n * large == n * small + n * (large - small);
    assert n * (large - small) == n + n * (large - small - 1);
  }

  lemma ModUnique(a: nat, n: nat, q: nat, r: nat)
    requires n >= 1 && r < n && a == n * q + r
    ensures a % n == r
  {
    var q', r' := a / n, a % n;
    assert a == n * q' + r' && 0 <= r' < n;
    if q' < q {
      Gap(n, q', q);
    } else if q' > q {
      Gap(n, q, q');
    }
  }

  lemma NextId(n: nat, i: nat, id: nat)
    requires n >= 1 && id % n == i
    ensures (id + n) % n == i
  {
    ModUnique(id + n, n, id / n + 1, i);
  }

  lemma AdvanceIds(c: Config, s: State, i: nat, w: Worker, step: Step)
    requires c.n >= 1 && IdsOf(c.n, i, w) && Advance(c, s, w, step).Some?
    ensures IdsOf(c.n, i, Advance(c, s, w, step).value)
  {
    hide IdsOf;
    var w' := Advance(c, s, w, step).value;
    if step.WorkerAdopt? {
      AdoptId(c.n, i, w, w');
    } else if step.WorkerCloses? {
      CloseId(c.n, i, w, w', step.k);
    } else {
      SameId(c.n, i, w, w');
    }
  }

  lemma CloseId(n: nat, i: nat, w: Worker, w': Worker, k: nat)
    requires n >= 1 && IdsOf(n, i, w) && w'.nextid == w.nextid && k < |w.conns|
    requires w'.conns == w.conns[..k] + w.conns[k + 1..]
    ensures IdsOf(n, i, w')
  {
    assert forall a :: 0 <= a < |w'.conns| ==> w'.conns[a] == w.conns[if a < k then a else a + 1];
  }

  lemma SameId(n: nat, i: nat, w: Worker, w': Worker)
    requires n >= 1 && IdsOf(n, i, w) && w'.nextid == w.nextid && w'.conns == w.conns
    ensures IdsOf(n, i, w')
  {
  }

  lemma AdoptId(n: nat, i: nat, w: Worker, w': Worker)
    requires n >= 1 && IdsOf(n, i, w) && w'.nextid == w.nextid + n
    requires |w'.conns| == |w.conns| + 1 && w'.conns[0].id == w'.nextid && w'.conns[1..] == w.conns
    ensures IdsOf(n, i, w')
  {
    NextId(n, i, w.nextid);
    assert forall a :: 1 <= a < |w'.conns| ==> w'.conns[a] == w.conns[a - 1];
  }

  /** A step of worker `i`, as far as announcements and endings go. */
  lemma AdvanceOrder(c: Config, s: State, w: Worker, step: Step)
    requires Advance(c, s, w, step).Some?
    ensures var w' := Advance(c, s, w, step).value;
            && !w.phase.Exited?
            && (MayMiss(w'.phase) ==> w'.queue == [] || (MayMiss(w.phase) && w'.queue == w.queue && w'.pipe == w.pipe))
            && (w'.phase.Exited? ==> !s.running || step.WorkerClearRunning?)
  {
  }

  lemma WorkerKeepsOrder(c: Config, s: State, i: nat, step: Step, s': State)
    requires c.n >= 1 && Ordered(c, s) && i < |s.workers| && WorkerStep(c, s, i, step) == Some(s')
    requires s'.live <= s.live && SlotsCounted(s')
    ensures Ordered(c, s')
  {
    hide WorkerStep, Advance, Released, Shut, IdsOf, MayMiss, SlotsInUse;
    WorkerStepEffect(c, s, i, step, s');
    AdvanceOrder(c, s, s.workers[i], step);
    AdvanceIds(c, s, i, s.workers[i], step);
    assert s'.live >= 0 by { InUse(s'); }
  }

  lemma InUse(s: State)
    ensures SlotsInUse(s) >= 0
  {
  }

  lemma AdmitKeepsOrder(c: Config, s: State, step: Step, s': State)
    requires c.n >= 1 && Ordered(c, s) && AdmitStep(c, s, step) == Some(s')
    ensures Ordered(c, s')
  {
    hide RoundRobin, IdsOf, MayMiss;
  }

  lemma LoopKeepsOrder(c: Config, s: State, step: Step, s': State)
    requires c.n >= 1 && Ordered(c, s) && LoopStep(s, step) == Some(s')
    ensures Ordered(c, s')
  {
    hide IdsPartitioned, HandoffAnnounced, Flushed;
    assert s'.workers == s.workers by { LoopEffect(s, step, s'); }
    SameIds(c, s, s');
    LoopKeepsHandoff(s, step, s');
    LoopKeepsFlushed(s, step, s');
  }

  lemma SameIds(c: Config, s: State, s': State)
    requires c.n >= 1 && IdsPartitioned(c, s) && s'.workers == s.workers
    ensures IdsPartitioned(c, s')
  {
    hide IdsOf;
  }

  lemma LoopKeepsHandoff(s: State, step: Step, s': State)
    requires HandoffAnnounced(s) && LoopStep(s, step) == Some(s')
    ensures HandoffAnnounced(s')
  {
    hide MayMiss;
  }

  lemma LoopKeepsFlushed(s: State, step: Step, s': State)
    requires Flushed(s) && LoopStep(s, step) == Some(s')
    ensures Flushed(s')
  {
  }

  lemma HandoffKeepsOrder(c: Config, s: State, step: Step, s': State)
    requires c.n >= 1 && Ordered(c, s) && HandoffStep(s, step) == Some(s')
    ensures Ordered(c, s')
  {
    hide MayMiss;
    var i := s.acc.idx;
    assert forall j :: 0 <= j < |s.workers| && j != i ==> s'.workers[j] == s.workers[j];
    assert s'.workers[i].conns == s.workers[i].conns && s'.workers[i].nextid == s.workers[i].nextid;
    assert IdsOf(c.n, i, s.workers[i]);
  }

  lemma ShutdownKeepsOrder(c: Config, s: State, step: Step, s': State)
    requires c.n >= 1 && Ordered(c, s) && ShutdownStep(s, step) == Some(s')
    requires s'.live <= s.live && SlotsCounted(s')
    ensures Ordered(c, s')
  {
    hide MayMiss, SlotsInUse;
    InUse(s');
    if !s.acc.Join? && s.acc.next < |s.workers| {
      var i := s.acc.next;
      assert forall j :: 0 <= j < |s.workers| && j != i ==> s'.workers[j] == s.workers[j];
      assert s'.workers[i].conns == s.workers[i].conns && s'.workers[i].nextid == s.workers[i].nextid;
      assert IdsOf(c.n, i, s.workers[i]);
    }
  }

  lemma OthersKeepInv(c: Config, s: State, step: Step, s': State)
    requires Inv(c, s) && OtherStep(s, step) == Some(s')
    ensures Inv(c, s')
  {
    hide TotalSlots, TotalHolds, MayMiss;
    if step.Poke? {
      var i := step.i;
      forall fd: Fd
        ensures Places(s', fd) == Places(s, fd) && SlotsInUse(s') == SlotsInUse(s)
      {
        WorkerReplaced(s, i, s'.workers[i], fd);
      }
      assert Places(s', 0) == Places(s, 0);
      assert forall j :: 0 <= j < |s.workers| && j != i ==> s'.workers[j] == s.workers[j];
      assert IdsOf(c.n, i, s.workers[i]);
    } else {
      assert forall fd: Fd :: Places(s', fd) == Places(s, fd);
    }
  }

  /** Every step of every thread keeps the invariant. */
  lemma StepKeepsInv(c: Config, s: State, step: Step, s': State)
    requires Inv(c, s) && Apply(c, s, step) == Some(s')
    ensures Inv(c, s')
  {
    hide WorkerStep, LoopStep, AdmitStep, HandoffStep, ShutdownStep, OtherStep;
    hide SlotsCounted, CapKept, OneHolder, HandoffAnnounced, EndingExplained, Flushed, IdsPartitioned;
    assert Counted(c, s) && Ordered(c, s);
    var thread := WorkerOf(step);
    if thread.Some? {
      WorkerKeepsCounts(c, s, thread.value, step, s');
      WorkerKeepsOrder(c, s, thread.value, step, s');
    } else if ByOthers(step) {
      OthersKeepInv(c, s, step, s');
    } else if s.acc.Push? || s.acc.Wake? {
      HandoffKeepsCounts(c, s, step, s');
      HandoffKeepsOrder(c, s, step, s');
    } else if s.acc.Flush? {
      FlushKeepsCounts(c, s, step, s');
      ShutdownKeepsOrder(c, s, step, s');
    } else if s.acc.WakeAll? || s.acc.Join? {
      WakeAllKeepsCounts(c, s, step, s');
      ShutdownKeepsOrder(c, s, step, s');
    } else if InHand(s.acc) {
      AdmitKeepsCounts(c, s, step, s');
      AdmitKeepsOrder(c, s, step, s');
    } else {
      LoopKeepsCounts(c, s, step, s');
      LoopKeepsOrder(c, s, step, s');
    }
  }

  lemma StepAt(c: Config, run: seq<State>, k: nat) returns (step: Step)
    requires IsRun(c, run) && k + 1 < |run|
    ensures Apply(c, run[k], step) == Some(run[k + 1])
  {
    hide Apply;
    assert Next(c, run[k], run[k + 1]);
    step :| Apply(c, run[k], step) == Some(run[k + 1]);
  }

  lemma {:induction false} RunKeepsInv(c: Config, run: seq<State>, k: nat)
    requires IsRun(c, run) && k < |run|
    ensures Inv(c, run[k])
  {
    if k == 0 {
      InitInv(c);
    } else {
      hide Apply, Inv, IsRun;
      RunKeepsInv(c, run, k - 1);
      var step := StepAt(c, run, k - 1);
      StepKeepsInv(c, run[k - 1], step, run[k]);
    }
  }

  // ----- what the invariant says

  /** `live_conns_` counts exactly the connections between admission and close, and respects the cap. */
  lemma SlotsAndCap(c: Config, run: seq<State>, k: nat)
    requires IsRun(c, run) && k < |run|
    ensures run[k].live == SlotsInUse(run[k]) && (c.max > 0 ==> 0 <= run[k].live <= c.max)
  {
    RunKeepsInv(c, run, k);
  }

  /** An accepted descriptor is held by exactly one party until it is closed, and closed once. */
  lemma HeldOnceThenClosedOnce(c: Config, run: seq<State>, k: nat, fd: Fd)
    requires IsRun(c, run) && k < |run|
    ensures OpenPlaces(run[k], fd) + run[k].closed[fd] == if fd in run[k].seen then 1 else 0
  {
    RunKeepsInv(c, run, k);
    hide TotalHolds;
    assert Places(run[k], fd) == if fd in run[k].seen then 1 else 0;
  }

  /** Outside the push-to-wake window, a queued connection has a datagram pending in its worker's
      pipe, or its worker is on the way to draining the queue, or the manager is no longer running. */
  lemma NoLostHandoff(c: Config, run: seq<State>, k: nat, i: nat)
    requires IsRun(c, run) && k < |run| && i < c.n && run[k].running
    requires run[k].acc != Wake(true, i) && run[k].acc != Wake(false, i)
    ensures i < |run[k].workers|
    ensures var w := run[k].workers[i];
            w.queue != [] ==> w.pipe > 0 || !(MayMiss(w.phase) || w.phase.Exited?)
  {
    RunKeepsInv(c, run, k);
  }

  predicate Idle(w: Worker) {
    w.queue == [] && w.conns == [] && !w.phase.Holding? && !w.phase.Closing?
  }

  lemma NothingLive(c: Config, s: State)
    requires Inv(c, s) && s.live == 0
    ensures !Reserved(s.acc) && forall i :: 0 <= i < |s.workers| ==> Idle(s.workers[i])
  {
    forall i | 0 <= i < |s.workers|
      ensures Idle(s.workers[i])
    {
      SlotsOf(s.workers, i);
    }
  }

  /** Once the acceptor has ended a drain on `live_conns_ == 0`, nothing is queued, adopted or handed
      off in any later state. */
  lemma DrainEndsEmpty(c: Config, run: seq<State>, k: nat, m: nat)
    requires IsRun(c, run) && k <= m < |run| && Drained in run[k].causes
    ensures run[m].live == 0 && !InHand(run[m].acc) && !run[m].acc.Wake?
    ensures forall i :: 0 <= i < |run[m].workers| ==> Idle(run[m].workers[i])
  {
    CausesStay(c, run, k, m);
    RunKeepsInv(c, run, m);
    NothingLive(c, run[m]);
  }

  lemma {:induction false} CausesStay(c: Config, run: seq<State>, k: nat, m: nat)
    requires IsRun(c, run) && k <= m < |run|
    ensures run[k].causes <= run[m].causes
    decreases m
  {
    hide Apply, IsRun;
    if k < m {
      CausesStay(c, run, k, m - 1);
      var step := StepAt(c, run, m - 1);
      StepKeepsCauses(c, run[m - 1], step, run[m]);
    }
  }

  lemma StepKeepsCauses(c: Config, s: State, step: Step, s': State)
    requires Apply(c, s, step) == Some(s')
    ensures s.causes <= s'.causes
  {
    if WorkerOf(step).Some? {
      hide WorkerStep;
      OwnApply(c, s, WorkerOf(step).value, step, s');
      hide *;
      WorkerStepEffect(c, s, WorkerOf(step).value, step, s');
    } else {
      AcceptorKeepsCauses(c, s, step, s');
    }
  }

  lemma AcceptorKeepsCauses(c: Config, s: State, step: Step, s': State)
    requires WorkerOf(step).None? && Apply(c, s, step) == Some(s')
    ensures s.causes <= s'.causes
  {
    hide WorkerStep, RoundRobin, Woken, PastDrainDeadline, WorkerOf;
  }

  /** A step of worker `i` itself. */
  lemma OwnApply(c: Config, s: State, i: nat, step: Step, s': State)
    requires WorkerOf(step) == Some(i) && Apply(c, s, step) == Some(s')
    ensures i < |s.workers| && WorkerStep(c, s, i, step) == Some(s')
  {
    hide WorkerOf, WorkerStep;
  }

  /** Without `stop()` and without an elapsed deadline, `running_` is cleared only when nothing is live. */
  lemma EndsEmptyUnlessForced(c: Config, run: seq<State>, k: nat)
    requires IsRun(c, run) && k < |run| && !run[k].running
    requires Stopped !in run[k].causes && DeadlinePassed !in run[k].causes
    ensures run[k].live == 0 && forall i :: 0 <= i < |run[k].workers| ==> Idle(run[k].workers[i])
  {
    RunKeepsInv(c, run, k);
    var cause :| cause in run[k].causes;
    assert cause == Drained;
    NothingLive(c, run[k]);
  }

  function TotalConns(ws: seq<Worker>): nat {
    if ws == [] then 0 else |ws[0].conns| + TotalConns(ws[1..])
  }

  /** When `run()` returns, only connections still owned by workers are counted. */
  lemma FinishedCount(c: Config, run: seq<State>, k: nat)
    requires IsRun(c, run) && k < |run| && run[k].acc.Finished?
    ensures run[k].live == TotalConns(run[k].workers)
    ensures forall i :: 0 <= i < |run[k].workers| ==> run[k].workers[i].queue == [] && run[k].workers[i].phase.Exited?
  {
    RunKeepsInv(c, run, k);
    QuietTotal(run[k].workers);
  }

  lemma {:induction false} QuietTotal(ws: seq<Worker>)
    requires forall i :: 0 <= i < |ws| ==> ws[i].queue == [] && ws[i].phase.Exited?
    ensures TotalSlots(ws) == TotalConns(ws)
  {
    if ws != [] {
      assert ws[0].queue == [];
      QuietTotal(ws[1..]);
    }
  }

  // ----- connection ids

  /** Two connections alive at the same time never share an id, and an id names its worker. */
  lemma IdsRoute(c: Config, run: seq<State>, k: nat, i: nat, a: nat, j: nat, b: nat)
    requires IsRun(c, run) && k < |run| && i < |run[k].workers| && j < |run[k].workers|
    requires a < |run[k].workers[i].conns| && b < |run[k].workers[j].conns|
    ensures run[k].workers[i].conns[a].id % c.n == i
    ensures (i, a) != (j, b) ==> run[k].workers[i].conns[a].id != run[k].workers[j].conns[b].id
  {
    RunKeepsInv(c, run, k);
    assert IdsOf(c.n, i, run[k].workers[i]) && IdsOf(c.n, j, run[k].workers[j]);
  }

  ghost predicate HasWakeId(s: State) {
    exists i, a :: 0 <= i < |s.workers| && 0 <= a < |s.workers[i].conns| && s.workers[i].conns[a].id == WAKE_ID
  }

  ghost predicate CanCollide(c: Config) {
    exists run :: IsRun(c, run) && HasWakeId(run[|run| - 1])
  }

  lemma WakeIdIsFree(c: Config, run: seq<State>, k: nat)
    requires IsRun(c, run) && k < |run| && c.n >= 2
    ensures !HasWakeId(run[k])
  {
    RunKeepsInv(c, run, k);
    forall i, a | 0 <= i < |run[k].workers| && 0 <= a < |run[k].workers[i].conns|
      ensures run[k].workers[i].conns[a].id != WAKE_ID
    {
      assert IdsOf(c.n, i, run[k].workers[i]);
    }
  }

  lemma Extend(c: Config, run: seq<State>, step: Step, s': State) returns (longer: seq<State>)
    requires IsRun(c, run) && Apply(c, run[|run| - 1], step) == Some(s')
    ensures IsRun(c, longer) && longer[|longer| - 1] == s'
  {
    longer := run + [s'];
    forall k | 0 <= k < |longer| - 1
      ensures Next(c, longer[k], longer[k + 1])
    {
      if k < |run| - 1 {
        assert Next(c, run[k], run[k + 1]);
      }
    }
  }

  /** The steps from the acceptance of a connection to its push, on an idle acceptor. */
  lemma FirstPush(c: Config) returns (run: seq<State>, s: State)
    requires c.n == 1
    ensures IsRun(c, run) && s == run[|run| - 1] && s.running
    ensures s.workers == [FreshWorker(0).(queue := [0])]
  {
    var s0 := Init(c);
    run := [s0];
    var s1 := s0.(acc := ReadDraining);
    run := Extend(c, run, AccTestRunning, s1);
    var s2 := s1.(acc := Polling(false));
    run := Extend(c, run, AccReadDraining, s2);
    var s3 := s2.(acc := Accepted(false, 0), seen := {0});
    assert s2.seen + {0} == {0};
    run := Extend(c, run, AccAccept(0), s3);
    var s4 := s3.(acc := TestCap(false, 0));
    run := Extend(c, run, AccSeeDraining, s4);
    var s5 := s4.(acc := Detach(false, 0));
    run := Extend(c, run, AccTestCap, s5);
    var s6 := s5.(acc := Reserve(false, 0));
    run := Extend(c, run, AccDetach, s6);
    var s7 := s6.(acc := PickWorker(false, 0), live := 1);
    run := Extend(c, run, AccReserve, s7);
    var s8 := s7.(acc := Push(false, 0, 0), next := 1);
    run := Extend(c, run, AccPickWorker, s8);
    s := s8.(acc := Wake(false, 0), workers := [FreshWorker(0).(queue := [0])]);
    assert FreshWorker(0).queue + [0] == [0];
    assert s8.workers == [FreshWorker(0)] && s8.workers[0 := s.workers[0]] == s.workers;
    run := Extend(c, run, AccPush, s);
  }

  /** The worker then takes the connection from its queue. */
  lemma FirstPop(c: Config) returns (run: seq<State>, s: State)
    requires c.n == 1
    ensures IsRun(c, run) && s == run[|run| - 1] && s.running
    ensures s.workers == [FreshWorker(0).(phase := Holding(0))]
  {
    hide IsRun;
    var s0;
    run, s0 := FirstPush(c);
    var w := s0.workers[0];
    assert s0.closed + multiset{} == s0.closed && w.queue[1..] == [];
    var s1 := s0.(workers := [w.(phase := Drain)]);
    assert s0.workers[0 := s1.workers[0]] == s1.workers;
    run := Extend(c, run, WorkerTest(0), s1);
    s := s0.(workers := [w.(phase := Holding(0), queue := [])]);
    assert s1.workers[0 := s.workers[0]] == s.workers;
    run := Extend(c, run, WorkerPop(0), s);
  }

  lemma FirstClientCollides(c: Config)
    requires c.n == 1
    ensures CanCollide(c)
  {
    hide IsRun;
    var run, s := FirstPop(c);
    var w := s.workers[0];
    assert s.closed + multiset{} == s.closed;
    var s' := s.(workers := [w.(phase := Drain, nextid := 1, conns := [Conn(0, 1)])]);
    assert [Conn(0, 1)] + [] == [Conn(0, 1)];
    assert s.workers[0 := s'.workers[0]] == s'.workers;
    run := Extend(c, run, WorkerAdopt(0), s');
    assert s'.workers[0].conns[0].id == WAKE_ID;
    assert HasWakeId(run[|run| - 1]);
  }

  /** An adopted connection can carry the wake-up id exactly when there is a single worker. */
  lemma WakeIdCollidesIff(c: Config)
    requires c.n >= 1
    ensures CanCollide(c) <==> c.n == 1
  {
    if c.n == 1 {
      FirstClientCollides(c);
    } else if CanCollide(c) {
      var run :| IsRun(c, run) && HasWakeId(run[|run| - 1]);
      WakeIdIsFree(c, run, |run| - 1);
    }
  }

  // ----- a queued connection is reached without waiting for a timeout

  ghost predicate Executes(c: Config, s: State, steps: seq<Step>, s': State)
    decreases |steps|
  {
    if steps == [] then s == s'
    else Apply(c, s, steps[0]).Some? && Executes(c, Apply(c, s, steps[0]).value, steps[1..], s')
  }

  /** Own steps of a worker on its way to the head of its queue. */
  function Distance(p: Phase): nat {
    match p
    case Drain => 0
    case Top => 1
    case Holding(_) => 1
    case Dropping(_) => 1
    case Serving => 2
    case Closing(_) => 3
    case Waiting => 3
    case SeeDeadline => 4
    case SeeDraining => 5
    case PastDeadline => 1
    case Exited => 0
  }

  function Onward(i: nat, p: Phase): Step {
    match p
    case Drain => WorkerPop(i)
    case Top => WorkerTest(i)
    case Holding(_) => WorkerAdopt(i)
    case Dropping(_) => WorkerDrop(i)
    case Serving => WorkerPollEnds(i)
    case Closing(_) => WorkerDelivers(i)
    case Waiting => WorkerWakes(i, ByDatagram)
    case SeeDeadline => WorkerSeeDeadline(i)
    case SeeDraining => WorkerSeeDraining(i)
    case PastDeadline => WorkerClearRunning(i)
    case Exited => WorkerTest(i)
  }

  /** The step onward is enabled, leaves the queue alone and shortens the distance. */
  lemma OnwardAdvance(c: Config, s: State, i: nat, w: Worker)
    requires s.running && !PastDrainDeadline(s) && (w.phase.Waiting? ==> w.pipe > 0)
    requires !w.phase.PastDeadline? && !w.phase.Drain? && !w.phase.Exited?
    ensures var next := Advance(c, s, w, Onward(i, w.phase));
            && next.Some? && next.value.queue == w.queue && !next.value.phase.PastDeadline?
            && !next.value.phase.Exited? && Distance(next.value.phase) < Distance(w.phase)
    ensures !Onward(i, w.phase).WorkerClearRunning?
  {
  }

  lemma OnwardIsOwn(i: nat, p: Phase)
    ensures WorkerOf(Onward(i, p)) == Some(i)
    ensures Onward(i, p).WorkerWakes? ==> Onward(i, p).why.ByDatagram?
    ensures Distance(p) <= 5
  {
  }

  lemma AdvanceApplies(c: Config, s: State, i: nat, step: Step) returns (s': State)
    requires WorkerOf(step) == Some(i) && i < |s.workers| && Advance(c, s, s.workers[i], step).Some?
    ensures Apply(c, s, step) == Some(s') && WorkerStep(c, s, i, step) == Some(s')
  {
    hide Advance, WorkerOf, Shut, Released;
    s' := Apply(c, s, step).value;
  }

  /** A worker that may wait has a datagram in its pipe, and while the manager runs none has left its loop. */
  lemma AwakeOf(c: Config, s: State, i: nat)
    requires Inv(c, s) && i < |s.workers| && s.running && s.workers[i].queue != [] && !(s.acc.Wake? && s.acc.idx == i)
    ensures s.workers[i].phase.Waiting? ==> s.workers[i].pipe > 0
    ensures !s.workers[i].phase.Exited?
  {
    hide OneHolder, SlotsCounted, CapKept, IdsPartitioned, Flushed, Shape;
  }

  lemma OnwardStep(c: Config, s: State, i: nat) returns (s': State)
    requires i < |s.workers| && s.running && !PastDrainDeadline(s)
    requires s.workers[i].phase.Waiting? ==> s.workers[i].pipe > 0
    requires !s.workers[i].phase.PastDeadline? && !s.workers[i].phase.Drain? && !s.workers[i].phase.Exited?
    ensures Apply(c, s, Onward(i, s.workers[i].phase)) == Some(s') && |s'.workers| == |s.workers|
    ensures s'.workers[i].queue == s.workers[i].queue && s'.running && !PastDrainDeadline(s') && s'.acc == s.acc
    ensures Distance(s'.workers[i].phase) < Distance(s.workers[i].phase) && !s'.workers[i].phase.PastDeadline?
  {
    var w := s.workers[i];
    var step := Onward(i, w.phase);
    OnwardAdvance(c, s, i, w);
    OnwardIsOwn(i, w.phase);
    hide Advance, Onward, WorkerOf, Apply, WorkerStep, Distance;
    s' := AdvanceApplies(c, s, i, step);
    WorkerStepEffect(c, s, i, step, s');
  }

  lemma ExecutesMore(c: Config, s: State, step: Step, s1: State, rest: seq<Step>, s': State)
    requires Apply(c, s, step) == Some(s1) && Executes(c, s1, rest, s')
    ensures Executes(c, s, [step] + rest, s')
  {
    hide Apply;
    assert ([step] + rest)[1..] == rest;
  }

  lemma PopNow(c: Config, s: State, i: nat) returns (s': State)
    requires i < |s.workers| && s.workers[i].phase.Drain? && s.workers[i].queue != []
    ensures Apply(c, s, WorkerPop(i)) == Some(s') && WorkerOf(WorkerPop(i)) == Some(i)
    ensures i < |s'.workers| && s'.workers[i].phase == Holding(s.workers[i].queue[0])
    ensures Executes(c, s, [WorkerPop(i)], s')
  {
    s' := AdvanceApplies(c, s, i, WorkerPop(i));
    OneExecuted(c, s, WorkerPop(i), s');
    hide Apply, Executes;
    WorkerStepEffect(c, s, i, WorkerPop(i), s');
  }

  /** In a running manager whose drain deadline has not passed, the worker alone takes the head of its
      queue in at most six own steps, woken by the pipe and not by the fallback timeout. */
  lemma {:induction false} HandoffIsReached(c: Config, s: State, i: nat) returns (steps: seq<Step>, s': State)
    requires Inv(c, s) && i < |s.workers| && s.running && !PastDrainDeadline(s) && s.workers[i].queue != []
    requires !s.workers[i].phase.PastDeadline? && !(s.acc.Wake? && s.acc.idx == i)
    ensures Executes(c, s, steps, s') && 1 <= |steps| <= Distance(s.workers[i].phase) + 1 <= 6
    ensures forall k :: 0 <= k < |steps| ==> WorkerOf(steps[k]) == Some(i)
    ensures forall k :: 0 <= k < |steps| && steps[k].WorkerWakes? ==> steps[k].why.ByDatagram?
    ensures i < |s'.workers| && s'.workers[i].phase == Holding(s.workers[i].queue[0])
    decreases Distance(s.workers[i].phase)
  {
    hide *;
    var w := s.workers[i];
    OnwardIsOwn(i, w.phase);
    if w.phase.Drain? {
      steps := [WorkerPop(i)];
      s' := PopNow(c, s, i);
    } else {
      var step := Onward(i, w.phase);
      AwakeOf(c, s, i);
      var next := OnwardStep(c, s, i);
      StepKeepsInv(c, s, step, next);
      var rest;
      rest, s' := HandoffIsReached(c, next, i);
      steps := [step] + rest;
      ExecutesMore(c, s, step, next, rest, s');
    }
  }

  // ----- every schedule

  /** A bound for the own steps of a worker before it looks at its queue: the connections it can close and
      the datagrams it can read on the way count as well. */
  function Delay(w: Worker): nat {
    var serving := 2 + 2 * |w.conns| + w.pipe;
    match w.phase
    case Drain => 0
    case Top => 1
    case Dropping(_) => 1
    case Holding(_) => 2
    case Serving => serving
    case Closing(_) => serving + 1
    case Waiting => serving + 1
    case SeeDeadline => serving + 2
    case SeeDraining => serving + 3
    case PastDeadline => 0
    case Exited => 0
  }

  /** An own step that does not look at the queue leaves the queue alone and shortens the delay. */
  lemma AdvanceDelays(c: Config, s: State, w: Worker, step: Step)
    requires Advance(c, s, w, step).Some? && s.running && !PastDrainDeadline(s)
    requires !w.phase.PastDeadline? && !w.phase.Drain?
    ensures var w' := Advance(c, s, w, step).value;
            w'.queue == w.queue && Delay(w') < Delay(w) && !w'.phase.PastDeadline? && !step.WorkerClearRunning?
  {
  }

  lemma OwnStep(c: Config, s: State, i: nat, step: Step, s': State)
    requires i < |s.workers| && WorkerOf(step) == Some(i) && Apply(c, s, step) == Some(s')
    requires s.running && !PastDrainDeadline(s) && !s.workers[i].phase.PastDeadline? && !s.workers[i].phase.Drain?
    ensures i < |s'.workers| && s'.running && !PastDrainDeadline(s') && !s'.workers[i].phase.PastDeadline?
    ensures s'.workers[i].queue == s.workers[i].queue && Delay(s'.workers[i]) < Delay(s.workers[i])
  {
    hide Advance, WorkerOf, Apply, WorkerStep, Delay;
    OwnApply(c, s, i, step, s');
    WorkerStepEffect(c, s, i, step, s');
    AdvanceDelays(c, s, s.workers[i], step);
  }

  lemma OwnPop(c: Config, s: State, i: nat, step: Step, s': State)
    requires i < |s.workers| && WorkerOf(step) == Some(i) && Apply(c, s, step) == Some(s')
    requires s.workers[i].phase.Drain? && s.workers[i].queue != []
    ensures i < |s'.workers| && s'.workers[i].phase == Holding(s.workers[i].queue[0])
  {
    hide WorkerOf, Apply, WorkerStep;
    OwnApply(c, s, i, step, s');
    WorkerStepEffect(c, s, i, step, s');
  }

  /** Whatever own steps the worker takes, and in whatever order, the head of its queue is taken before their
      number exceeds the delay. */
  lemma {:induction false} HandoffByAnySchedule(c: Config, s: State, i: nat, steps: seq<Step>, s': State)
    returns (k: nat, mid: State)
    requires i < |s.workers| && s.running && !PastDrainDeadline(s) && s.workers[i].queue != []
    requires !s.workers[i].phase.PastDeadline?
    requires Executes(c, s, steps, s') && forall k :: 0 <= k < |steps| ==> WorkerOf(steps[k]) == Some(i)
    requires |steps| > Delay(s.workers[i])
    ensures 0 < k <= |steps| && k <= Delay(s.workers[i]) + 1 && Executes(c, s, steps[..k], mid)
    ensures i < |mid.workers| && mid.workers[i].phase == Holding(s.workers[i].queue[0])
    decreases |steps|
  {
    hide Apply, WorkerOf, Delay;
    var s1 := Apply(c, s, steps[0]).value;
    if s.workers[i].phase.Drain? {
      OwnPop(c, s, i, steps[0], s1);
      k, mid := 1, s1;
      OneExecuted(c, s, steps[0], s1);
      assert steps[..1] == [steps[0]];
      DelayOfDrain(s.workers[i]);
    } else {
      OwnStep(c, s, i, steps[0], s1);
      var j;
      j, mid := HandoffByAnySchedule(c, s1, i, steps[1..], s');
      k := j + 1;
      assert steps[..k][1..] == steps[1..][..j];
    }
  }

  lemma OneExecuted(c: Config, s: State, step: Step, s': State)
    requires Apply(c, s, step) == Some(s')
    ensures Executes(c, s, [step], s')
  {
    hide Apply;
    assert [step][1..] == [];
  }

  lemma DelayOfDrain(w: Worker)
    requires w.phase.Drain?
    ensures Delay(w) == 0
  {
  }
}
