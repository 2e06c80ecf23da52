/** Software timers: the deadline arithmetic of `timer_expired`, and one timer over many polls. */
module Timer {
  // ----- one deadline

  /** `timer_expired`: the next deadline, and whether the present one has passed. */
  function Expired(t: nat, period: nat, now: nat): (nat, bool) {
    var t1 := if now + period < t then 0 else t;
    var t2 := if t1 == 0 then now + period else t1;
    if t2 > now then (t2, false) else (if now - t2 > period then now + period else t2 + period, true)
  }

  /** Deadline and number of expiries after polls at the given times. */
  datatype Deadline = Deadline(expire: nat, fired: nat)

  function Polled(d: Deadline, period: nat, now: nat): Deadline {
    var (t, yes) := Expired(d.expire, period, now);
    Deadline(t, if yes then d.fired + 1 else d.fired)
  }

  function PolledAt(times: seq<nat>, period: nat): Deadline {
    if times == [] then Deadline(0, 0)
    else Polled(PolledAt(times[..|times| - 1], period), period, times[|times| - 1])
  }

  predicate Monotone(times: seq<nat>) {
    forall i, j :: 0 <= i <= j < |times| ==> times[i] <= times[j]
  }

  /** At most one period between polls. */
  predicate Close(times: seq<nat>, period: nat) {
    forall i :: 0 < i < |times| ==> times[i] <= times[i - 1] + period
  }

  /** The clock and the products that count periods. */
  lemma Next(k: nat, period: nat)
    ensures (k + 1) * period == k * period + period
  {
  }

  /** Late polls lose expiries but never add any: `k` expiries take `k` periods. */
  lemma {:induction false} NeverTooOften(times: seq<nat>, period: nat)
    requires times != [] && Monotone(times) && period > 0
    ensures var d, a, b := PolledAt(times, period), times[0], times[|times| - 1];
            && a + (d.fired + 1) * period <= d.expire && b <= d.expire <= b + period
            && d.fired * period <= b - a
    decreases |times|
  {
    var last := |times| - 1;
    if last > 0 {
      var before := times[..last];
      NeverTooOften(before, period);
      var d := PolledAt(before, period);
      assert times[last - 1] <= times[last];
      Next(d.fired, period);
      Next(d.fired + 1, period);
    } else {
      assert PolledAt(times[..0], period) == Deadline(0, 0);
    }
  }

  /** With polls at most one period apart no expiry is lost, and the deadline stays on the grid. */
  lemma {:induction false} OnTheGrid(times: seq<nat>, period: nat)
    requires times != [] && Monotone(times) && Close(times, period) && period > 0
    ensures var d, a, b := PolledAt(times, period), times[0], times[|times| - 1];
            && d.expire == a + (d.fired + 1) * period && b < d.expire
            && d.fired * period <= b - a < (d.fired + 1) * period
    decreases |times|
  {
    NeverTooOften(times, period);
    var last := |times| - 1;
    if last > 0 {
      var before := times[..last];
      OnTheGrid(before, period);
      NeverTooOften(before, period);
      assert times[last] <= times[last - 1] + period;
      Next(PolledAt(before, period).fired + 1, period);
    } else {
      assert PolledAt(times[..0], period) == Deadline(0, 0);
    }
  }

  // ----- one timer

  datatype Timer = Timer(period: nat, expire: nat, runNow: bool, repeat: bool, autoDelete: bool, called: bool)

  /** MG_TIMER_RUN_NOW, handled only once. */
  predicate AtOnce(t: Timer) { t.expire == 0 && t.runNow && !t.called }

  /** The timer after a poll, and whether its function is called. */
  function PollOne(t: Timer, now: nat): (Timer, bool) {
    var (expire, expired) := Expired(t.expire, t.period, now);
    if !AtOnce(t) && !expired then (t.(expire := expire), false)
    else (t.(expire := expire, called := true), t.repeat || !t.called)
  }

  /** A timer that is taken from the list once it has gone off. */
  predicate Goes(t: Timer, now: nat) {
    (AtOnce(t) || Expired(t.expire, t.period, now).1) && !t.repeat && t.autoDelete
  }

  /** Polls of one timer: how often its function is called. */
  function CallCount(t: Timer, times: seq<nat>): nat
    decreases |times|
  {
    if times == [] then 0
    else
      var (t', call) := PollOne(t, times[0]);
      (if call then 1 else 0) + CallCount(t', times[1..])
  }

  /** A timer that does not repeat calls its function at most once, and never after it has been called. */
  lemma {:induction false} OnceOnly(t: Timer, times: seq<nat>)
    requires !t.repeat
    ensures CallCount(t, times) <= if t.called then 0 else 1
    decreases |times|
  {
    if times != [] {
      OnceOnly(PollOne(t, times[0]).0, times[1..]);
    }
  }

  /** A repeating timer is called once for every expiry, and once more, at its first poll, with
      MG_TIMER_RUN_NOW. */
  lemma RepeatsByDeadline(t: Timer, times: seq<nat>)
    requires t.repeat && t.expire == 0
    ensures CallCount(t, times) ==
            PolledAt(times, t.period).fired + if AtOnce(t) && times != [] && t.period > 0 then 1 else 0
  {
    FromStart(times, t.period);
    if AtOnce(t) && times != [] {
      var t' := PollOne(t, times[0]).0;
      RepeatsFrom(t', times[1..], Polled(Deadline(0, 0), t.period, times[0]));
    } else if times != [] {
      RepeatsFrom(t, times, Deadline(0, 0));
    }
  }

  function PolledFrom(d: Deadline, times: seq<nat>, period: nat): Deadline
    decreases |times|
  {
    if times == [] then d else PolledFrom(Polled(d, period, times[0]), times[1..], period)
  }

  lemma {:induction false} RepeatsFrom(t: Timer, times: seq<nat>, d: Deadline)
    requires t.repeat && (t.called || !t.runNow) && t.expire == d.expire
    ensures PolledFrom(d, times, t.period).fired == d.fired + CallCount(t, times)
    decreases |times|
  {
    if times != [] {
      hide Expired;
      RepeatsFrom(PollOne(t, times[0]).0, times[1..], Polled(d, t.period, times[0]));
    }
  }

  lemma {:induction false} FromStart(times: seq<nat>, period: nat)
    ensures PolledFrom(Deadline(0, 0), times, period) == PolledAt(times, period)
    decreases |times|
  {
    if times != [] {
      var last := |times| - 1;
      FromStart(times[..last], period);
      LastPoll(Deadline(0, 0), times[..last], times[last], period);
      assert times == times[..last] + [times[last]];
    }
  }

  lemma {:induction false} LastPoll(d: Deadline, times: seq<nat>, now: nat, period: nat)
    ensures PolledFrom(d, times + [now], period) == Polled(PolledFrom(d, times, period), period, now)
    decreases |times|
  {
    hide Polled;
    if times == [] {
      assert ([] + [now])[1..] == [];
    } else {
      assert (times + [now])[1..] == times[1..] + [now];
      LastPoll(Polled(d, period, times[0]), times[1..], now, period);
    }
  }
}
