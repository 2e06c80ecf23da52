/** The list of timers, edited through its `next` fields while `timer_poll` walks it. */
module TimerList {
  import opened Chains
  import opened Timer

  type Cells = map<Block, Timer>

  ghost predicate Known(s: seq<Block>, cell: Cells) { forall k :: 0 <= k < |s| ==> s[k] in cell }

  /** No address in use is beyond those given out. */
  ghost predicate UpTo(next: Links, cell: Cells, top: Block) { forall b :: b in next || b in cell ==> b <= top }

  /** The timers of `s` that a poll leaves in the list. */
  ghost function Remaining(s: seq<Block>, cell: Cells, now: nat): seq<Block>
    requires Known(s, cell)
  {
    if s == [] then [] else (if Goes(cell[s[0]], now) then [] else [s[0]]) + Remaining(s[1..], cell, now)
  }

  /** The timers of `s` whose functions it calls. */
  ghost function Called(s: seq<Block>, cell: Cells, now: nat): seq<Block>
    requires Known(s, cell)
  {
    if s == [] then [] else (if PollOne(cell[s[0]], now).1 then [s[0]] else []) + Called(s[1..], cell, now)
  }

  /** What the functions of these timers add, one after the other. */
  function AddedBy(calls: seq<Block>, onCall: Block -> seq<Timer>): seq<Timer> {
    if calls == [] then [] else onCall(calls[0]) + AddedBy(calls[1..], onCall)
  }

  /** What `timer_init` makes of a timer: no deadline yet, the flags as they are given. */
  function Fresh(t: Timer): Timer { t.(expire := 0) }

  /** The list that adding these timers one after the other makes. */
  function Stacked(more: seq<Timer>): seq<Timer> {
    if more == [] then [] else Stacked(more[1..]) + [Fresh(more[0])]
  }

  lemma {:induction false} StackedAppend(a: seq<Timer>, b: seq<Timer>)
    ensures Stacked(a + b) == Stacked(b) + Stacked(a)
    decreases |a|
  {
    if a == [] {
      assert [] + b == b;
    } else {
      assert (a + b)[1..] == a[1..] + b;
      StackedAppend(a[1..], b);
    }
  }

  ghost function CellsOf(s: seq<Block>, cell: Cells): (r: seq<Timer>)
    requires Known(s, cell)
    ensures |r| == |s|
  {
    seq(|s|, k requires 0 <= k < |s| => cell[s[k]])
  }

  function Removed(s: seq<Block>, t: Block): seq<Block> {
    if s == [] then [] else if s[0] == t then s[1..] else [s[0]] + Removed(s[1..], t)
  }

  lemma {:induction false} RemovedIs(s: seq<Block>, k: nat)
    requires k < |s| && Distinct(s)
    ensures Removed(s, s[k]) == Without(s, k)
    decreases k
  {
    if k > 0 {
      assert s[1..][k - 1] == s[k] && Distinct(s[1..]);
      RemovedIs(s[1..], k - 1);
      assert Without(s, k) == [s[0]] + Without(s[1..], k - 1);
    }
  }

  lemma {:induction false} RemovedNone(s: seq<Block>, t: Block)
    requires t !in s
    ensures Removed(s, t) == s
  {
    if s != [] {
      RemovedNone(s[1..], t);
    }
  }

  class Timers {
    /** `*head`, and the fields of the timers in use: `next`, and the others. */
    var head: Block
    var next: Links
    var cell: Cells
    /** The highest address the allocator has given out. */
    var top: Block
    /** The timers whose functions have been called. */
    var called: seq<Block>
    /** The timers that the function of a timer adds when it is called. */
    const onCall: Block -> seq<Timer>
    ghost var list: seq<Block>

    ghost predicate Valid()
      reads this
    {
      Chain(next, head, list) && Distinct(list) && Known(list, cell) && UpTo(next, cell, top)
    }

    constructor (onCall: Block -> seq<Timer>)
      ensures Valid() && list == [] && called == [] && this.onCall == onCall
    {
      this.onCall, head, next, cell, top, called, list := onCall, 0, map[], map[], 0, [], [];
    }

    /** An allocation and `timer_init`: the new timer comes first, the others stay as they are. */
    method Add(timer: Timer) returns (t: Block)
      requires Valid()
      modifies `head, `next, `cell, `top, `list
      ensures Valid() && t !in old(list) && t == top == old(top) + 1 && list == [t] + old(list)
      ensures cell == old(cell)[t := Fresh(timer)] && next == old(next)[t := old(head)]
    {
      hide Chain, Distinct, Known, Fresh, UpTo;
      AddedSound(next, head, list, cell, top, Fresh(timer));
      t := top + 1;
      top := t;
      cell := cell[t := Fresh(timer)];
      next := next[t := head];
      head := t;
      list := [t] + list;
    }

    /** `timer_free`: the timer is cut out of the list, wherever it stands. */
    method Free(t: Block)
      requires Valid() && t != 0
      modifies `head, `next, `list
      ensures Valid() && list == Removed(old(list), t) && next.Keys == old(next).Keys
    {
      hide Chain, Distinct, Known, Removed;
      var prev, cur := 0, head;
      ghost var k: nat := 0;
      Begins(next, head, list);
      while cur != 0 && cur != t
        invariant unchanged(this) && k <= |list| && cur == BlockAt(list, k) && t !in list[..k]
        invariant (k == 0 <==> prev == 0) && (k > 0 ==> prev == list[k - 1])
        decreases |list| - k
      {
        StepsOn(next, head, list, k);
        assert list[..k + 1] == list[..k] + [list[k]];
        prev, cur, k := cur, next[cur], k + 1;
      }
      if k < |list| {
        StepsOn(next, head, list, k);
      }
      CutAt(next, head, list, t, k);
      StillKnown(list, Removed(list, t), cell);
      if cur != 0 {
        if prev == 0 {
          head := next[t];
        } else {
          next := next[prev := next[t]];
        }
      }
      list := Removed(list, t);
    }

    /** What the function of a timer does to the list: it adds timers. */
    method Call(t: Block) returns (ghost more: seq<Block>)
      requires Valid()
      modifies this
      ensures Valid() && list == more + old(list) && called == old(called) + [t]
      ensures Grown(old(cell), old(next), old(top), cell, next, top, more) && CellsOf(more, cell) == Stacked(onCall(t))
    {
      hide Chain, Distinct, Fresh, Stacked, CellsOf, Known, Grown, UpTo;
      called := called + [t];
      var timers := onCall(t);
      more := [];
      var i := 0;
      NothingAdded(timers, cell);
      NotGrown(cell, next, top);
      assert [] + list == list;
      while i < |timers|
        invariant i <= |timers| && Valid() && list == more + old(list) && called == old(called) + [t]
        invariant Grown(old(cell), old(next), old(top), cell, next, top, more) && Known(more, cell)
                  && CellsOf(more, cell) == Stacked(timers[..i])
      {
        GrownMore(old(cell), old(next), old(top), cell, next, top, more, Fresh(timers[i]), head);
        OneAdded(timers, i, more, cell, top + 1);
        var b := Add(timers[i]);
        assert [b] + (more + old(list)) == ([b] + more) + old(list);
        more := [b] + more;
        i := i + 1;
      }
      assert timers[..i] == timers;
    }

    /** `mem_free`. */
    method Release(t: Block)
      requires Valid() && t !in list
      modifies `next, `cell
      ensures Valid() && cell == old(cell) - {t} && next == old(next) - {t}
    {
      ChainKept(next, next - {t}, head, list);
      next, cell := next - {t}, cell - {t};
    }

    /** The fields of a timer in the list, changed in place. */
    method Store(t: Block, c: Timer)
      requires Valid() && t in list
      modifies `cell
      ensures Valid() && cell == old(cell)[t := c]
    {
      cell := cell[t := c];
    }

    /** The call, if it is due, and MG_TIMER_CALLED. */
    method GoOff(t: Block, c: Timer) returns (ghost more: seq<Block>)
      requires Valid() && t in list && t in cell && cell[t] == c
      modifies this
      ensures Valid() && list == more + old(list) && t in cell && cell[t] == c.(called := true)
      ensures called == old(called) + (if c.repeat || !c.called then [t] else [])
      ensures OthersKept(old(cell), old(next), old(top), cell, next, top, t) && (t in next <==> t in old(next))
      ensures Added(more, old(top), t) && Known(more, cell)
      ensures CellsOf(more, cell) == Stacked(if c.repeat || !c.called then onCall(t) else [])
    {
      hide Chain, Distinct, Stacked, CellsOf;
      TopOf(list, cell, top, t);
      more := [];
      NothingAdded(onCall(t), cell);
      assert onCall(t)[..0] == [];
      if c.repeat || !c.called {
        more := Call(t);
      }
      ghost var cells := cell;
      Store(t, c.(called := true));
      CellsKept(more, cells, cell);
    }

    /** Taken from the list and freed. */
    method Drop(t: Block)
      requires Valid() && t in list
      modifies `head, `next, `cell, `list
      ensures Valid() && list == Removed(old(list), t) && t !in cell && t !in next
      ensures OthersKept(old(cell), old(next), top, cell, next, top, t)
    {
      Gone(next, head, list, t);
      hide Chain, Distinct, Known, Removed;
      Free(t);
      Release(t);
    }

    /** The first of the timers in `rest` still to be visited; `newer` have been added during the walk, `done`
        have been visited and stay. */
    method Visit(t: Block, now: nat, ghost newer: seq<Block>, ghost done: seq<Block>, ghost rest: seq<Block>)
      returns (tmp: Block, ghost more: seq<Block>)
      requires Valid() && list == newer + (done + rest) && rest != [] && t == rest[0]
      modifies this
      ensures Valid() && t in old(cell) && tmp == BlockAt(rest, 1)
      ensures list == (more + newer) + ((done + if Goes(old(cell)[t], now) then [] else [t]) + rest[1..])
      ensures called == old(called) + if PollOne(old(cell)[t], now).1 then [t] else []
      ensures OthersKept(old(cell), old(next), old(top), cell, next, top, t) && Added(more, old(top), t)
              && Known(more, cell)
      ensures CellsOf(more, cell) == Stacked(if PollOne(old(cell)[t], now).1 then onCall(t) else [])
      ensures if Goes(old(cell)[t], now) then t !in cell && t !in next
              else t in cell && cell[t] == PollOne(old(cell)[t], now).0
    {
      hide Expired, PollOne, Goes, AtOnce, Chain, Distinct, Known, CellsOf, Stacked, Removed, Grown;
      Standing(next, head, list, cell, newer, done, rest);
      var c := cell[t];
      var once := AtOnce(c);
      var (expire, expired) := Expired(c.expire, c.period, now);
      PolledIs(c, now);
      tmp := next[t];
      TopOf(list, cell, top, t);
      Store(t, c.(expire := expire));
      if !once && !expired {
        more := [];
        NothingAdded(onCall(t), cell);
        StaysThere(list, newer, done, rest);
      } else {
        more := Fire(t, cell[t], newer, done, rest);
      }
    }

    /** A timer that goes off. */
    method Fire(t: Block, c: Timer, ghost newer: seq<Block>, ghost done: seq<Block>, ghost rest: seq<Block>)
      returns (ghost more: seq<Block>)
      requires Valid() && list == newer + (done + rest) && rest != [] && t == rest[0] && t in list
      requires t in cell && cell[t] == c
      modifies this
      ensures Valid() && list == (more + newer) + ((done + if !c.repeat && c.autoDelete then [] else [t]) + rest[1..])
      ensures called == old(called) + if c.repeat || !c.called then [t] else []
      ensures OthersKept(old(cell), old(next), old(top), cell, next, top, t) && Added(more, old(top), t)
              && Known(more, cell)
      ensures CellsOf(more, cell) == Stacked(if c.repeat || !c.called then onCall(t) else [])
      ensures if !c.repeat && c.autoDelete then t !in cell && t !in next else t in cell && cell[t] == c.(called := true)
    {
      hide Chain, Distinct, CellsOf, Stacked, Removed, Grown;
      more := GoOff(t, c);
      if !c.repeat && c.autoDelete {
        MiddleRemoved(list, more, newer, done, rest);
        ghost var cells := cell;
        Drop(t);
        CellsKept(more, cells, cell);
      } else {
        StaysThere(list, more + newer, done, rest);
      }
    }

    /** `timer_poll`: the walk from `head` along `next`, while timers are cut out and others are added. */
    method Poll(now: nat) returns (ghost newer: seq<Block>)
      requires Valid()
      modifies this
      ensures Valid() && Known(old(list), old(cell))
      ensures list == newer + Remaining(old(list), old(cell), now)
      ensures called == old(called) + Called(old(list), old(cell), now)
      ensures Known(newer, cell) && CellsOf(newer, cell) == Stacked(AddedBy(Called(old(list), old(cell), now), onCall))
      ensures Left(old(list), old(cell), now, cell, next) && forall k :: 0 <= k < |newer| ==> newer[k] !in old(cell)
    {
      hide Chain, Distinct, Known, CellsOf, Stacked, AddedBy, Remaining, Called, Left, OthersKept, Untouched;
      hide Goes, PollOne, Removed, Added;
      ghost var start, cell0, called0, top0 := list, cell, called, top;
      ghost var done, rest, seen := [], list, [];
      newer := [];
      Begins(next, head, list);
      WalkBegins(list, cell, next, now, onCall);
      var t := head;
      while t != 0
        invariant Valid() && list == newer + (done + rest) && t == BlockAt(rest, 0)
        invariant Walked(start, seen, rest, cell0, now, cell, next, top0, top, newer)
        invariant Known(start, cell0) && Known(rest, cell0) && Known(newer, cell)
        invariant done + Remaining(rest, cell0, now) == Remaining(start, cell0, now)
        invariant called + Called(rest, cell0, now) == called0 + Called(start, cell0, now)
        invariant Stacked(AddedBy(Called(rest, cell0, now), onCall)) + CellsOf(newer, cell) ==
                  Stacked(AddedBy(Called(start, cell0, now), onCall))
        decreases |rest|
      {
        OneVisit(rest, cell0, now, onCall);
        ghost var cells, links, highest := cell, next, top;
        WalkedHere(start, seen, rest, cell0, now, cell, next, top0, top, newer, list);
        var tmp;
        ghost var more;
        tmp, more := Visit(t, now, newer, done, rest);
        WalkedOn(start, seen, rest, cell0, now, cells, links, top0, highest, newer, cell, next, top, more);
        CellsJoined(more, newer, cells, cell);
        done, seen, newer := done + (if Goes(cell0[t], now) then [] else [t]), seen + [t], more + newer;
        rest := rest[1..];
        t := tmp;
      }
      NullEnds(next, head, list, newer, done, rest);
      WalkEnds(start, seen, rest, cell0, now, cell, next, top0, top, newer, done, onCall);
    }
  }

  /** What adding the timers `more` does to the memory. */
  ghost predicate Grown(cell0: Cells, next0: Links, top0: Block, cell: Cells, next: Links, top: Block,
                        more: seq<Block>) {
    && top0 <= top && (forall k :: 0 <= k < |more| ==> top0 < more[k] <= top && more[k] in cell)
    && (forall b :: b <= top0 ==> (b in cell <==> b in cell0) && (b in next <==> b in next0))
    && (forall b :: b <= top0 && b in cell ==> cell[b] == cell0[b])
  }

  lemma NotGrown(cell: Cells, next: Links, top: Block)
    ensures Grown(cell, next, top, cell, next, top, [])
  {
  }

  lemma GrownMore(cell0: Cells, next0: Links, top0: Block, cell: Cells, next: Links, top: Block, more: seq<Block>,
                  c: Timer, n: Block)
    requires Grown(cell0, next0, top0, cell, next, top, more)
    ensures Grown(cell0, next0, top0, cell[top + 1 := c], next[top + 1 := n], top + 1, [top + 1] + more)
    ensures top + 1 !in more
  {
  }

  /** The list with a new timer in front. */
  lemma AddedSound(next: Links, head: Block, list: seq<Block>, cell: Cells, top: Block, c: Timer)
    requires Chain(next, head, list) && Distinct(list) && Known(list, cell) && UpTo(next, cell, top)
    ensures var t: Block := top + 1;
            && t !in list && Chain(next[t := head], t, [t] + list) && Distinct([t] + list)
            && Known([t] + list, cell[t := c]) && UpTo(next[t := head], cell[t := c], t)
  {
    InUse(next, head, list, top);
    ChainGrown(next, head, list, top + 1);
    hide Chain;
  }

  /** Everything but `t` is as it was, apart from timers allocated since. */
  ghost predicate OthersKept(cell0: Cells, next0: Links, top0: Block, cell: Cells, next: Links, top: Block, t: Block) {
    && top0 <= top && (forall b :: b <= top0 && b != t ==> (b in cell <==> b in cell0) && (b in next <==> b in next0))
    && (forall b :: b <= top0 && b != t && b in cell ==> cell[b] == cell0[b])
  }

  /** The timers of `s` have been polled: changed in place, or taken out and freed. */
  ghost predicate Left(s: seq<Block>, cell0: Cells, now: nat, cell: Cells, next: Links) {
    && Known(s, cell0)
    && forall k :: 0 <= k < |s| ==>
         if Goes(cell0[s[k]], now) then s[k] !in cell && s[k] !in next
         else s[k] in cell && cell[s[k]] == PollOne(cell0[s[k]], now).0
  }

  ghost predicate Untouched(s: seq<Block>, cell0: Cells, cell: Cells) {
    forall k :: 0 <= k < |s| ==> s[k] in cell0 && s[k] in cell && cell[s[k]] == cell0[s[k]]
  }

  /** How far the walk has come: `seen` have been polled, `rest` not, `newer` have been allocated since. */
  ghost predicate Walked(start: seq<Block>, seen: seq<Block>, rest: seq<Block>, cell0: Cells, now: nat, cell: Cells,
                         next: Links, top0: Block, top: Block, newer: seq<Block>) {
    && start == seen + rest && Distinct(start) && top0 <= top && (forall b :: b in cell0 ==> b <= top0)
    && Untouched(rest, cell0, cell) && Left(seen, cell0, now, cell, next)
    && (forall k :: 0 <= k < |newer| ==> top0 < newer[k] <= top)
  }

  lemma WalkBegins(list: seq<Block>, cell: Cells, next: Links, now: nat, onCall: Block -> seq<Timer>)
    requires Known(list, cell)
    ensures Known([], cell) && CellsOf([], cell) == []
    ensures Untouched(list, cell, cell) && Left([], cell, now, cell, next) && list == [] + ([] + list) == [] + list
  {
  }

  /** What one timer contributes. */
  lemma OneVisit(rest: seq<Block>, cell0: Cells, now: nat, onCall: Block -> seq<Timer>)
    requires Known(rest, cell0) && BlockAt(rest, 0) != 0
    ensures rest != [] && rest[0] in cell0 && Known(rest[1..], cell0) && BlockAt(rest, 1) == BlockAt(rest[1..], 0)
    ensures var t, more := rest[0], rest[1..];
            && Remaining(rest, cell0, now) == (if Goes(cell0[t], now) then [] else [t]) + Remaining(more, cell0, now)
            && Called(rest, cell0, now) == (if PollOne(cell0[t], now).1 then [t] else []) + Called(more, cell0, now)
            && Stacked(AddedBy(Called(rest, cell0, now), onCall)) ==
               Stacked(AddedBy(Called(more, cell0, now), onCall)) +
               Stacked(if PollOne(cell0[t], now).1 then onCall(t) else [])
  {
    hide Goes, PollOne;
    var t, more := rest[0], rest[1..];
    var calls := Called(more, cell0, now);
    if PollOne(cell0[t], now).1 {
      assert ([t] + calls)[1..] == calls;
      StackedAppend(onCall(t), AddedBy(calls, onCall));
    } else {
      assert [] + calls == calls;
      assert Stacked([]) == [];
    }
  }

  lemma WalkedHere(start: seq<Block>, seen: seq<Block>, rest: seq<Block>, cell0: Cells, now: nat, cell: Cells,
                   next: Links, top0: Block, top: Block, newer: seq<Block>, list: seq<Block>)
    requires Walked(start, seen, rest, cell0, now, cell, next, top0, top, newer) && rest != []
    ensures rest[0] in cell && rest[0] in cell0 && cell[rest[0]] == cell0[rest[0]]
  {
  }

  lemma WalkedOn(start: seq<Block>, seen: seq<Block>, rest: seq<Block>, cell0: Cells, now: nat, cell: Cells,
                 next: Links, top0: Block, top: Block, newer: seq<Block>, cell': Cells, next': Links, top': Block,
                 more: seq<Block>)
    requires Walked(start, seen, rest, cell0, now, cell, next, top0, top, newer) && rest != [] && Known(newer, cell)
    requires OthersKept(cell, next, top, cell', next', top', rest[0]) && Added(more, top, rest[0]) && Known(more, cell')
    requires forall b :: b in cell' ==> b <= top'
    requires rest[0] in cell && if Goes(cell[rest[0]], now) then rest[0] !in cell' && rest[0] !in next'
             else rest[0] in cell' && cell'[rest[0]] == PollOne(cell[rest[0]], now).0
    ensures Walked(start, seen + [rest[0]], rest[1..], cell0, now, cell', next', top0, top', more + newer)
    ensures forall k :: 0 <= k < |newer| ==> newer[k] in cell' && cell'[newer[k]] == cell[newer[k]]
  {
    hide Goes, PollOne;
    var t := rest[0];
    var i := |seen|;
    assert start == (seen + [t]) + rest[1..] && start[i] == t;
    assert forall k :: 0 <= k < i ==> seen[k] == start[k];
    assert forall k :: 0 <= k < |rest| ==> rest[k] == start[i + k];
  }

  lemma CellsJoined(more: seq<Block>, newer: seq<Block>, cell: Cells, cell': Cells)
    requires Known(more, cell') && Known(newer, cell)
    requires forall k :: 0 <= k < |newer| ==> newer[k] in cell' && cell'[newer[k]] == cell[newer[k]]
    ensures Known(more + newer, cell') && CellsOf(more + newer, cell') == CellsOf(more, cell') + CellsOf(newer, cell)
  {
  }

  /** Only behind the last timer the walk meets the null pointer. */
  lemma NullEnds(next: Links, head: Block, list: seq<Block>, newer: seq<Block>, done: seq<Block>, rest: seq<Block>)
    requires Chain(next, head, list) && list == newer + (done + rest)
    ensures rest != [] ==> BlockAt(rest, 0) != 0
  {
    if rest != [] {
      assert list[|newer| + |done|] == rest[0];
    }
  }

  lemma WalkEnds(start: seq<Block>, seen: seq<Block>, rest: seq<Block>, cell0: Cells, now: nat, cell: Cells,
                 next: Links, top0: Block, top: Block, newer: seq<Block>, done: seq<Block>, onCall: Block -> seq<Timer>)
    requires Walked(start, seen, rest, cell0, now, cell, next, top0, top, newer) && rest == []
    ensures start == seen && Left(start, cell0, now, cell, next) && forall k :: 0 <= k < |newer| ==> newer[k] !in cell0
    ensures Remaining(rest, cell0, now) == [] && Called(rest, cell0, now) == [] && Stacked(AddedBy([], onCall)) == []
  {
    assert seen + [] == seen;
  }

  function BlockAt(s: seq<Block>, k: nat): Block { if k < |s| then s[k] else 0 }

  lemma Begins(next: Links, head: Block, list: seq<Block>)
    requires Chain(next, head, list)
    ensures head == BlockAt(list, 0) && list[..0] == []
  {
  }

  lemma StepsOn(next: Links, head: Block, list: seq<Block>, k: nat)
    requires Chain(next, head, list) && k < |list|
    ensures list[k] != 0 && list[k] in next && next[list[k]] == BlockAt(list, k + 1)
  {
    assert next[list[k]] == After(list, k);
  }

  ghost predicate Added(more: seq<Block>, top0: Block, t: Block) {
    t <= top0 && forall k :: 0 <= k < |more| ==> top0 < more[k]
  }

  lemma TopOf(list: seq<Block>, cell: Cells, top: Block, t: Block)
    requires t in cell && forall b :: b in cell ==> b <= top
    ensures t <= top
  {
  }

  lemma CellsKept(s: seq<Block>, cell: Cells, cell': Cells)
    requires Known(s, cell) && forall k :: 0 <= k < |s| ==> s[k] in cell' && cell'[s[k]] == cell[s[k]]
    ensures Known(s, cell') && CellsOf(s, cell') == CellsOf(s, cell)
  {
  }

  lemma Gone(next: Links, head: Block, list: seq<Block>, t: Block)
    requires Chain(next, head, list) && Distinct(list) && t in list
    ensures t != 0 && t !in Removed(list, t)
  {
    hide Removed;
    var k :| 0 <= k < |list| && list[k] == t;
    RemovedIs(list, k);
    NotLeft(list, k);
  }

  lemma NotLeft(list: seq<Block>, k: nat)
    requires k < |list| && Distinct(list)
    ensures list[k] !in Without(list, k)
  {
    var r := Without(list, k);
    assert forall j :: 0 <= j < |r| ==> r[j] == list[if j < k then j else j + 1];
  }

  /** The timer about to be visited, in the list, with the next one behind it. */
  lemma Standing(next: Links, head: Block, list: seq<Block>, cell: Cells, newer: seq<Block>, done: seq<Block>,
                 rest: seq<Block>)
    requires Chain(next, head, list) && Known(list, cell) && list == newer + (done + rest) && rest != []
    ensures rest[0] in list && rest[0] in cell && rest[0] in next && next[rest[0]] == BlockAt(rest, 1)
  {
    var k := |newer| + |done|;
    assert list[k] == rest[0];
    StepsOn(next, head, list, k);
  }

  /** One poll of a timer in the order of the code. */
  lemma PolledIs(c: Timer, now: nat)
    ensures var (expire, expired) := Expired(c.expire, c.period, now);
            var (c', call) := PollOne(c, now);
            && (!AtOnce(c) && !expired ==> c' == c.(expire := expire) && !call && !Goes(c, now))
            && (AtOnce(c) || expired ==>
                  && c' == c.(expire := expire, called := true) && call == (c.repeat || !c.called)
                  && Goes(c, now) == (!c.repeat && c.autoDelete))
  {
    hide Expired;
  }

  lemma StaysThere(list: seq<Block>, newer: seq<Block>, done: seq<Block>, rest: seq<Block>)
    requires rest != []
    ensures newer + (done + rest) == newer + ((done + [rest[0]]) + rest[1..])
    ensures list == newer + (done + rest) ==> list == ([] + newer) + ((done + [rest[0]]) + rest[1..])
  {
    assert rest == [rest[0]] + rest[1..];
  }

  lemma MiddleRemoved(list: seq<Block>, more: seq<Block>, newer: seq<Block>, done: seq<Block>, rest: seq<Block>)
    requires rest != [] && list == more + (newer + (done + rest)) && Distinct(list)
    ensures rest[0] in list && Removed(list, rest[0]) == (more + newer) + ((done + []) + rest[1..])
    ensures forall k :: 0 <= k < |more| ==> more[k] != rest[0]
  {
    var k := |more| + |newer| + |done|;
    assert list[k] == rest[0];
    RemovedIs(list, k);
    assert Without(list, k) == (more + newer) + (done + rest[1..]);
    assert done + [] == done;
    assert forall i :: 0 <= i < |more| ==> more[i] == list[i];
  }

  lemma NothingAdded(timers: seq<Timer>, cell: Cells)
    ensures Known([], cell) && CellsOf([], cell) == Stacked(timers[..0]) == Stacked([])
  {
    assert timers[..0] == [];
  }

  lemma OneAdded(timers: seq<Timer>, i: nat, more: seq<Block>, cell: Cells, b: Block)
    requires i < |timers| && Known(more, cell) && CellsOf(more, cell) == Stacked(timers[..i]) && b !in more
    ensures var cell' := cell[b := Fresh(timers[i])];
            Known([b] + more, cell') && CellsOf([b] + more, cell') == Stacked(timers[..i + 1])
  {
    hide Fresh;
    var cell' := cell[b := Fresh(timers[i])];
    assert timers[..i + 1] == timers[..i] + [timers[i]];
    StackedAppend(timers[..i], [timers[i]]);
    assert Stacked([timers[i]]) == [Fresh(timers[i])] by { assert [timers[i]][1..] == []; }
    assert CellsOf([b] + more, cell') == [Fresh(timers[i])] + CellsOf(more, cell);
  }

  lemma StillKnown(s: seq<Block>, r: seq<Block>, cell: Cells)
    requires Known(s, cell) && forall x :: x in r ==> x in s
    ensures Known(r, cell)
  {
    forall k | 0 <= k < |r|
      ensures r[k] in cell
    {
      assert r[k] in s;
    }
  }

  /** No timer in the list has an address beyond those given out. */
  lemma InUse(next: Links, head: Block, list: seq<Block>, top: Block)
    requires Chain(next, head, list) && forall b :: b in next ==> b <= top
    ensures top + 1 !in list
  {
  }

  lemma CutAt(next: Links, head: Block, list: seq<Block>, t: Block, k: nat)
    requires Chain(next, head, list) && Distinct(list) && k <= |list| && t !in list[..k]
             && (k < |list| ==> list[k] == t)
    ensures var r := Removed(list, t);
            && Distinct(r) && (forall x :: x in r ==> x in list)
            && (k == |list| ==> r == list)
            && (k < |list| ==> t in next && (k == 0 ==> Chain(next, next[t], r)))
            && (0 < k < |list| ==> list[k - 1] in next && Chain(next[list[k - 1] := next[t]], head, r))
  {
    hide Removed;
    if k == |list| {
      assert list[..k] == list;
      RemovedNone(list, t);
    } else {
      RemovedIs(list, k);
      if k == 0 {
        ChainTail(next, head, list);
        assert Without(list, 0) == list[1..];
      } else {
        ChainCut(next, head, list, k);
      }
    }
  }

  // ----- what a poll keeps

  /** Places of `r` in `s`, in the same order. */
  ghost predicate InOrder(r: seq<Block>, s: seq<Block>, places: seq<nat>) {
    && |places| == |r| && (forall k :: 0 <= k < |r| ==> places[k] < |s| && r[k] == s[places[k]])
    && (forall i, j :: 0 <= i < j < |r| ==> places[i] < places[j])
  }

  lemma InOrderMore(r: seq<Block>, s: seq<Block>, before: seq<nat>, stays: bool) returns (places: seq<nat>)
    requires s != [] && InOrder(r, s[1..], before)
    ensures InOrder((if stays then [s[0]] else []) + r, s, places)
  {
    places := (if stays then [0] else []) + seq(|before|, k requires 0 <= k < |before| => before[k] + 1);
  }

  /** A poll takes out exactly the timers that are done for good; the others keep their order. */
  lemma {:induction false} OrderKept(s: seq<Block>, cell: Cells, now: nat) returns (places: seq<nat>)
    requires Known(s, cell) && Distinct(s)
    ensures InOrder(Remaining(s, cell, now), s, places)
    ensures forall k :: 0 <= k < |s| ==> (s[k] in Remaining(s, cell, now) <==> !Goes(cell[s[k]], now))
    decreases |s|
  {
    hide Goes, InOrder;
    if s == [] {
      places := [];
      NoneInOrder();
    } else {
      var rest := s[1..];
      assert Distinct(rest) && Known(rest, cell) by { assert forall k :: 0 <= k < |rest| ==> rest[k] == s[k + 1]; }
      var before := OrderKept(rest, cell, now);
      places := InOrderMore(Remaining(rest, cell, now), s, before, !Goes(cell[s[0]], now));
      RemainingIn(rest, cell, now);
      forall k | 0 <= k < |s|
        ensures s[k] in Remaining(s, cell, now) <==> !Goes(cell[s[k]], now)
      {
        if k > 0 {
          assert s[k] == rest[k - 1] && s[k] != s[0];
        } else {
          assert s[0] !in rest;
        }
      }
    }
  }

  lemma NoneInOrder()
    ensures InOrder([], [], [])
  {
  }

  lemma {:induction false} RemainingIn(s: seq<Block>, cell: Cells, now: nat)
    requires Known(s, cell)
    ensures forall x :: x in Remaining(s, cell, now) ==> x in s
    decreases |s|
  {
    if s != [] {
      RemainingIn(s[1..], cell, now);
    }
  }
}
