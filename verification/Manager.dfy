/** The connections of one manager: the intrusive list and the pool of recycled blocks, which share the
    `next` field of every block, and the counters kept beside them. */
module Manager {
  import opened Chains

  const POOL_MAX: nat := 64

  /** What a connection is known by. */
  datatype Info = Info(id: nat, accepted: bool, closing: bool)

  /** How many connections of a list have been accepted. */
  ghost function CountAccepted(s: seq<Block>, info: map<Block, Info>): nat
    requires forall k :: 0 <= k < |s| ==> s[k] in info
  {
    if s == [] then 0 else (if info[s[0]].accepted then 1 else 0) + CountAccepted(s[1..], info)
  }

  lemma {:induction false} CountWithout(s: seq<Block>, info: map<Block, Info>, k: nat)
    requires k < |s| && forall k :: 0 <= k < |s| ==> s[k] in info
    ensures CountAccepted(s, info) == CountAccepted(Without(s, k), info) + if info[s[k]].accepted then 1 else 0
  {
    if k == 0 {
      assert Without(s, 0) == s[1..];
    } else {
      CountWithout(s[1..], info, k - 1);
      assert Without(s, k)[1..] == Without(s[1..], k - 1);
    }
  }

  lemma {:induction false} CountSame(s: seq<Block>, info: map<Block, Info>, info': map<Block, Info>)
    requires forall k :: 0 <= k < |s| ==> s[k] in info && s[k] in info' && info'[s[k]].accepted == info[s[k]].accepted
    ensures CountAccepted(s, info') == CountAccepted(s, info)
  {
    if s != [] {
      CountSame(s[1..], info, info');
    }
  }

  // ----- the two lists

  /** Both chains are sound and share no block. */
  ghost predicate Linked(next: Links, conns: Block, pool: Block, poolSize: nat, list: seq<Block>, free: seq<Block>) {
    && Chain(next, conns, list) && Chain(next, pool, free) && Distinct(list) && Distinct(free) && Apart(list, free)
    && poolSize == |free| <= POOL_MAX
  }

  ghost predicate Unused(c: Block, list: seq<Block>, free: seq<Block>) {
    c != 0 && c !in list && c !in free
  }

  lemma LinkedFresh(next: Links, conns: Block, pool: Block, size: nat, list: seq<Block>, free: seq<Block>, c: Block,
                    v: Block)
    requires Linked(next, conns, pool, size, list, free) && Unused(c, list, free)
    ensures Linked(next[c := v], conns, pool, size, list, free)
  {
    ChainKept(next, next[c := v], conns, list);
    ChainKept(next, next[c := v], pool, free);
  }

  lemma LinkedTake(next: Links, conns: Block, pool: Block, size: nat, list: seq<Block>, free: seq<Block>)
    requires Linked(next, conns, pool, size, list, free) && pool != 0
    ensures free != [] && pool in next && Linked(next, conns, next[pool], size - 1, list, free[1..])
    ensures Unused(pool, list, free[1..])
  {
    ChainTail(next, pool, free);
    assert forall k :: 0 <= k < |free[1..]| ==> free[1..][k] == free[k + 1];
  }

  lemma LinkedAdd(next: Links, conns: Block, pool: Block, size: nat, list: seq<Block>, free: seq<Block>, c: Block)
    requires Linked(next, conns, pool, size, list, free) && Unused(c, list, free)
    ensures Linked(next[c := conns], c, pool, size, [c] + list, free)
  {
    ChainGrown(next, conns, list, c);
    ChainKept(next, next[c := conns], pool, free);
  }

  lemma LinkedRecycle(next: Links, conns: Block, pool: Block, size: nat, list: seq<Block>, free: seq<Block>, c: Block)
    requires Linked(next, conns, pool, size, list, free) && Unused(c, list, free) && size < POOL_MAX
    ensures Linked(next[c := pool], conns, c, size + 1, list, [c] + free)
  {
    ChainGrown(next, pool, free, c);
    ChainKept(next, next[c := pool], conns, list);
  }

  lemma WithoutKeeps(s: seq<Block>, free: seq<Block>, k: nat)
    requires Distinct(s) && Apart(s, free) && k < |s|
    ensures Distinct(Without(s, k)) && Apart(Without(s, k), free) && s[k] !in Without(s, k) && s[k] !in free
  {
    var t := Without(s, k);
    forall i | 0 <= i < |t|
      ensures t[i] == s[if i < k then i else i + 1]
    {
    }
  }

  lemma ChainBegins(next: Links, head: Block, s: seq<Block>, k: nat)
    requires Chain(next, head, s) && Distinct(s) && k < |s|
    ensures s[k] in next && s[k] != 0 && head == s[0] && (k > 0 ==> head != s[k] && s[k - 1] in next)
  {
  }

  /** Changing a link of one chain leaves the other chain alone. */
  lemma OtherLinks(next: Links, pool: Block, s: seq<Block>, free: seq<Block>, k: nat, v: Block)
    requires Chain(next, pool, free) && Apart(s, free) && k < |s|
    ensures Chain(next[s[k] := v], pool, free)
  {
    ChainKept(next, next[s[k] := v], pool, free);
  }

  lemma LinkedCut(next: Links, conns: Block, pool: Block, size: nat, list: seq<Block>, free: seq<Block>, k: nat)
    requires Linked(next, conns, pool, size, list, free) && k < |list|
    ensures list[k] in next && Unused(list[k], Without(list, k), free)
    ensures k == 0 ==> conns == list[0] && Linked(next, next[list[0]], pool, size, Without(list, 0), free)
    ensures k > 0 ==>
              conns != list[k] && Linked(next[list[k - 1] := next[list[k]]], conns, pool, size, Without(list, k), free)
  {
    WithoutKeeps(list, free, k);
    ChainBegins(next, conns, list, k);
    if k == 0 {
      hide Chain, Distinct, Apart;
      ChainTail(next, conns, list);
      assert Without(list, 0) == list[1..];
    } else {
      OtherLinks(next, pool, list, free, k - 1, next[list[k]]);
      ChainCut(next, conns, list, k);
    }
  }

  // ----- the counters

  /** `begun` and `closed` are the connections that have been sent MG_EV_OPEN and MG_EV_CLOSE. */
  datatype Counters = Counters(
    nextId: nat, numAccepted: nat, statAccepted: nat, statClosed: nat, begun: seq<nat>, closed: seq<nat>)

  ghost predicate AllKnown(s: seq<Block>, info: map<Block, Info>) {
    forall k :: 0 <= k < |s| ==> s[k] in info
  }

  ghost function Ids(s: seq<Block>, info: map<Block, Info>): (ids: seq<nat>)
    requires AllKnown(s, info)
    ensures |ids| == |s|
  {
    seq(|s|, k requires 0 <= k < |s| => info[s[k]].id)
  }

  ghost predicate UpTo(ids: seq<nat>, last: nat) {
    forall k :: 0 <= k < |ids| ==> ids[k] <= last
  }

  /** The counters agree with the list, and the connections begun are, each of them once, those in
      the list and those closed. */
  ghost predicate Accounts(list: seq<Block>, info: map<Block, Info>, n: Counters) {
    && AllKnown(list, info) && Distinct(n.begun) && UpTo(n.begun, n.nextId)
    && multiset(n.begun) == multiset(Ids(list, info)) + multiset(n.closed)
    && n.numAccepted == CountAccepted(list, info) && n.numAccepted + n.statClosed == n.statAccepted
  }

  /** What adopting a connection does to the counters. */
  function Opened(n: Counters, stride: nat, accepted: bool): Counters {
    var one := if accepted then 1 else 0;
    n.(nextId := n.nextId + stride, numAccepted := n.numAccepted + one, statAccepted := n.statAccepted + one,
       begun := n.begun + [n.nextId + stride])
  }

  lemma BegunMore(ids: seq<nat>, last: nat, id: nat)
    requires Distinct(ids) && UpTo(ids, last) && id > last
    ensures Distinct(ids + [id]) && UpTo(ids + [id], id)
  {
  }

  lemma ListedMore(list: seq<Block>, info: map<Block, Info>, c: Block, i: Info)
    requires AllKnown(list, info) && c !in list
    ensures AllKnown([c] + list, info[c := i]) && Ids([c] + list, info[c := i]) == [i.id] + Ids(list, info)
    ensures CountAccepted([c] + list, info[c := i]) == CountAccepted(list, info) + if i.accepted then 1 else 0
  {
    var info', t := info[c := i], [c] + list;
    assert t[1..] == list;
    forall k | 0 <= k < |list|
      ensures list[k] in info' && info'[list[k]] == info[list[k]] && t[k + 1] == list[k]
    {
      assert list[k] in list;
    }
    CountSame(list, info, info');
    assert forall k :: 0 < k < |t| ==> t[k] == list[k - 1];
  }

  lemma AccountsAdd(list: seq<Block>, info: map<Block, Info>, n: Counters, c: Block, stride: nat, accepted: bool)
    requires Accounts(list, info, n) && c !in list && stride > 0
    ensures Accounts([c] + list, info[c := Info(n.nextId + stride, accepted, false)], Opened(n, stride, accepted))
  {
    hide Distinct, UpTo, AllKnown, Ids, CountAccepted;
    var id := n.nextId + stride;
    ListedMore(list, info, c, Info(id, accepted, false));
    BegunMore(n.begun, n.nextId, id);
  }

  lemma MultisetWithout<T>(s: seq<T>, k: nat)
    requires k < |s|
    ensures multiset(s) == multiset(Without(s, k)) + multiset{s[k]}
  {
    assert s == s[..k] + ([s[k]] + s[k + 1..]);
  }

  /** What `close_conn` does to the counters. */
  function Closed(n: Counters, i: Info): (n': Counters)
    ensures n'.numAccepted <= n.numAccepted
  {
    var one := if i.accepted then 1 else 0;
    n.(numAccepted := if i.accepted && n.numAccepted > 0 then n.numAccepted - 1 else n.numAccepted,
       statClosed := n.statClosed + one, closed := n.closed + [i.id])
  }

  lemma AccountsRemove(list: seq<Block>, info: map<Block, Info>, n: Counters, k: nat)
    requires Accounts(list, info, n) && k < |list|
    ensures list[k] in info && Accounts(Without(list, k), info, Closed(n, info[list[k]]))
  {
    CountWithout(list, info, k);
    var t := Without(list, k);
    assert forall i :: 0 <= i < |t| ==> t[i] in list;
    MultisetWithout(Ids(list, info), k);
    assert Ids(t, info) == Without(Ids(list, info), k);
  }

  /** Setting flags of a connection does not touch the accounts. */
  lemma AccountsMarked(list: seq<Block>, info: map<Block, Info>, n: Counters, c: Block)
    requires Accounts(list, info, n) && c in info
    ensures Accounts(list, info[c := info[c].(closing := true)], n)
  {
    var info' := info[c := info[c].(closing := true)];
    CountSame(list, info, info');
    assert Ids(list, info') == Ids(list, info);
  }

  lemma {:induction false} DistinctOnce(s: seq<nat>, x: nat)
    requires Distinct(s)
    ensures multiset(s)[x] == if x in s then 1 else 0
  {
    if s != [] {
      assert s == [s[0]] + s[1..];
      assert Distinct(s[1..]);
      DistinctOnce(s[1..], x);
    }
  }

  /** Every connection that has begun is in the list or has been closed, once and not both. */
  lemma OpenOrClosedOnce(list: seq<Block>, info: map<Block, Info>, n: Counters, id: nat)
    requires Accounts(list, info, n)
    ensures multiset(Ids(list, info))[id] + multiset(n.closed)[id] == if id in n.begun then 1 else 0
  {
    DistinctOnce(n.begun, id);
  }

  /** The allocator has handed out every block in use. */
  ghost predicate Bounded(next: Links, top: Block) { forall b :: b in next ==> b <= top }

  lemma FreshUnused(next: Links, conns: Block, pool: Block, size: nat, list: seq<Block>, free: seq<Block>, top: Block)
    requires Linked(next, conns, pool, size, list, free) && Bounded(next, top)
    ensures Unused(top + 1, list, free)
  {
  }

  lemma LinkBounded(next: Links, top: Block, c: Block, v: Block)
    requires Bounded(next, top) && c in next
    ensures Bounded(next[c := v], top)
  {
  }

  lemma KeysBounded(next: Links, next': Links, top: Block)
    requires Bounded(next, top) && next'.Keys == next.Keys
    ensures Bounded(next', top)
  {
    assert forall b :: b in next' ==> b in next.Keys;
  }

  class Mgr {
    /** The `next` field of every block in use. */
    var next: Links
    var info: map<Block, Info>
    var conns: Block
    var pool: Block
    var poolSize: nat
    /** `nextid`, the counters and the events raised. */
    var n: Counters
    /** The highest address the allocator has handed out. */
    var top: Block
    const idStride: nat
    const maxConnections: nat
    const extraConnSize: nat
    ghost var list: seq<Block>
    ghost var free: seq<Block>

    ghost predicate Valid()
      reads this
    {
      && Linked(next, conns, pool, poolSize, list, free) && Accounts(list, info, n) && Bounded(next, top)
      && idStride > 0
      && (maxConnections > 0 ==> n.numAccepted <= maxConnections)
    }

    constructor (idStride: nat, maxConnections: nat, extraConnSize: nat)
      requires idStride > 0
      ensures Valid() && list == [] && free == [] && n == Counters(0, 0, 0, 0, [], [])
    {
      this.idStride, this.maxConnections, this.extraConnSize := idStride, maxConnections, extraConnSize;
      next, info, conns, pool, poolSize, top := map[], map[], 0, 0, 0, 0;
      n, list, free := Counters(0, 0, 0, 0, [], []), [], [];
    }

    /** `alloc_conn`: the newest block of the pool, or one from the allocator. */
    method Alloc() returns (c: Block)
      requires Linked(next, conns, pool, poolSize, list, free) && Bounded(next, top)
      modifies `next, `pool, `poolSize, `free, `n, `top
      ensures Linked(next, conns, pool, poolSize, list, free) && Unused(c, list, free) && Bounded(next, top)
              && c in next
      ensures n == old(n).(nextId := old(n.nextId) + idStride)
      ensures c == if old(pool) != 0 && extraConnSize == 0 then old(pool) else old(top) + 1
    {
      FreshUnused(next, conns, pool, poolSize, list, free, top);
      hide Chain, Distinct, Apart;
      if pool != 0 && extraConnSize == 0 {
        c := pool;
        LinkedTake(next, conns, pool, poolSize, list, free);
        pool, poolSize, free := next[c], poolSize - 1, free[1..];
      } else {
        c := top + 1;
        top := c;
      }
      n := n.(nextId := n.nextId + idStride);
      LinkedFresh(next, conns, pool, poolSize, list, free, c, 0);
      next := next[c := 0];
    }

    /** The block becomes the first connection of the list. */
    method Adopt(accepted: bool) returns (c: Block)
      requires Valid() && (accepted && maxConnections > 0 ==> n.numAccepted < maxConnections)
      modifies this
      ensures Valid() && list == [c] + old(list) && info == old(info)[c := Info(n.nextId, accepted, false)]
      ensures n == Opened(old(n), idStride, accepted)
    {
      hide Linked, Accounts;
      ghost var before := n;
      c := Alloc();
      AccountsAdd(list, info, before, c, idStride, accepted);
      LinkedAdd(next, conns, pool, poolSize, list, free, c);
      LinkBounded(next, top, c, conns);
      next, conns, list := next[c := conns], c, [c] + list;
      info := info[c := Info(n.nextId, accepted, false)];
      if accepted {
        n := n.(numAccepted := n.numAccepted + 1, statAccepted := n.statAccepted + 1);
      }
      n := n.(begun := n.begun + [n.nextId]);
    }

    /** `accept_conn` with a socket from `accept`; the cap decides whether it becomes a connection. */
    method Accept() returns (adopted: bool, c: Block)
      requires Valid()
      modifies this
      ensures Valid() && adopted == !(maxConnections > 0 && old(n.numAccepted) >= maxConnections)
      ensures list == (if adopted then [c] else []) + old(list)
      ensures info == if adopted then old(info)[c := Info(n.nextId, true, false)] else old(info)
      ensures n == if adopted then Opened(old(n), idStride, true) else old(n)
    {
      hide Linked, Accounts, Bounded;
      if maxConnections > 0 && n.numAccepted >= maxConnections {
        return false, 0;
      }
      c := Adopt(true);
      adopted := true;
    }

    /** `connect_svc` and `wrapfd`: a connection that is not an accepted one. */
    method Open() returns (c: Block)
      requires Valid()
      modifies this
      ensures Valid() && list == [c] + old(list) && info == old(info)[c := Info(n.nextId, false, false)]
      ensures n == Opened(old(n), idStride, false)
    {
      c := Adopt(false);
    }

    /** A handler or the event loop sets `is_closing`. */
    method Mark(c: Block)
      requires Valid() && c in info
      modifies `info
      ensures Valid() && info == old(info)[c := old(info)[c].(closing := true)]
    {
      hide Linked, Accounts;
      AccountsMarked(list, info, n, c);
      info := info[c := info[c].(closing := true)];
    }

    /** LIST_DELETE. */
    method Unlink(c: Block, ghost k: nat)
      requires Linked(next, conns, pool, poolSize, list, free) && k < |list| && list[k] == c
      modifies `next, `conns, `list
      ensures Linked(next, conns, pool, poolSize, list, free) && list == Without(old(list), k)
      ensures next.Keys == old(next).Keys && c in next
      ensures Unused(c, list, free)
    {
      LinkedCut(next, conns, pool, poolSize, list, free, k);
      if conns == c {
        conns := next[c];
      } else {
        var h := conns;
        ghost var i: nat := 0;
        while next[h] != c
          invariant i < k && h == list[i] && h in next
          decreases k - i
        {
          assert next[list[i]] == After(list, i);
          h, i := next[h], i + 1;
        }
        assert next[list[i]] == After(list, i);
        assert i + 1 == k;
        next := next[h := next[c]];
      }
      list := Without(list, k);
    }

    /** `close_conn`: counters, list, MG_EV_CLOSE, and the block to the pool or to the allocator. */
    method Close(c: Block, ghost k: nat)
      requires Valid() && k < |list| && list[k] == c
      modifies this
      ensures Valid() && list == Without(old(list), k) && info == old(info)
      ensures c in info && n == Closed(old(n), info[c])
      ensures poolSize == if extraConnSize == 0 && old(poolSize) < POOL_MAX then old(poolSize) + 1 else old(poolSize)
    {
      AccountsRemove(list, info, n, k);
      hide *;
      ghost var n', list' := Closed(n, info[c]), Without(list, k);
      CountDown(c);
      Unlink(c, k);
      n := n.(closed := n.closed + [info[c].id]);
      assert n == n' && list == list';
      Recycle(c);
      KeysBounded(old(next), next, top);
    }

    method CountDown(c: Block)
      requires c in info
      modifies `n
      ensures n.(closed := n.closed + [info[c].id]) == Closed(old(n), info[c])
    {
      if info[c].accepted {
        if n.numAccepted > 0 {
          n := n.(numAccepted := n.numAccepted - 1);
        }
        n := n.(statClosed := n.statClosed + 1);
      }
    }

    /** The end of `close_conn`: the block goes to the pool while that has room. */
    method Recycle(c: Block)
      requires Linked(next, conns, pool, poolSize, list, free) && Unused(c, list, free) && c in next
      modifies `next, `pool, `poolSize, `free
      ensures Linked(next, conns, pool, poolSize, list, free) && next.Keys == old(next).Keys
      ensures poolSize == if extraConnSize == 0 && old(poolSize) < POOL_MAX then old(poolSize) + 1 else old(poolSize)
    {
      hide Linked, Unused;
      if extraConnSize == 0 && poolSize < POOL_MAX {
        LinkedRecycle(next, conns, pool, poolSize, list, free, c);
        next, pool, poolSize, free := next[c := pool], c, poolSize + 1, [c] + free;
      }
    }

    /** What happens while a connection is visited: connections arrive, and connections are marked. */
    method Happen(acts: seq<Act>) returns (ghost newer: seq<Block>)
      requires Valid()
      modifies this
      ensures Valid() && list == newer + old(list) && n.closed == old(n.closed)
      ensures Carried(old(list), old(info), info, MarksIn(acts)) && Young(newer, info, old(n.nextId))
      ensures old(n.nextId) <= n.nextId
    {
      hide Linked, Accounts, Bounded, MarksIn, Carried, Young, Opened;
      newer := [];
      var i := 0;
      NothingHappened(list, info, acts, n.nextId);
      while i < |acts|
        invariant i <= |acts| && Valid() && list == newer + old(list) && n.closed == old(n.closed)
        invariant Carried(old(list), old(info), info, MarksIn(acts[..i])) && Young(newer, info, old(n.nextId))
        invariant old(n.nextId) <= n.nextId
      {
        ghost var before := info;
        newer := OneAct(acts[i], newer, old(list), old(n.nextId));
        CarriedOn(old(list), old(info), before, info, acts, i);
        i := i + 1;
      }
      assert acts[..i] == acts;
    }

    method OneAct(act: Act, ghost newer: seq<Block>, ghost start: seq<Block>, ghost young: nat)
      returns (ghost newer': seq<Block>)
      requires Valid() && list == newer + start && Young(newer, info, young) && young <= n.nextId
      modifies this
      ensures Valid() && list == newer' + start && n.closed == old(n.closed) && Young(newer', info, young)
              && young <= n.nextId
      ensures Carried(start, old(info), info, if act.Marks? then {act.c} else {})
    {
      hide Linked, Accounts, Bounded, Carried;
      newer' := newer;
      match act
      case Takes =>
        var adopted, c := Accept();
        if adopted {
          newer' := [c] + newer;
          DistinctParts(next, conns, pool, poolSize, list, free, newer', start);
          CarriedAdded(start, old(info), newer', Info(n.nextId, true, false));
        } else {
          CarriedMarked(start, info, 0);
        }
      case Opens =>
        var c := Open();
        newer' := [c] + newer;
        DistinctParts(next, conns, pool, poolSize, list, free, newer', start);
        CarriedAdded(start, old(info), newer', Info(n.nextId, false, false));
      case Marks(c) =>
        CarriedMarked(start, info, c);
        if c in info {
          Mark(c);
        }
    }

    /** The walk of `mgr_poll`, while `script` tells what happens at each visit: connections whose `is_closing` is
        set when their visit ends are closed, in order; those that arrive are not visited. */
    method Poll(script: Block -> seq<Act>) returns (ghost newer: seq<Block>)
      requires Valid()
      modifies this
      ensures Valid() && AllKnown(old(list), old(info))
      ensures var marked := MarkedIn(old(list), old(info));
              && list == newer + Kept(old(list), marked, script)
              && AllKnown(Gone(old(list), marked, script), old(info))
              && n.closed == old(n.closed) + Ids(Gone(old(list), marked, script), old(info))
      ensures Young(newer, info, old(n.nextId))
    {
      ghost var start, marked0, info0, id0 := list, MarkedIn(list, info), info, n.nextId;
      ghost var done, rest, marked := [], list, marked0;
      newer := [];
      var c := conns;
      ListInInfo(list, info, n);
      ConnsIs(next, conns, pool, poolSize, list, free);
      StartWalk(list, info, n.nextId);
      GoneKnown(start, marked0, script, info);
      hide Linked, Accounts, Bounded, AllKnown, Ids, Kept, Gone, MarksIn, Carried, Young, MarkedIn, Pending;
      ghost var kept := Kept(start, marked0, script);
      ghost var closed := n.closed + Ids(Gone(start, marked0, script), info0);
      assert done + Kept(rest, marked, script) == kept;
      while c != 0
        invariant Valid() && list == newer + (done + rest) && c == (if rest == [] then 0 else rest[0])
        invariant Young(newer, info, id0) && id0 <= n.nextId && Pending(rest, info0, info, marked)
        invariant done + Kept(rest, marked, script) == kept && AllKnown(Gone(rest, marked, script), info0)
        invariant n.closed + Ids(Gone(rest, marked, script), info0) == closed
        decreases |rest|
      {
        PendingKnown(rest, info0, info, marked);
        KeptStep(rest, marked, script, done);
        GoneStep(rest, info0, marked, script, n.closed);
        var tmp;
        ghost var more, goes;
        tmp, more, goes := Visit(c, script(c), newer, done, rest, info0, marked, id0);
        done, marked, newer := done + (if goes then [] else [c]), marked + MarksIn(script(c)), more + newer;
        rest := rest[1..];
        c := tmp;
      }
      ConnsAreNotNull(next, conns, pool, poolSize, list, free, newer, done, rest);
      WalkDone(marked, script, info0);
    }

    /** One connection of the walk; the pointer to the next one is read first. */
    method Visit(c: Block, acts: seq<Act>, ghost newer: seq<Block>, ghost done: seq<Block>, ghost rest: seq<Block>,
                 ghost info0: map<Block, Info>, ghost marked: set<Block>, ghost id0: nat)
      returns (tmp: Block, ghost more: seq<Block>, ghost goes: bool)
      requires Valid() && list == newer + (done + rest) && rest != [] && c == rest[0] && c in info0
      requires Young(newer, info, id0) && id0 <= n.nextId && Pending(rest, info0, info, marked)
      modifies this
      ensures Valid() && tmp == (if rest[1..] == [] then 0 else rest[1]) && goes == (c in marked + MarksIn(acts))
      ensures list == (more + newer) + ((done + if goes then [] else [c]) + rest[1..])
      ensures n.closed == old(n.closed) + if goes then [info0[c].id] else []
      ensures Young(more + newer, info, id0) && id0 <= n.nextId
              && Pending(rest[1..], info0, info, marked + MarksIn(acts))
    {
      hide Linked, Accounts, Bounded, MarksIn, Carried, Young, Pending;
      ghost var was := info;
      NextOf(next, conns, pool, poolSize, list, free, newer, done, rest);
      tmp := next[c];
      more := Happen(acts);
      StillPending(newer, done, rest, info0, was, info, marked, MarksIn(acts), more, id0, old(n.nextId));
      goes := info[c].closing;
      Regrouped(more, newer, done, rest);
      if info[c].closing {
        CloseHere(c, |more| + |newer| + |done|);
      }
    }

    /** Closing the connection at index `k` while the list is walked. */
    method CloseHere(c: Block, ghost k: nat)
      requires Valid() && k < |list| && list[k] == c && c in info
      modifies this
      ensures Valid() && info == old(info) && n.nextId == old(n.nextId) && list == Without(old(list), k)
      ensures n.closed == old(n.closed) + [info[c].id]
    {
      hide Linked, Accounts, Bounded, Without;
      Close(c, k);
    }
  }

  // ----- the walk

  /** A connection is accepted, one is opened, or `is_closing` is set for one. */
  datatype Act = Takes | Opens | Marks(c: Block)

  function MarksIn(acts: seq<Act>): set<Block> {
    if acts == [] then {} else (if acts[0].Marks? then {acts[0].c} else {}) + MarksIn(acts[1..])
  }

  ghost function MarkedIn(s: seq<Block>, info: map<Block, Info>): set<Block> {
    set c | c in s && c in info && info[c].closing
  }

  /** The connections still to be visited that stay, and those that go; `marked` have been marked before. */
  function Kept(rest: seq<Block>, marked: set<Block>, script: Block -> seq<Act>): seq<Block> {
    if rest == [] then []
    else
      var now := marked + MarksIn(script(rest[0]));
      (if rest[0] in now then [] else [rest[0]]) + Kept(rest[1..], now, script)
  }

  function Gone(rest: seq<Block>, marked: set<Block>, script: Block -> seq<Act>): seq<Block> {
    if rest == [] then []
    else
      var now := marked + MarksIn(script(rest[0]));
      (if rest[0] in now then [rest[0]] else []) + Gone(rest[1..], now, script)
  }

  /** The connections of `s` are the same, but for marks. */
  ghost predicate Carried(s: seq<Block>, info: map<Block, Info>, info': map<Block, Info>, marked: set<Block>) {
    forall k :: 0 <= k < |s| && s[k] in info ==>
      s[k] in info' && info'[s[k]] == info[s[k]].(closing := info[s[k]].closing || s[k] in marked)
  }

  /** Connections that have begun after the id `young` was given. */
  ghost predicate Young(s: seq<Block>, info: map<Block, Info>, young: nat) {
    forall k :: 0 <= k < |s| ==> s[k] in info && info[s[k]].id > young
  }

  /** Still to be visited: as at the beginning of the walk, but for marks. */
  ghost predicate Pending(s: seq<Block>, info0: map<Block, Info>, info: map<Block, Info>, marked: set<Block>) {
    forall k :: 0 <= k < |s| ==>
      s[k] in info0 && s[k] in info && info[s[k]].id == info0[s[k]].id && info[s[k]].closing == (s[k] in marked)
  }

  lemma {:induction false} MarksMore(acts: seq<Act>, act: Act)
    ensures MarksIn(acts + [act]) == MarksIn(acts) + if act.Marks? then {act.c} else {}
    decreases |acts|
  {
    if acts == [] {
      assert ([] + [act])[1..] == [] && MarksIn([]) == {};
    } else {
      assert (acts + [act])[1..] == acts[1..] + [act];
      MarksMore(acts[1..], act);
    }
  }

  lemma NothingHappened(list: seq<Block>, info: map<Block, Info>, acts: seq<Act>, young: nat)
    ensures Carried(list, info, info, MarksIn(acts[..0])) && Young([], info, young)
  {
    assert acts[..0] == [];
  }

  lemma CarriedAdded(s: seq<Block>, info: map<Block, Info>, newer: seq<Block>, i: Info)
    requires newer != [] && forall i, k :: 0 <= i < |newer| && 0 <= k < |s| ==> newer[i] != s[k]
    ensures Carried(s, info, info[newer[0] := i], {})
  {
  }

  lemma CarriedMarked(s: seq<Block>, info: map<Block, Info>, c: Block)
    ensures Carried(s, info, info, {})
    ensures Carried(s, info, if c in info then info[c := info[c].(closing := true)] else info, {c})
  {
  }

  lemma CarriedOn(s: seq<Block>, info0: map<Block, Info>, before: map<Block, Info>, info: map<Block, Info>,
                  acts: seq<Act>, i: nat)
    requires i < |acts| && Carried(s, info0, before, MarksIn(acts[..i]))
    requires Carried(s, before, info, if acts[i].Marks? then {acts[i].c} else {})
    ensures Carried(s, info0, info, MarksIn(acts[..i + 1]))
  {
    assert acts[..i + 1] == acts[..i] + [acts[i]];
    MarksMore(acts[..i], acts[i]);
    hide MarksIn;
  }

  lemma DistinctParts(next: Links, conns: Block, pool: Block, size: nat, list: seq<Block>, free: seq<Block>,
                      newer: seq<Block>, start: seq<Block>)
    requires Linked(next, conns, pool, size, list, free) && list == newer + start
    ensures forall i, k :: 0 <= i < |newer| && 0 <= k < |start| ==> newer[i] != start[k]
  {
    forall i, k | 0 <= i < |newer| && 0 <= k < |start|
      ensures newer[i] != start[k]
    {
      assert newer[i] == list[i] && start[k] == list[|newer| + k];
    }
  }

  lemma StartWalk(list: seq<Block>, info: map<Block, Info>, young: nat)
    requires AllKnown(list, info)
    ensures Pending(list, info, info, MarkedIn(list, info)) && Young([], info, young) && [] + ([] + list) == list
  {
  }

  lemma {:induction false} GoneKnown(rest: seq<Block>, marked: set<Block>, script: Block -> seq<Act>,
                                     info: map<Block, Info>)
    requires AllKnown(rest, info)
    ensures AllKnown(Gone(rest, marked, script), info)
    decreases |rest|
  {
    if rest != [] {
      hide MarksIn;
      GoneKnown(rest[1..], marked + MarksIn(script(rest[0])), script, info);
    }
  }

  /** What one connection contributes. */
  lemma KeptStep(rest: seq<Block>, marked: set<Block>, script: Block -> seq<Act>, done: seq<Block>)
    requires rest != []
    ensures var c, more, now := rest[0], rest[1..], marked + MarksIn(script(rest[0]));
            done + Kept(rest, marked, script) == (done + if c in now then [] else [c]) + Kept(more, now, script)
  {
    hide MarksIn;
  }

  lemma GoneStep(rest: seq<Block>, info: map<Block, Info>, marked: set<Block>, script: Block -> seq<Act>,
                 closed: seq<nat>)
    requires rest != [] && rest[0] in info && AllKnown(Gone(rest, marked, script), info)
    ensures var c, more, now := rest[0], rest[1..], marked + MarksIn(script(rest[0]));
            && AllKnown(Gone(more, now, script), info)
            && closed + Ids(Gone(rest, marked, script), info) ==
               (closed + if c in now then [info[c].id] else []) + Ids(Gone(more, now, script), info)
  {
    hide *;
    GoneIs(rest, marked, script);
    var c, now := rest[0], marked + MarksIn(script(rest[0]));
    var gone := Gone(rest[1..], now, script);
    if c in now {
      IdsMore(c, gone, info);
      assert closed + ([info[c].id] + Ids(gone, info)) == (closed + [info[c].id]) + Ids(gone, info);
    } else {
      assert [] + gone == gone && closed + [] == closed;
    }
  }

  lemma GoneIs(rest: seq<Block>, marked: set<Block>, script: Block -> seq<Act>)
    requires rest != []
    ensures var c, now := rest[0], marked + MarksIn(script(rest[0]));
            Gone(rest, marked, script) == (if c in now then [c] else []) + Gone(rest[1..], now, script)
  {
    hide MarksIn;
  }

  lemma IdsMore(c: Block, gone: seq<Block>, info: map<Block, Info>)
    requires AllKnown([c] + gone, info)
    ensures AllKnown(gone, info) && c in info && Ids([c] + gone, info) == [info[c].id] + Ids(gone, info)
  {
    assert forall k :: 0 <= k < |gone| ==> gone[k] == ([c] + gone)[k + 1];
    assert ([c] + gone)[0] == c;
  }

  lemma PendingKnown(rest: seq<Block>, info0: map<Block, Info>, info: map<Block, Info>, marked: set<Block>)
    requires Pending(rest, info0, info, marked)
    ensures rest != [] ==> rest[0] in info0 && rest[0] in info
  {
  }

  lemma ConnsAreNotNull(next: Links, conns: Block, pool: Block, size: nat, list: seq<Block>, free: seq<Block>,
                        newer: seq<Block>, done: seq<Block>, rest: seq<Block>)
    requires Linked(next, conns, pool, size, list, free) && list == newer + (done + rest)
    ensures rest != [] ==> rest[0] != 0
  {
    if rest != [] {
      assert list[|newer| + |done|] == rest[0];
    }
  }

  lemma WalkDone(marked: set<Block>, script: Block -> seq<Act>, info: map<Block, Info>)
    ensures Kept([], marked, script) == [] && Gone([], marked, script) == [] && AllKnown([], info)
            && Ids([], info) == []
  {
  }

  lemma NextOf(next: Links, conns: Block, pool: Block, size: nat, list: seq<Block>, free: seq<Block>, newer: seq<Block>,
               done: seq<Block>, rest: seq<Block>)
    requires Linked(next, conns, pool, size, list, free) && list == newer + (done + rest) && rest != []
    ensures rest[0] in next && next[rest[0]] == if rest[1..] == [] then 0 else rest[1]
  {
    var k := |newer| + |done|;
    assert list[k] == rest[0] && next[list[k]] == After(list, k);
    assert |rest| > 1 ==> list[k + 1] == rest[1];
  }

  lemma StillPending(newer: seq<Block>, done: seq<Block>, rest: seq<Block>, info0: map<Block, Info>,
                     was: map<Block, Info>, info: map<Block, Info>, marked: set<Block>, marks: set<Block>,
                     more: seq<Block>, id0: nat, id1: nat)
    requires Pending(rest, info0, was, marked) && Carried(newer + (done + rest), was, info, marks) && rest != []
    requires Young(newer, was, id0) && Young(more, info, id1) && id0 <= id1
    ensures Pending(rest[1..], info0, info, marked + marks) && Young(more + newer, info, id0)
    ensures rest[0] in info && info[rest[0]].id == info0[rest[0]].id
            && info[rest[0]].closing == (rest[0] in marked + marks)
  {
    var all := newer + (done + rest);
    assert forall k :: 0 <= k < |newer| ==> newer[k] == all[k];
    assert forall k :: 0 <= k < |rest| ==> rest[k] == all[|newer| + |done| + k];
  }

  lemma Regrouped(more: seq<Block>, newer: seq<Block>, done: seq<Block>, rest: seq<Block>)
    requires rest != []
    ensures var all, k := more + (newer + (done + rest)), |more| + |newer| + |done|;
            && k < |all| && all[k] == rest[0]
            && Without(all, k) == (more + newer) + ((done + []) + rest[1..])
            && all == (more + newer) + ((done + [rest[0]]) + rest[1..])
  {
  }

  /** A connection goes exactly when it has been marked before the walk, or by what happens at a visit up to
      its own. */
  lemma {:induction false} GoneIff(s: seq<Block>, marked: set<Block>, script: Block -> seq<Act>, k: nat)
    requires k < |s| && Distinct(s)
    ensures s[k] in Gone(s, marked, script) <==>
            s[k] in marked || exists i :: 0 <= i <= k && s[k] in MarksIn(script(s[i]))
    ensures s[k] in Kept(s, marked, script) <==> s[k] !in Gone(s, marked, script)
    decreases |s|
  {
    hide MarksIn;
    var rest, now := s[1..], marked + MarksIn(script(s[0]));
    OnlyThose(rest, now, script);
    assert s[0] !in rest;
    if k > 0 {
      assert Distinct(rest) && rest[k - 1] == s[k];
      GoneIff(rest, now, script, k - 1);
      assert forall i :: 0 < i <= k ==> s[i] == rest[i - 1];
      if i :| 0 <= i <= k && s[k] in MarksIn(script(s[i])) {
        assert i > 0 ==> s[k] in MarksIn(script(rest[i - 1]));
      }
    }
  }

  lemma {:induction false} OnlyThose(s: seq<Block>, marked: set<Block>, script: Block -> seq<Act>)
    ensures forall x :: x in Gone(s, marked, script) || x in Kept(s, marked, script) ==> x in s
    decreases |s|
  {
    if s != [] {
      hide MarksIn;
      OnlyThose(s[1..], marked + MarksIn(script(s[0])), script);
    }
  }

  lemma ConnsIs(next: Links, conns: Block, pool: Block, size: nat, list: seq<Block>, free: seq<Block>)
    requires Linked(next, conns, pool, size, list, free)
    ensures conns == (if list == [] then 0 else list[0]) && forall k :: 0 <= k < |list| ==> list[k] != 0
  {
  }

  lemma ListInInfo(list: seq<Block>, info: map<Block, Info>, n: Counters)
    requires Accounts(list, info, n)
    ensures AllKnown(list, info)
  {
  }
}
