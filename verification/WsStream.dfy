/** What `ws_cb` makes of a byte stream, whatever pieces it arrives in. */
module WsStream {
  import opened Bytes
  import opened WsFrame

  const OP_CONTINUE: nat := 0
  const OP_TEXT: nat := 1
  const OP_BINARY: nat := 2
  const OP_CLOSE: nat := 8
  const OP_PING: nat := 9
  const OP_PONG: nat := 10

  /** An event raised, a frame sent, or the connection put into draining state. */
  datatype Action =
    | Ctl(flags: Byte, data: seq<Byte>)
    | Msg(flags: Byte, data: seq<Byte>)
    | Send(op: Byte, data: seq<Byte>)
    | UnknownOp(code: nat)
    | Draining

  function Op(flags: Byte): (op: nat)
    ensures op < 16
  {
    flags % 16
  }

  predicate Final(flags: Byte) { flags >= FIN }

  /** A protocol error that closes with status 1002. */
  predicate Violation(isClient: bool, flags: Byte, masked: bool, len: nat) {
    (!isClient && !masked) || (Op(flags) >= OP_CLOSE && (!Final(flags) || len > 125))
  }

  const CLOSING: seq<Action> := [Send(OP_CLOSE, [1002 / 256, 1002 % 256]), Draining]

  function Dispatch(flags: Byte, data: seq<Byte>): seq<Action> {
    var op := Op(flags);
    if op == OP_CONTINUE || op == OP_PONG then [Ctl(flags, data)]
    else if op == OP_PING then [Send(OP_PONG, data), Ctl(flags, data)]
    else if op == OP_TEXT || op == OP_BINARY then if Final(flags) then [Msg(flags, data)] else []
    else if op == OP_CLOSE then [Ctl(flags, data), Send(OP_CLOSE, data), Draining]
    else [UnknownOp(op)]
  }

  /** What stays in front of the unread bytes: the flags byte of a first fragment, and payloads. */
  function Kept(acc: seq<Byte>, flags: Byte, data: seq<Byte>): seq<Byte> {
    if Op(flags) == OP_CONTINUE then acc + data
    else if Final(flags) then acc
    else acc + ([flags] + data)
  }

  predicate Completes(acc: seq<Byte>, flags: Byte, data: seq<Byte>) {
    Final(flags) && Op(flags) == OP_CONTINUE && Kept(acc, flags, data) != []
  }

  function Handle(acc: seq<Byte>, flags: Byte, data: seq<Byte>): seq<Action> {
    var kept := Kept(acc, flags, data);
    Dispatch(flags, data) + if Completes(acc, flags, data) then [Msg(kept[0], kept[1..])] else []
  }

  function Left(acc: seq<Byte>, flags: Byte, data: seq<Byte>): seq<Byte> {
    if Completes(acc, flags, data) then [] else Kept(acc, flags, data)
  }

  /** `acc` is what `ofs` covers of the receive buffer, `rest` what follows. */
  datatype Inbox = Inbox(acc: seq<Byte>, rest: seq<Byte>, actions: seq<Action>, broken: bool)

  /** One READ event. */
  function Consume(isClient: bool, acc: seq<Byte>, rest: seq<Byte>): Inbox
    decreases |rest|
  {
    var n := FrameLength(rest);
    if n == 0 then Inbox(acc, rest, [], false)
    else
      var m := ReadHeader(rest);
      if Violation(isClient, m.flags, m.masked, m.dataLen) then Inbox(acc, Processed(rest), CLOSING, true)
      else
        var r := Consume(isClient, Left(acc, m.flags, Payload(rest)), rest[n..]);
        r.(actions := Handle(acc, m.flags, Payload(rest)) + r.actions)
  }

  lemma OneTurn(isClient: bool, acc: seq<Byte>, b: seq<Byte>)
    ensures var m, r := ReadHeader(b), Consume(isClient, acc, b);
            if FrameLength(b) == 0 then r == Inbox(acc, b, [], false)
            else if Violation(isClient, m.flags, m.masked, m.dataLen) then r == Inbox(acc, Processed(b), CLOSING, true)
            else
              var next := Consume(isClient, Left(acc, m.flags, Payload(b)), b[FrameLength(b)..]);
              r == next.(actions := Handle(acc, m.flags, Payload(b)) + next.actions)
  {
  }

  /** READ events for one piece of the stream after the other. */
  function Feed(isClient: bool, acc: seq<Byte>, rest: seq<Byte>, pieces: seq<seq<Byte>>): Inbox
    decreases |pieces|
  {
    if pieces == [] then Inbox(acc, rest, [], false)
    else
      var one := Consume(isClient, acc, rest + pieces[0]);
      var more := Feed(isClient, one.acc, one.rest, pieces[1..]);
      more.(actions := one.actions + more.actions, broken := one.broken || more.broken)
  }

  function Join(pieces: seq<seq<Byte>>): seq<Byte> {
    if pieces == [] then [] else pieces[0] + Join(pieces[1..])
  }

  // ----- the cut into pieces does not matter

  lemma {:induction false} ConsumeMore(isClient: bool, acc: seq<Byte>, rest: seq<Byte>, t: seq<Byte>)
    ensures var one, all := Consume(isClient, acc, rest), Consume(isClient, acc, rest + t);
            if one.broken then all.broken && all.actions == one.actions
            else
              var more := Consume(isClient, one.acc, one.rest + t);
              all == more.(actions := one.actions + more.actions)
    decreases |rest|
  {
    hide ReadHeader, Payload, Processed, FrameLength, Handle, Left, Violation;
    var n := FrameLength(rest);
    if n > 0 {
      LaterBytes(rest, t);
      var m := ReadHeader(rest);
      assert (rest + t)[n..] == rest[n..] + t;
      if !Violation(isClient, m.flags, m.masked, m.dataLen) {
        ConsumeMore(isClient, Left(acc, m.flags, Payload(rest)), rest[n..], t);
      }
    }
  }

  /** However a stream is cut, the same actions happen in the same order up to the first protocol
      error; without one, the same bytes are kept as well. */
  lemma {:induction false} CutsDoNotMatter(isClient: bool, acc: seq<Byte>, rest: seq<Byte>, pieces: seq<seq<Byte>>)
    requires FrameLength(rest) == 0
    ensures var all, cut := Consume(isClient, acc, rest + Join(pieces)), Feed(isClient, acc, rest, pieces);
            && all.actions <= cut.actions && all.broken == cut.broken
            && (!all.broken ==> cut == all)
    decreases |pieces|
  {
    hide Consume, FrameLength;
    if pieces == [] {
      assert rest + Join(pieces) == rest;
      assert Consume(isClient, acc, rest) == Inbox(acc, rest, [], false) by { NothingYet(isClient, acc, rest); }
    } else {
      var one := Consume(isClient, acc, rest + pieces[0]);
      ConsumeMore(isClient, acc, rest + pieces[0], Join(pieces[1..]));
      assert rest + Join(pieces) == (rest + pieces[0]) + Join(pieces[1..]);
      if !one.broken {
        ConsumeEnds(isClient, acc, rest + pieces[0]);
        CutsDoNotMatter(isClient, one.acc, one.rest, pieces[1..]);
      }
    }
  }

  lemma NothingYet(isClient: bool, acc: seq<Byte>, rest: seq<Byte>)
    requires FrameLength(rest) == 0
    ensures Consume(isClient, acc, rest) == Inbox(acc, rest, [], false)
  {
  }

  lemma {:induction false} ConsumeEnds(isClient: bool, acc: seq<Byte>, rest: seq<Byte>)
    ensures var r := Consume(isClient, acc, rest);
            !r.broken ==> FrameLength(r.rest) == 0
    decreases |rest|
  {
    hide ReadHeader, Payload, Processed, FrameLength, Handle, Left, Violation;
    var n := FrameLength(rest);
    if n > 0 {
      var m := ReadHeader(rest);
      if !Violation(isClient, m.flags, m.masked, m.dataLen) {
        ConsumeEnds(isClient, Left(acc, m.flags, Payload(rest)), rest[n..]);
      }
    }
  }

  // ----- frames instead of bytes

  predicate AllOk(fs: seq<Frame>) { forall k :: 0 <= k < |fs| ==> fs[k].Ok() }

  predicate Bad(isClient: bool, f: Frame) {
    Violation(isClient, f.flags, f.key.Some?, |f.payload|)
  }

  function WireAll(fs: seq<Frame>): seq<Byte>
    requires AllOk(fs)
  {
    if fs == [] then [] else Wire(fs[0]) + WireAll(fs[1..])
  }

  function Effects(acc: seq<Byte>, fs: seq<Frame>): seq<Action>
    decreases |fs|
  {
    if fs == [] then []
    else Handle(acc, fs[0].flags, fs[0].payload) + Effects(Left(acc, fs[0].flags, fs[0].payload), fs[1..])
  }

  function LeftAll(acc: seq<Byte>, fs: seq<Frame>): seq<Byte>
    decreases |fs|
  {
    if fs == [] then acc else LeftAll(Left(acc, fs[0].flags, fs[0].payload), fs[1..])
  }

  lemma FrameConsumed(isClient: bool, acc: seq<Byte>, f: Frame, t: seq<Byte>)
    requires f.Ok()
    ensures var r := Consume(isClient, acc, Wire(f) + t);
            if Bad(isClient, f) then r.broken && r.actions == CLOSING
            else
              var next := Consume(isClient, Left(acc, f.flags, f.payload), t);
              r == next.(actions := Handle(acc, f.flags, f.payload) + next.actions)
  {
    hide ReadHeader, Payload, Processed, FrameLength, Handle, Left, Violation, Wire;
    WireRead(f, t);
    assert (Wire(f) + t)[|Wire(f)|..] == t;
  }

  lemma {:induction false} FramesConsumed(isClient: bool, acc: seq<Byte>, fs: seq<Frame>, t: seq<Byte>)
    requires AllOk(fs) && forall k :: 0 <= k < |fs| ==> !Bad(isClient, fs[k])
    ensures var r := Consume(isClient, acc, WireAll(fs) + t);
            var next := Consume(isClient, LeftAll(acc, fs), t);
            r == next.(actions := Effects(acc, fs) + next.actions)
    decreases |fs|
  {
    hide Consume, Wire, Handle, Left, Bad;
    if fs == [] {
      assert WireAll(fs) + t == t;
      assert Consume(isClient, acc, t).actions == [] + Consume(isClient, acc, t).actions;
    } else {
      var f, more := fs[0], fs[1..];
      var left, did := Left(acc, f.flags, f.payload), Handle(acc, f.flags, f.payload);
      assert !Bad(isClient, f) && f.Ok();
      FrameConsumed(isClient, acc, f, WireAll(more) + t);
      FramesConsumed(isClient, left, more, t);
      assert WireAll(fs) + t == Wire(f) + (WireAll(more) + t);
      var next := Consume(isClient, LeftAll(left, more), t);
      assert did + (Effects(left, more) + next.actions) == (did + Effects(left, more)) + next.actions;
    }
  }

  /** Status 1002 is sent exactly for an unmasked client frame or a fragmented or long control frame. */
  lemma {:induction false} ClosesIff(isClient: bool, acc: seq<Byte>, fs: seq<Frame>)
    requires AllOk(fs)
    ensures Consume(isClient, acc, WireAll(fs)).broken <==> exists k :: 0 <= k < |fs| && Bad(isClient, fs[k])
    decreases |fs|
  {
    hide Consume, Wire, Handle, Left, Bad;
    if fs == [] {
      assert FrameLength([]) == 0;
      NothingYet(isClient, acc, []);
    } else {
      assert fs[0].Ok();
      FrameConsumed(isClient, acc, fs[0], WireAll(fs[1..]));
      ClosesIff(isClient, Left(acc, fs[0].flags, fs[0].payload), fs[1..]);
      assert forall k :: 0 <= k < |fs[1..]| ==> fs[1..][k] == fs[k + 1];
      assert forall k :: 0 < k < |fs| ==> fs[k] == fs[1..][k - 1];
    }
  }

  lemma {:induction false} EffectsAppend(acc: seq<Byte>, a: seq<Frame>, b: seq<Frame>)
    ensures Effects(acc, a + b) == Effects(acc, a) + Effects(LeftAll(acc, a), b)
    ensures LeftAll(acc, a + b) == LeftAll(LeftAll(acc, a), b)
    decreases |a|
  {
    hide Handle, Left;
    if a == [] {
      assert a + b == b;
    } else {
      assert (a + b)[1..] == a[1..] + b;
      EffectsAppend(Left(acc, a[0].flags, a[0].payload), a[1..], b);
    }
  }
}
