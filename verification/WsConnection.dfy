/** The WebSocket side of a connection: frames are parsed, unmasked, glued and deleted inside its
    receive buffer, and written at the end of its send buffer. */
module WsConnection {
  import opened Wrappers
  import opened Bytes
  import opened Sequences
  import opened IoBuf
  import opened WsFrame
  import opened WsMessages
  import opened WsStream

  /** `op | 128` as a byte. */
  function WithFin(op: Byte): (b: Byte)
    ensures Final(b) && b % 128 == op % 128
  {
    if op >= 128 then op else op + 128
  }

  method CompleteLength(ghost b: seq<Byte>, msg: WsMsg, len: nat) returns (n: nat)
    requires msg == ReadHeader(b) && len == |b|
    ensures n == FrameLength(b) && (n > 0 ==> n == msg.headerLen + msg.dataLen)
  {
    hide ReadHeader;
    if msg.dataLen > MAX_DATA_LEN || msg.headerLen + msg.dataLen > len {
      return 0;
    }
    return msg.headerLen + msg.dataLen;
  }

  lemma NothingInPlace(all: seq<Byte>, ofs: nat, len: nat)
    requires ofs + len <= |all| && FrameLength(all[ofs..ofs + len]) == 0
    ensures Spliced(all, ofs, Processed(all[ofs..ofs + len])) == all
  {
    SplicedSelf(all, ofs, ofs + len);
  }

  /** Nothing is left to do for an unmasked frame. */
  lemma PlainInPlace(all: seq<Byte>, ofs: nat, len: nat)
    requires ofs + len <= |all| && FrameLength(all[ofs..ofs + len]) > 0
    requires !ReadHeader(all[ofs..ofs + len]).masked
    ensures Spliced(all, ofs, Processed(all[ofs..ofs + len])) == all
  {
    hide ReadHeader;
    var b := all[ofs..ofs + len];
    SplicedSelf(b, ReadHeader(b).headerLen, FrameLength(b));
    SplicedSelf(all, ofs, ofs + len);
  }

  /** The bytes from `p` to `end` unmasked with the four bytes before them. */
  function UnmaskedAt(s: seq<Byte>, p: nat, end: nat): (r: seq<Byte>)
    requires 4 <= p <= end <= |s|
    ensures |r| == |s|
  {
    Spliced(s, p, Masked(s[p..end], s[p - 4..p]))
  }

  /** A masked frame is unmasked where it stands. */
  lemma MaskedInPlace(all: seq<Byte>, ofs: nat, b: seq<Byte>, h: nat, n: nat)
    requires ofs + |b| <= |all| && b == all[ofs..ofs + |b|] && ofs + 6 <= h <= n <= ofs + |b|
    requires FrameLength(b) == n - ofs > 0 && ReadHeader(b).masked && h == ofs + ReadHeader(b).headerLen
    ensures Spliced(all, ofs, Processed(b)) == UnmaskedAt(all, h, n)
  {
    hide ReadHeader, Masked, Spliced;
    PartOfPart(all, ofs, |b|, h - ofs, n - ofs);
    PartOfPart(all, ofs, |b|, h - ofs - 4, h - ofs);
    SplicedPart(all, ofs, ofs + |b|, h - ofs, Payload(b));
  }

  /** `ws_process`: the first frame of the `len` bytes at `ofs`, unmasked where it stands. */
  method Process(io: IoBuf, ofs: nat, len: nat) returns (msg: WsMsg, n: nat)
    requires ofs + len <= |io.buf|
    modifies io`buf
    ensures var b := old(io.buf)[ofs..ofs + len];
            && msg == ReadHeader(b) && n == FrameLength(b)
            && io.buf == Spliced(old(io.buf), ofs, Processed(b))
  {
    ghost var all := io.buf;
    msg := ReadMsg(io.buf, ofs, len);
    hide *;
    n := CompleteLength(all[ofs..ofs + len], msg, len);
    if n == 0 {
      NothingInPlace(all, ofs, len);
    } else if msg.masked {
      var h, end := ofs + msg.headerLen, ofs + n;
      MaskedInPlace(all, ofs, all[ofs..ofs + len], h, end);
      Unmask(io, h, end);
    } else {
      PlainInPlace(all, ofs, len);
    }
  }

  /** The header fields, in the order the code tests them. */
  method ReadMsg(buf: seq<Byte>, ofs: nat, len: nat) returns (msg: WsMsg)
    requires ofs + len <= |buf|
    ensures msg == ReadHeader(buf[ofs..ofs + len])
  {
    hide Be32Value;
    ghost var b := buf[ofs..ofs + len];
    msg := WsMsg(0, false, 0, 0);
    if len >= 2 {
      assert b[0] == buf[ofs] && b[1] == buf[ofs + 1];
      var n := buf[ofs + 1] % 128;
      var maskLen := if buf[ofs + 1] >= 128 then 4 else 0;
      msg := msg.(flags := buf[ofs], masked := maskLen > 0);
      if n < 126 && len >= maskLen {
        msg := msg.(dataLen := n, headerLen := 2 + maskLen);
      } else if n == 126 && len >= 4 + maskLen {
        assert b[2] == buf[ofs + 2] && b[3] == buf[ofs + 3];
        msg := msg.(headerLen := 4 + maskLen, dataLen := (buf[ofs + 2] as int) * 256 + buf[ofs + 3]);
      } else if len >= 10 + maskLen {
        PartOfPart(buf, ofs, len, 2, 6);
        PartOfPart(buf, ofs, len, 6, 10);
        var size := Be32Value(buf[ofs + 2..ofs + 6]) * TWO32 + Be32Value(buf[ofs + 6..ofs + 10]);
        msg := msg.(headerLen := 10 + maskLen, dataLen := size);
      }
    }
  }

  /** The loop shared by `ws_process` and `ws_mask`: the bytes from `p` to `end`, the key right before them. */
  method Unmask(io: IoBuf, p: nat, end: nat)
    requires 4 <= p <= end <= |io.buf|
    modifies io`buf
    ensures io.buf == UnmaskedAt(old(io.buf), p, end)
  {
    hide Xor;
    ghost var all := io.buf;
    var m := p - 4;
    var i := 0;
    while i < end - p
      invariant 0 <= i <= end - p && |io.buf| == |all|
      invariant forall k :: 0 <= k < i ==> io.buf[p + k] == Xor(all[p + k], all[m + k % 4])
      invariant forall k :: 0 <= k < |all| && !(p <= k < p + i) ==> io.buf[k] == all[k]
    {
      io.buf := io.buf[p + i := Xor(io.buf[p + i], io.buf[m + i % 4])];
      i := i + 1;
    }
    assert io.buf[p..end] == Masked(all[p..end], all[m..p]);
    assert io.buf[..p] == all[..p] && io.buf[end..] == all[end..];
  }

  // ----- what a connection shows

  /** The role of an endpoint, and the bytes that `random_` will deliver to it. */
  datatype Peer = Peer(isClient: bool, source: nat -> Byte)
  {
    function KeyAt(k: nat): Option<Key> {
      if isClient then Some([source(k), source(k + 1), source(k + 2), source(k + 3)]) else None
    }

    /** The frame that sending `data` produces when `k` random bytes have been drawn before. */
    function FrameOf(op: Byte, data: seq<Byte>, k: nat): (f: Frame)
      requires |data| < TWO32 * TWO32
      ensures f.Fitting()
    {
      Frame(WithFin(op), FormOf(|data|), KeyAt(k), data)
    }

    function DrawnAfter(k: nat, frames: nat): nat {
      if isClient then k + 4 * frames else k
    }

    /** The bytes that a list of actions sends when `k` random bytes have been drawn before. */
    function Written(todo: seq<Action>, k: nat): seq<Byte> {
      if todo == [] then []
      else if IsFrame(todo[0]) then Wire(FrameOf(todo[0].op, todo[0].data, k)) + Written(todo[1..], DrawnAfter(k, 1))
      else Written(todo[1..], k)
    }

    /** `todo` done in state `e`. */
    function Doing(e: Endpoint, todo: seq<Action>): Endpoint {
      e.(actions := e.actions + todo, sent := e.sent + Written(todo, e.drawn),
         drawn := DrawnAfter(e.drawn, Sends(todo)), draining := e.draining || Draining in todo)
    }

    lemma OneAction(a: Action, k: nat)
      requires !a.Send?
      ensures Written([a], k) == [] && Sends([a]) == 0
    {
      var rest := [a][1..];
      assert rest == [];
    }

    lemma DoingSend(e: Endpoint, op: Byte, data: seq<Byte>)
      requires |data| < TWO32 * TWO32
      ensures var h := Header(WithFin(op), FormOf(|data|), KeyAt(e.drawn), |data|);
              var s := (e.sent + h) + data;
              && (isClient ==> 4 <= |e.sent| + |h|)
              && |Wire(FrameOf(op, data, e.drawn))| == |h| + |data|
              && Doing(e, [WsStream.Send(op, data)]) ==
                 e.(actions := e.actions + [WsStream.Send(op, data)], drawn := DrawnAfter(e.drawn, 1),
                    sent := if isClient then MaskedFrom(s, |e.sent| + |h|) else s)
    {
      var todo := [WsStream.Send(op, data)];
      hide MaskedFrom, Header, Wire;
      FrameAppended(e.sent, data, WithFin(op), FormOf(|data|), KeyAt(e.drawn));
      assert todo[1..] == [] && Draining !in todo;
      assert Written(todo, e.drawn) == Wire(FrameOf(op, data, e.drawn));
      assert Sends(todo) == 1;
    }

    /** The last `len` bytes of `s` as a frame. */
    function Wrapped(s: seq<Byte>, len: nat, op: Byte, k: nat): seq<Byte>
      requires len <= |s| && len < TWO32 * TWO32
    {
      var q := |s| - len;
      s[..q] + Wire(FrameOf(op, s[q..], k))
    }

    lemma WrappedIs(s: seq<Byte>, len: nat, op: Byte, k: nat)
      requires len <= |s| && len < TWO32 * TWO32
      ensures var q, h := |s| - len, Header(WithFin(op), FormOf(len), KeyAt(k), len);
              && (isClient ==> 4 <= q + |h|)
              && Wrapped(s, len, op, k) ==
                 if isClient then MaskedFrom(Inserted(s, q, h), q + |h|) else Inserted(s, q, h)
    {
      FrameMasked(s, |s| - len, WithFin(op), FormOf(len), KeyAt(k));
    }

    lemma {:induction false} WrittenAppend(a: seq<Action>, b: seq<Action>, k: nat)
      ensures Written(a + b, k) == Written(a, k) + Written(b, DrawnAfter(k, Sends(a)))
      decreases |a|
    {
      hide FrameOf, Wire;
      if a == [] {
        assert a + b == b;
      } else {
        assert (a + b)[1..] == a[1..] + b;
        WrittenAppend(a[1..], b, if IsFrame(a[0]) then DrawnAfter(k, 1) else k);
      }
    }

    lemma DoingTwice(e: Endpoint, a: seq<Action>, b: seq<Action>)
      ensures Doing(Doing(e, a), b) == Doing(e, a + b)
    {
      hide Written, Sends;
      WrittenAppend(a, b, e.drawn);
      SendsAppend(a, b);
      assert (e.actions + a) + b == e.actions + (a + b);
      var w, w' := Written(a, e.drawn), Written(b, DrawnAfter(e.drawn, Sends(a)));
      assert (e.sent + w) + w' == e.sent + (w + w');
    }

    lemma DoingNothing(e: Endpoint)
      ensures Doing(e, []) == e
    {
      assert e.actions + [] == e.actions && e.sent + [] == e.sent;
    }

    /** One turn of the loop in `ws_cb`: whether it goes on, and the state reached. */
    function Turned(e: Endpoint): (bool, Endpoint) {
      var m := ReadHeader(e.rest);
      if FrameLength(e.rest) == 0 then (false, e)
      else if Violation(isClient, m.flags, m.masked, m.dataLen) then
        (false, Doing(e, CLOSING).(rest := Processed(e.rest)))
      else
        var data := Payload(e.rest);
        var did := Doing(e, Handle(e.acc, m.flags, data));
        (true, did.(acc := Left(e.acc, m.flags, data), rest := e.rest[FrameLength(e.rest)..]))
    }

    /** A whole READ event. */
    function Received(e: Endpoint): Endpoint {
      var r := Consume(isClient, e.acc, e.rest);
      Doing(e, r.actions).(acc := r.acc, rest := r.rest)
    }

    /** READ events for one piece of the stream after the other. */
    function Fed(e: Endpoint, pieces: seq<seq<Byte>>): Endpoint {
      var r := Feed(isClient, e.acc, e.rest, pieces);
      Doing(e, r.actions).(acc := r.acc, rest := r.rest)
    }

    lemma FedMore(e: Endpoint, pieces: seq<seq<Byte>>)
      ensures Fed(e, pieces) ==
              if pieces == [] then e else Fed(Received(e.(rest := e.rest + pieces[0])), pieces[1..])
    {
      hide Consume, Written, Sends;
      if pieces == [] {
        DoingNothing(e);
      } else {
        var one := Consume(isClient, e.acc, e.rest + pieces[0]);
        DoingTwice(e, one.actions, Feed(isClient, one.acc, one.rest, pieces[1..]).actions);
      }
    }

    /** A new connection that receives a legal stream, in any pieces: every message once and in order,
        nothing kept, and on its way to the peer exactly the frames that answer control frames. */
    lemma LegalStreamReceived(items: seq<Item>, pieces: seq<seq<Byte>>)
      requires Legal(isClient, items) && AllOk(Frames(items))
      requires Join(pieces) == WireAll(Frames(items))
      ensures var e := Fed(NEW, pieces);
              && e.acc == [] && e.rest == [] && Messages(e.actions) == Delivered(items)
              && Rest(e.actions) == Answers(Frames(items)) && e.sent == Written(e.actions, 0)
    {
      hide Legal, Feed, Written, Sends, WireAll, Join, Messages, Rest;
      LegalStreamDelivered(isClient, items, pieces);
      var r := Feed(isClient, [], [], pieces);
      assert [] + r.actions == r.actions && [] + Written(r.actions, 0) == Written(r.actions, 0);
    }

    /** A turn on a frame that is no violation, step by step. */
    lemma TurnedWhole(e: Endpoint, m: WsMsg, data: seq<Byte>)
      requires FrameLength(e.rest) > 0 && m == ReadHeader(e.rest) && data == Payload(e.rest)
      requires !Violation(isClient, m.flags, m.masked, m.dataLen)
      ensures m.headerLen >= 2 && m.headerLen + m.dataLen == |e.rest[..FrameLength(e.rest)]|
      ensures
        var e1 := Doing(e.(rest := Processed(e.rest)), Dispatch(m.flags, data));
        var e2 := Settled(e1, m);
        Turned(e) == (true,
          if Final(m.flags) && Op(m.flags) == OP_CONTINUE && e2.acc != []
          then Doing(e2, [Msg(e2.acc[0], e2.acc[1..])]).(acc := []) else Doing(e2, []))
    {
      hide ReadHeader, Payload, Processed, Dispatch, Written, Sends, Kept, DrawnAfter;
      ProcessedParts(e.rest);
      var kept := Kept(e.acc, m.flags, data);
      var last := if Completes(e.acc, m.flags, data) then [Msg(kept[0], kept[1..])] else [];
      DoingTwice(e, Dispatch(m.flags, data), last);
    }

    lemma TurnedShrinks(e: Endpoint)
      ensures Turned(e).0 ==> |Turned(e).1.rest| < |e.rest|
    {
      hide ReadHeader, Payload, Processed, Handle, Left, Violation, Written, Sends;
    }

    lemma TurnedOnce(e: Endpoint)
      ensures Received(e) == if Turned(e).0 then Received(Turned(e).1) else Turned(e).1
    {
      hide Written, Handle, Left, Payload, Processed, ReadHeader, FrameLength, Consume, Violation, Sends;
      OneTurn(isClient, e.acc, e.rest);
      var (more, e') := Turned(e);
      if more {
        var m, data := ReadHeader(e.rest), Payload(e.rest);
        var did := Handle(e.acc, m.flags, data);
        DoingTwice(e, did, Consume(isClient, e'.acc, e'.rest).actions);
      } else {
        DoingNothing(e);
      }
    }
  }

  /** Kept and unread bytes, what was done, what was sent, random bytes drawn, draining or not. */
  datatype Endpoint = Endpoint(acc: seq<Byte>, rest: seq<Byte>, actions: seq<Action>, sent: seq<Byte>, drawn: nat,
                               draining: bool)

  const NEW := Endpoint([], [], [], [], 0, false)

  predicate IsFrame(a: Action) {
    a.Send? && |a.data| < TWO32 * TWO32
  }

  function Sends(todo: seq<Action>): nat {
    if todo == [] then 0 else (if IsFrame(todo[0]) then 1 else 0) + Sends(todo[1..])
  }

  lemma {:induction false} SendsAppend(a: seq<Action>, b: seq<Action>)
    ensures Sends(a + b) == Sends(a) + Sends(b)
    decreases |a|
  {
    if a == [] {
      assert a + b == b;
    } else {
      assert (a + b)[1..] == a[1..] + b;
      SendsAppend(a[1..], b);
    }
  }

  class Connection {
    const peer: Peer
    /** Random bytes drawn so far. */
    var drawn: nat
    const recv: IoBuf
    const send: IoBuf
    /** `pfn_data`: how much of `recv` belongs to an unfinished message. */
    var ofs: nat
    var draining: bool
    /** Events raised and frames sent. */
    var actions: seq<Action>

    ghost predicate Valid()
      reads this, recv, send
    {
      recv != send && recv.Valid() && send.Valid() && ofs <= recv.len
    }

    ghost function Now(): Endpoint
      requires Valid()
      reads this, recv, send
    {
      Endpoint(recv.Contents()[..ofs], recv.Contents()[ofs..], actions, send.Contents(), drawn, draining)
    }

    constructor (peer: Peer, align: nat)
      ensures Valid() && Now() == NEW && this.peer == peer && fresh(recv) && fresh(send)
    {
      this.peer, drawn := peer, 0;
      recv := new IoBuf(align);
      send := new IoBuf(align);
      ofs, draining, actions := 0, false, [];
    }

    /** `mkhdr`, with the header on the stack of the caller. */
    method Mkhdr(len: nat, op: Byte) returns (buf: seq<Byte>)
      requires len < TWO32 * TWO32
      modifies `drawn
      ensures buf == Header(WithFin(op), FormOf(len), peer.KeyAt(old(drawn)), len)
      ensures drawn == peer.DrawnAfter(old(drawn), 1)
    {
      buf := [WithFin(op)];
      if len < 126 {
        buf := buf + [len];
      } else if len < 65536 {
        buf := buf + [126] + [len / 256, len % 256];
      } else {
        buf := buf + [127] + (Be32(len / TWO32) + Be32(len % TWO32));
      }
      assert buf == Header(WithFin(op), FormOf(len), None, len);
      if peer.isClient {
        assert buf[1] < 128;
        buf := buf[1 := buf[1] + 128];
        buf := buf + peer.KeyAt(drawn).value;
        drawn := drawn + 4;
      }
    }

    /** `ws_mask`: the last `len` bytes of `send`, with the four bytes before them. */
    method Mask(len: nat)
      requires Valid() && (peer.isClient ==> len + 4 <= send.len)
      modifies send`buf
      ensures Valid()
      ensures send.Contents() ==
              if peer.isClient then MaskedFrom(old(send.Contents()), old(send.len) - len) else old(send.Contents())
    {
      if peer.isClient {
        var p := send.len - len;
        MaskedTail(send.buf, send.len, p);
        hide UnmaskedAt, MaskedFrom;
        Unmask(send, p, send.len);
      }
    }

    /** `ws_send`. */
    method SendFrame(data: seq<Byte>, op: Byte) returns (n: nat)
      requires Valid() && |data| < TWO32 * TWO32
      modifies this`drawn, this`actions, send
      ensures Valid() && Now() == peer.Doing(old(Now()), [WsStream.Send(op, data)])
      ensures n == |Wire(peer.FrameOf(op, data, old(drawn)))|
    {
      hide Peer.Doing, Peer.FrameOf, Peer.KeyAt, Wire, Header, MaskedFrom;
      ghost var before := Now();
      peer.DoingSend(before, op, data);
      var h := Mkhdr(|data|, op);
      send.Append(h);
      send.Append(data);
      actions := actions + [WsStream.Send(op, data)];
      assert send.len - |data| == |before.sent| + |h|;
      Mask(|data|);
      n := |h| + |data|;
    }

    /** Room for the header in front of the last `len` bytes of `send`, and the header there. */
    method Slide(len: nat, header: seq<Byte>)
      requires Valid() && len <= send.len
      modifies send
      ensures Valid() && send.Contents() == Inserted(old(send.Contents()), old(send.len) - len, header)
    {
      ghost var s := send.Contents();
      send.Open(send.len, |header|);
      ghost var gap := send.buf[|s|..|s| + |header|];
      var p := send.len - len;
      SlideSplice(send.buf, s, gap, len, header);
      hide Moved, Spliced, Inserted;
      send.buf := Moved(send.buf, p, p - |header|, len);
      send.buf := Spliced(send.buf, p - |header|, header);
    }

    /** `ws_wrap`: the last `len` bytes of `send` become the payload of a frame. */
    method Wrap(len: nat, op: Byte) returns (n: nat)
      requires Valid() && len <= send.len && len < TWO32 * TWO32
      modifies this`drawn, send
      ensures Valid() && send.Contents() == peer.Wrapped(old(send.Contents()), len, op, old(drawn))
      ensures n == send.len && drawn == peer.DrawnAfter(old(drawn), 1)
    {
      hide Peer.Wrapped, Peer.KeyAt, Peer.FrameOf, Header, MaskedFrom, Inserted, Wire;
      ghost var s := send.Contents();
      ghost var q := send.len - len;
      peer.WrappedIs(s, len, op, drawn);
      var h := Mkhdr(len, op);
      Slide(len, h);
      assert send.len - len == q + |h|;
      Mask(len);
      n := send.len;
    }

    method Raise(event: Action)
      requires Valid() && !event.Send? && !event.Draining?
      modifies `actions
      ensures Valid() && Now() == peer.Doing(old(Now()), [event])
    {
      actions := actions + [event];
      peer.OneAction(event, drawn);
    }

    /** A frame, then the draining state. */
    method Close(op: Byte, data: seq<Byte>)
      requires Valid() && |data| < TWO32 * TWO32
      modifies this`drawn, this`actions, this`draining, send
      ensures Valid() && Now() == peer.Doing(old(Now()), [WsStream.Send(op, data), Draining])
    {
      ghost var e := Now();
      var n := SendFrame(data, op);
      peer.OneAction(Draining, drawn);
      draining, actions := true, actions + [Draining];
      assert [WsStream.Send(op, data)] + [Draining] == [WsStream.Send(op, data), Draining];
      assert Now() == peer.Doing(peer.Doing(e, [WsStream.Send(op, data)]), [Draining]);
      peer.DoingTwice(e, [WsStream.Send(op, data)], [Draining]);
    }

    /** The switch of `ws_cb` on the opcode. */
    method Act(flags: Byte, data: seq<Byte>)
      requires Valid() && |data| < TWO32 * TWO32
      modifies this`drawn, this`actions, this`draining, send
      ensures Valid() && Now() == peer.Doing(old(Now()), Dispatch(flags, data))
    {
      ghost var e, did := Now(), Dispatch(flags, data);
      var op := Op(flags);
      assert did == Dispatch(flags, data);
      if op == OP_CONTINUE {
        Raise(Ctl(flags, data));
      } else if op == OP_PING {
        var n := SendFrame(data, OP_PONG);
        Raise(Ctl(flags, data));
        assert did == [WsStream.Send(OP_PONG, data)] + [Ctl(flags, data)];
        peer.DoingTwice(e, [WsStream.Send(OP_PONG, data)], [Ctl(flags, data)]);
      } else if op == OP_PONG {
        Raise(Ctl(flags, data));
      } else if op == OP_TEXT || op == OP_BINARY {
        if Final(flags) {
          Raise(Msg(flags, data));
        } else {
          peer.DoingNothing(e);
        }
      } else if op == OP_CLOSE {
        Raise(Ctl(flags, data));
        Close(OP_CLOSE, data);
        assert did == [Ctl(flags, data)] + [WsStream.Send(OP_CLOSE, data), Draining];
        peer.DoingTwice(e, [Ctl(flags, data)], [WsStream.Send(OP_CLOSE, data), Draining]);
      } else {
        Raise(UnknownOp(op));
      }
    }

    /** After a complete frame its header goes, and with it all of the frame if it is whole. */
    method Settle(msg: WsMsg)
      requires Valid() && msg.headerLen >= 2 && msg.headerLen + msg.dataLen <= |Now().rest|
               && Now().rest[0] == msg.flags
      modifies this`ofs, recv
      ensures Valid() && Now() == Settled(old(Now()), msg)
    {
      hide Settled, Cut;
      SettledIs(Now(), recv.Contents(), ofs, msg);
      CutFrame(msg);
    }

    /** The statements on `ofs`, `len` and `header_len`. */
    method CutFrame(msg: WsMsg)
      requires Valid() && msg.headerLen >= 2 && ofs + msg.headerLen + msg.dataLen <= recv.len
      modifies this`ofs, recv
      ensures recv.Valid() && (recv.Contents(), ofs) == Cut(old(recv.Contents()), old(ofs), msg)
    {
      hide Deleted;
      var final, op := Final(msg.flags), Op(msg.flags);
      var len, headerLen := msg.headerLen + msg.dataLen, msg.headerLen;
      if !final || op == OP_CONTINUE {
        var at := ofs;
        if op != OP_CONTINUE {
          at, len, headerLen := at + 1, len - 1, headerLen - 1;
        }
        recv.Del(at, headerLen);
        len := len - headerLen;
        ofs := at + len;
      }
      if final && op != OP_CONTINUE {
        recv.Del(ofs, len);
      }
    }

    method PayloadOf(msg: WsMsg) returns (data: seq<Byte>)
      requires Valid() && msg.headerLen + msg.dataLen <= |Now().rest|
      ensures data == Now().rest[msg.headerLen..msg.headerLen + msg.dataLen]
    {
      var s := ofs + msg.headerLen;
      assert recv.buf[ofs..ofs + (recv.len - ofs)] == Now().rest;
      PartOfPart(recv.buf, ofs, recv.len - ofs, msg.headerLen, msg.headerLen + msg.dataLen);
      data := recv.buf[s..s + msg.dataLen];
    }

    /** The last fragment of a message: what has been kept is delivered and goes. */
    method Complete(flags: Byte)
      requires Valid()
      modifies this`ofs, this`actions, recv
      ensures Valid()
      ensures var e := old(Now());
              Now() == if Final(flags) && Op(flags) == OP_CONTINUE && e.acc != []
                       then peer.Doing(e, [Msg(e.acc[0], e.acc[1..])]).(acc := []) else peer.Doing(e, [])
    {
      peer.DoingNothing(Now());
      if Final(flags) && Op(flags) == OP_CONTINUE && ofs > 0 {
        ghost var s := recv.Contents();
        assert s[..ofs][1..] == recv.buf[1..ofs];
        Raise(Msg(recv.buf[0], recv.buf[1..ofs]));
        hide Peer.Doing;
        recv.Del(0, ofs);
        assert recv.Contents() == s[ofs..];
        ofs := 0;
      }
    }

    /** `ws_process` at the unread bytes. */
    method ProcessUnread() returns (msg: WsMsg, n: nat)
      requires Valid()
      modifies recv`buf
      ensures Valid() && Now() == old(Now()).(rest := Processed(old(Now().rest)))
      ensures msg == ReadHeader(old(Now().rest)) && n == FrameLength(old(Now().rest))
    {
      hide Processed, Spliced, ReadHeader, FrameLength;
      ghost var b := Now().rest;
      var len := recv.len - ofs;
      assert b == recv.buf[ofs..ofs + len];
      SplicedEnd(recv.buf, ofs, Processed(b), recv.len);
      msg, n := Process(recv, ofs, len);
    }

    /** One turn of the loop in `ws_cb`. */
    method Turn() returns (more: bool)
      requires Valid()
      modifies this`ofs, this`drawn, this`actions, this`draining, recv, send
      ensures Valid() && (more, Now()) == peer.Turned(old(Now()))
    {
      ghost var e := Now();
      var msg, n := ProcessUnread();
      if n == 0 {
        return false;
      }
      if Violation(peer.isClient, msg.flags, msg.masked, msg.dataLen) {
        Close(OP_CLOSE, [1002 / 256, 1002 % 256]);
        return false;
      }
      ProcessedParts(e.rest);
      var data := PayloadOf(msg);
      peer.TurnedWhole(e, msg, data);
      hide *;
      Act(msg.flags, data);
      Settle(msg);
      Complete(msg.flags);
      more := true;
    }

    /** A READ event in `ws_cb`, after the handshake. */
    method OnRead()
      requires Valid()
      modifies this`ofs, this`drawn, this`actions, this`draining, recv, send
      ensures Valid() && Now() == peer.Received(old(Now()))
    {
      hide Peer.Turned, Peer.Received;
      var more := true;
      while more
        invariant Valid() && peer.Received(old(Now())) == if more then peer.Received(Now()) else Now()
        decreases more, |Now().rest|
      {
        peer.TurnedOnce(Now());
        peer.TurnedShrinks(Now());
        more := Turn();
      }
    }

    /** Bytes arrive from the socket, followed by the READ event. */
    method Receive(data: seq<Byte>)
      requires Valid()
      modifies this`ofs, this`drawn, this`actions, this`draining, recv, send
      ensures Valid() && Now() == peer.Received(old(Now()).(rest := old(Now()).rest + data))
    {
      ghost var e := Now();
      recv.Append(data);
      assert Now() == e.(rest := e.rest + data);
      OnRead();
    }

    /** The pieces of a stream as they arrive, one READ event for each. */
    method ReceiveAll(pieces: seq<seq<Byte>>)
      requires Valid()
      modifies this`ofs, this`drawn, this`actions, this`draining, recv, send
      ensures Valid() && Now() == peer.Fed(old(Now()), pieces)
    {
      hide Peer.Fed, Peer.Received;
      for i := 0 to |pieces|
        invariant Valid() && peer.Fed(old(Now()), pieces) == peer.Fed(Now(), pieces[i..])
      {
        peer.FedMore(Now(), pieces[i..]);
        assert pieces[i..][1..] == pieces[i + 1..];
        Receive(pieces[i]);
      }
      peer.FedMore(Now(), []);
    }
  }

  function Settled(e: Endpoint, msg: WsMsg): Endpoint
    requires msg.headerLen + msg.dataLen <= |e.rest|
  {
    var n := msg.headerLen + msg.dataLen;
    e.(acc := Kept(e.acc, msg.flags, e.rest[msg.headerLen..n]), rest := e.rest[n..])
  }

  lemma ProcessedParts(b: seq<Byte>)
    requires FrameLength(b) > 0
    ensures var h, n, r := ReadHeader(b).headerLen, FrameLength(b), Processed(b);
            r[0] == ReadHeader(b).flags && r[h..n] == Payload(b) && r[n..] == b[n..]
  {
    var h := ReadHeader(b).headerLen;
    assert b[0] == ReadHeader(b).flags;
    hide ReadHeader, Payload, Spliced;
    SplicedParts(b, h, Payload(b));
    assert Processed(b)[0] == Processed(b)[..h][0] == b[..h][0];
  }

  /** The three ways in which `ws_cb` cuts a frame out of its buffer, and the new `ofs`. */
  function Cut(s: seq<Byte>, ofs: nat, m: WsMsg): (seq<Byte>, nat)
    requires m.headerLen >= 2
  {
    if Op(m.flags) == OP_CONTINUE then (Deleted(s, ofs, m.headerLen), ofs + m.dataLen)
    else if Final(m.flags) then (Deleted(s, ofs, m.headerLen + m.dataLen), ofs)
    else (Deleted(s, ofs + 1, m.headerLen - 1), ofs + 1 + m.dataLen)
  }

  /** The part before the new `ofs` is what is kept, the part behind it is not read yet. */
  lemma SettledIs(e: Endpoint, s: seq<Byte>, ofs: nat, m: WsMsg)
    requires ofs + m.headerLen + m.dataLen <= |s| && m.headerLen >= 2 && s[ofs] == m.flags
    requires e.acc == s[..ofs] && e.rest == s[ofs..]
    ensures var (t, o) := Cut(s, ofs, m);
            o <= |t| && Settled(e, m) == e.(acc := t[..o], rest := t[o..])
  {
    hide Deleted, Op, Final;
    assert s == e.acc + e.rest && e.rest[0] == s[ofs];
    CutOnBothSides(e.acc, e.rest, m.headerLen, m.dataLen);
  }

  /** What is left before and behind the new `ofs`, in the three cases. */
  lemma CutOnBothSides(acc: seq<Byte>, rest: seq<Byte>, h: nat, n: nat)
    requires h >= 2 && h + n <= |rest|
    ensures var s, o, data, more := acc + rest, |acc|, rest[h..h + n], rest[h + n..];
            && Parted(Deleted(s, o, h), o + n, acc + data, more)
            && Parted(Deleted(s, o, h + n), o, acc, more)
            && Parted(Deleted(s, o + 1, h - 1), o + 1 + n, acc + ([rest[0]] + data), more)
  {
    CutParts(acc, rest, h, n);
    hide Deleted;
  }

  predicate Parted(t: seq<Byte>, o: nat, before: seq<Byte>, after: seq<Byte>) {
    o <= |t| && t[..o] == before && t[o..] == after
  }

  /** A header cut out, a whole frame cut out, or a header but for its first byte. */
  lemma CutParts(acc: seq<Byte>, rest: seq<Byte>, h: nat, n: nat)
    requires h >= 2 && h + n <= |rest|
    ensures var s, o, data, more := acc + rest, |acc|, rest[h..h + n], rest[h + n..];
            && Deleted(s, o, h) == acc + data + more
            && Deleted(s, o, h + n) == acc + more
            && Deleted(s, o + 1, h - 1) == acc + ([rest[0]] + data) + more
  {
    hide *;
    CutFront(acc, rest, 0, h, n);
    CutFront(acc, rest, 0, h + n, 0);
    CutFront(acc, rest, 1, h, n);
    NothingThere(acc, rest[h..h + n]);
    NothingThere(acc, rest[h + n..h + n]);
    assert rest[..1] == [rest[0]] && rest[..0] == [];
    assert acc + rest[h + n..h + n] == acc;
  }

  lemma NothingThere<T>(acc: seq<T>, data: seq<T>)
    ensures acc + ([] + data) == acc + data
  {
    assert [] + data == data;
  }

  lemma CutFront(acc: seq<Byte>, rest: seq<Byte>, a: nat, b: nat, n: nat)
    requires a <= b && b + n <= |rest|
    ensures Deleted(acc + rest, |acc| + a, b - a) == acc + (rest[..a] + rest[b..b + n]) + rest[b + n..]
  {
    CutBehind(acc, rest, a, b);
    hide *;
    assert rest[b..] == rest[b..b + n] + rest[b + n..];
    Regrouped(acc, rest[..a], rest[b..b + n], rest[b + n..]);
  }

  /** The bytes from `a` to `b` of the second part. */
  lemma CutBehind(acc: seq<Byte>, rest: seq<Byte>, a: nat, b: nat)
    requires a <= b <= |rest|
    ensures Deleted(acc + rest, |acc| + a, b - a) == acc + (rest[..a] + rest[b..])
  {
    var s, o := acc + rest, |acc|;
    assert s[..o + a] == acc + rest[..a] && s[o + b..] == rest[b..];
    DeletedInside(s, o + a, b - a);
    hide Deleted;
    assert (acc + rest[..a]) + rest[b..] == acc + (rest[..a] + rest[b..]);
  }

  lemma Regrouped<T>(a: seq<T>, b: seq<T>, c: seq<T>, d: seq<T>)
    ensures a + (b + (c + d)) == a + (b + c) + d
  {
  }

  lemma DeletedInside<T>(s: seq<T>, ofs: nat, n: nat)
    requires ofs + n <= |s|
    ensures Deleted(s, ofs, n) == s[..ofs] + s[ofs + n..]
  {
  }

  /** `s` from `p` on masked with the four bytes before `p`. */
  function MaskedFrom(s: seq<Byte>, p: nat): seq<Byte>
    requires 4 <= p <= |s|
  {
    s[..p] + Masked(s[p..], s[p - 4..p])
  }

  lemma MaskedTail(all: seq<Byte>, len: nat, p: nat)
    requires 4 <= p <= len <= |all|
    ensures UnmaskedAt(all, p, len)[..len] == MaskedFrom(all[..len], p)
  {
    hide Masked;
    var s := all[..len];
    assert all[p..len] == s[p..] && all[p - 4..p] == s[p - 4..p];
  }

  /** Header, payload, then masking with the key that ends the header: a frame. */
  lemma FrameMasked(s: seq<Byte>, q: nat, flags: Byte, form: Form, key: Option<Key>)
    requires q <= |s| && Fits(form, |s| - q)
    ensures var h := Header(flags, form, key, |s| - q);
            && (key.Some? ==> 4 <= q + |h|)
            && (if key.Some? then MaskedFrom(Inserted(s, q, h), q + |h|) else Inserted(s, q, h)) ==
               s[..q] + Wire(Frame(flags, form, key, s[q..]))
  {
    hide Masked, Inserted, Wire, Header, MaskedFrom, WirePayload;
    var data := s[q..];
    var h := Header(flags, form, key, |data|);
    var p := WirePayload(data, key);
    var t, start := Inserted(s, q, h), q + |h|;
    WireParts(flags, form, key, data);
    HeaderKey(flags, form, key, |data|);
    InsertedTail(s, q, h, p);
    if key.Some? {
      MaskedParts(t, start);
      assert t[start - 4..start] == key.value;
    }
  }

  lemma WireParts(flags: Byte, form: Form, key: Option<Key>, data: seq<Byte>)
    requires Fits(form, |data|)
    ensures Wire(Frame(flags, form, key, data)) == Header(flags, form, key, |data|) + WirePayload(data, key)
    ensures WirePayload(data, key) == if key.Some? then Masked(data, key.value) else data
  {
  }

  lemma MaskedParts(s: seq<Byte>, p: nat)
    requires 4 <= p <= |s|
    ensures MaskedFrom(s, p) == s[..p] + Masked(s[p..], s[p - 4..p])
  {
  }

  lemma FrameAppended(before: seq<Byte>, data: seq<Byte>, flags: Byte, form: Form, key: Option<Key>)
    requires Fits(form, |data|)
    ensures var h := Header(flags, form, key, |data|);
            && (key.Some? ==> 4 <= |before| + |h|)
            && (if key.Some? then MaskedFrom((before + h) + data, |before| + |h|) else (before + h) + data) ==
               before + Wire(Frame(flags, form, key, data))
  {
    hide Wire, MaskedFrom, Header;
    FrameMasked(before + data, |before|, flags, form, key);
    assert (before + data)[..|before|] == before && (before + data)[|before|..] == data;
  }

  lemma HeaderKey(flags: Byte, form: Form, key: Option<Key>, len: nat)
    requires Fits(form, len)
    ensures var h := Header(flags, form, key, len);
            key.Some? ==> |h| >= 4 && h[|h| - 4..] == key.value
  {
  }

  lemma InsertedTail<T>(s: seq<T>, q: nat, h: seq<T>, m: seq<T>)
    requires q <= |s|
    ensures var t, p := Inserted(s, q, h), q + |h|;
            && t[p..] == s[q..] && t[..p] + m == s[..q] + (h + m) && (|h| >= 4 ==> t[p - 4..p] == h[|h| - 4..])
            && (m == s[q..] ==> t == s[..q] + (h + m))
  {
    var t, p := Inserted(s, q, h), q + |h|;
    assert t[..p] == s[..q] + h;
    if |h| >= 4 {
      PartOfPart(t, 0, p, p - 4, p);
      assert (s[..q] + h)[p - 4..p] == h[|h| - 4..];
    }
  }

  /** The last `len` bytes of `s` moved up over a gap, the header put in front of them. */
  lemma SlideSplice<T>(all: seq<T>, s: seq<T>, gap: seq<T>, len: nat, h: seq<T>)
    requires len <= |s| && |gap| == |h| && |s| + |gap| <= |all| && all[..|s| + |gap|] == Inserted(s, |s|, gap)
    ensures var q := |s| - len;
            Spliced(Moved(all, q + |h|, q, len), q, h)[..|s| + |gap|] == Inserted(s, q, h)
  {
    var q := |s| - len;
    var m := Moved(all, q + |h|, q, len);
    SplicedFront(m, q, h, |s| + |gap|);
    MovedParts(all, q + |h|, q, len);
    PartOfPart(all, 0, |s| + |gap|, q, q + len);
    assert all[0..|s| + |gap|] == s + gap;
    hide Moved;
    assert all[q..q + len] == (s + gap)[q..q + len] == s[q..];
    assert m[..q] == m[..q + |h|][..q] == all[..q + |h|][..q] == (s + gap)[..q] == s[..q];
  }
}
