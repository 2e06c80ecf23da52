/** RFC 6455 section 5.4: messages cut into fragments, with control frames in between, come out of
    `ws_cb` whole, once and in order. */
module WsMessages {
  import opened Bytes
  import opened WsFrame
  import opened WsStream

  /** A fragment after the first one, and the control frames sent before it. */
  datatype Piece = Piece(before: seq<Frame>, frame: Frame)

  /** A control frame by itself, or a message in one or more fragments. */
  datatype Item = Control(frame: Frame) | Message(first: Frame, more: seq<Piece>)

  predicate LegalFrame(isClient: bool, f: Frame) {
    f.Ok() && (isClient || f.key.Some?)
  }

  predicate LegalControl(isClient: bool, f: Frame) {
    LegalFrame(isClient, f) && Op(f.flags) in {OP_CLOSE, OP_PING, OP_PONG} && Final(f.flags) && |f.payload| <= 125
  }

  predicate LegalControls(isClient: bool, fs: seq<Frame>) {
    forall k :: 0 <= k < |fs| ==> LegalControl(isClient, fs[k])
  }

  /** The fragments after the first: continuation frames of which only the last is final. */
  predicate LegalPieces(isClient: bool, ps: seq<Piece>) {
    ps == [] ||
    (LegalControls(isClient, ps[0].before) && LegalFrame(isClient, ps[0].frame) &&
     Op(ps[0].frame.flags) == OP_CONTINUE && Final(ps[0].frame.flags) == (|ps| == 1) && LegalPieces(isClient, ps[1..]))
  }

  predicate LegalItem(isClient: bool, it: Item) {
    match it
    case Control(f) => LegalControl(isClient, f)
    case Message(first, more) =>
      LegalFrame(isClient, first) && Op(first.flags) in {OP_TEXT, OP_BINARY} &&
      Final(first.flags) == (more == []) && LegalPieces(isClient, more)
  }

  predicate Legal(isClient: bool, items: seq<Item>) {
    forall k :: 0 <= k < |items| ==> LegalItem(isClient, items[k])
  }

  // ----- on the wire

  function PieceFrames(ps: seq<Piece>): seq<Frame> {
    if ps == [] then [] else ps[0].before + ([ps[0].frame] + PieceFrames(ps[1..]))
  }

  function ItemFrames(it: Item): seq<Frame> {
    match it
    case Control(f) => [f]
    case Message(first, more) => [first] + PieceFrames(more)
  }

  function Frames(items: seq<Item>): seq<Frame> {
    if items == [] then [] else ItemFrames(items[0]) + Frames(items[1..])
  }

  // ----- what is to be delivered

  function PiecesData(ps: seq<Piece>): seq<Byte> {
    if ps == [] then [] else ps[0].frame.payload + PiecesData(ps[1..])
  }

  function Delivered(items: seq<Item>): seq<Action> {
    if items == [] then []
    else
      match items[0]
      case Control(_) => Delivered(items[1..])
      case Message(first, more) =>
        [Msg(first.flags, first.payload + PiecesData(more))] + Delivered(items[1..])
  }

  function Messages(actions: seq<Action>): seq<Action> {
    if actions == [] then []
    else (if actions[0].Msg? then [actions[0]] else []) + Messages(actions[1..])
  }

  /** Everything else that happens: replies and control events. */
  function Rest(actions: seq<Action>): seq<Action> {
    if actions == [] then []
    else (if actions[0].Msg? then [] else [actions[0]]) + Rest(actions[1..])
  }

  /** One answer for every ping, one for every close, and an event for every frame that is not the
      first of its message. */
  function Answers(fs: seq<Frame>): seq<Action> {
    if fs == [] then []
    else
      var f := fs[0];
      (if Op(f.flags) == OP_PING then [Send(OP_PONG, f.payload), Ctl(f.flags, f.payload)]
       else if Op(f.flags) == OP_CLOSE then [Ctl(f.flags, f.payload), Send(OP_CLOSE, f.payload), Draining]
       else if Op(f.flags) in {OP_PONG, OP_CONTINUE} then [Ctl(f.flags, f.payload)]
       else []) + Answers(fs[1..])
  }

  // ----- proofs

  lemma {:induction false} MessagesAppend(a: seq<Action>, b: seq<Action>)
    ensures Messages(a + b) == Messages(a) + Messages(b)
    decreases |a|
  {
    if a == [] {
      assert a + b == b;
    } else {
      MessagesAppend(a[1..], b);
      var head := if a[0].Msg? then [a[0]] else [];
      assert (a + b)[1..] == a[1..] + b && (a + b)[0] == a[0];
      assert Messages(a + b) == head + (Messages(a[1..]) + Messages(b));
    }
  }

  lemma {:induction false} RestAppend(a: seq<Action>, b: seq<Action>)
    ensures Rest(a + b) == Rest(a) + Rest(b)
    decreases |a|
  {
    if a == [] {
      assert a + b == b;
    } else {
      RestAppend(a[1..], b);
      var head := if a[0].Msg? then [] else [a[0]];
      assert (a + b)[1..] == a[1..] + b && (a + b)[0] == a[0];
      assert Rest(a + b) == head + (Rest(a[1..]) + Rest(b));
    }
  }

  lemma {:induction false} AnswersAppend(a: seq<Frame>, b: seq<Frame>)
    ensures Answers(a + b) == Answers(a) + Answers(b)
    decreases |a|
  {
    if a == [] {
      assert a + b == b;
    } else {
      assert (a + b)[1..] == a[1..] + b;
      AnswersAppend(a[1..], b);
    }
  }

  /** The effect of a run of frames on what is kept, on the messages and on everything else. */
  predicate Yields(acc: seq<Byte>, fs: seq<Frame>, left: seq<Byte>, messages: seq<Action>) {
    LeftAll(acc, fs) == left && Messages(Effects(acc, fs)) == messages && Rest(Effects(acc, fs)) == Answers(fs)
  }

  lemma YieldsNothing(acc: seq<Byte>)
    ensures Yields(acc, [], acc, [])
  {
  }

  lemma YieldsAppend(acc: seq<Byte>, a: seq<Frame>, mid: seq<Byte>, ma: seq<Action>, b: seq<Frame>, left: seq<Byte>,
                     mb: seq<Action>)
    requires Yields(acc, a, mid, ma) && Yields(mid, b, left, mb)
    ensures Yields(acc, a + b, left, ma + mb)
  {
    EffectsAppend(acc, a, b);
    MessagesAppend(Effects(acc, a), Effects(mid, b));
    RestAppend(Effects(acc, a), Effects(mid, b));
    AnswersAppend(a, b);
  }

  lemma One(acc: seq<Byte>, f: Frame)
    ensures Effects(acc, [f]) == Handle(acc, f.flags, f.payload)
    ensures LeftAll(acc, [f]) == Left(acc, f.flags, f.payload)
  {
    assert [f][1..] == [];
  }

  lemma Single(a: Action)
    ensures Messages([a]) == if a.Msg? then [a] else []
    ensures Rest([a]) == if a.Msg? then [] else [a]
  {
    assert [a][1..] == [];
  }

  lemma Pair(a: Action, b: Action)
    ensures Messages([a, b]) == Messages([a]) + Messages([b]) && Rest([a, b]) == Rest([a]) + Rest([b])
  {
    hide Messages, Rest;
    MessagesAppend([a], [b]);
    RestAppend([a], [b]);
    assert [a] + [b] == [a, b];
  }

  lemma Triple(a: Action, b: Action, c: Action)
    ensures Messages([a, b, c]) == Messages([a]) + Messages([b]) + Messages([c])
    ensures Rest([a, b, c]) == Rest([a]) + Rest([b]) + Rest([c])
  {
    hide Messages, Rest;
    Pair(a, b);
    MessagesAppend([a, b], [c]);
    RestAppend([a, b], [c]);
    assert [a, b] + [c] == [a, b, c];
  }

  lemma AnswersOne(f: Frame)
    ensures Answers([f]) ==
            if Op(f.flags) == OP_PING then [Send(OP_PONG, f.payload), Ctl(f.flags, f.payload)]
            else if Op(f.flags) == OP_CLOSE then [Ctl(f.flags, f.payload), Send(OP_CLOSE, f.payload), Draining]
            else if Op(f.flags) in {OP_PONG, OP_CONTINUE} then [Ctl(f.flags, f.payload)]
            else []
  {
    assert [f][1..] == [];
  }

  lemma ControlYields(isClient: bool, acc: seq<Byte>, f: Frame)
    requires LegalControl(isClient, f)
    ensures Yields(acc, [f], acc, [])
  {
    One(acc, f);
    AnswersOne(f);
    var event := Ctl(f.flags, f.payload);
    Single(event);
    hide Messages, Rest, Answers, Effects, LeftAll;
    if Op(f.flags) == OP_PING {
      var reply := Send(OP_PONG, f.payload);
      Single(reply);
      Pair(reply, event);
      assert Handle(acc, f.flags, f.payload) == [reply, event];
    } else if Op(f.flags) == OP_CLOSE {
      var reply := Send(OP_CLOSE, f.payload);
      Single(reply);
      Single(Draining);
      Triple(event, reply, Draining);
      assert Handle(acc, f.flags, f.payload) == [event, reply, Draining];
    } else {
      assert Handle(acc, f.flags, f.payload) == [event];
    }
  }

  lemma {:induction false} ControlsYield(isClient: bool, acc: seq<Byte>, fs: seq<Frame>)
    requires LegalControls(isClient, fs)
    ensures Yields(acc, fs, acc, [])
    decreases |fs|
  {
    hide Yields, LegalControl;
    if fs == [] {
      YieldsNothing(acc);
    } else {
      assert LegalControl(isClient, fs[0]) && LegalControls(isClient, fs[1..]);
      ControlYields(isClient, acc, fs[0]);
      ControlsYield(isClient, acc, fs[1..]);
      YieldsAppend(acc, [fs[0]], acc, [], fs[1..], acc, []);
      assert [fs[0]] + fs[1..] == fs;
    }
  }

  lemma FragmentYields(acc: seq<Byte>, f: Frame)
    requires acc != [] && Op(f.flags) == OP_CONTINUE
    ensures Final(f.flags) ==> Yields(acc, [f], [], [Msg(acc[0], acc[1..] + f.payload)])
    ensures !Final(f.flags) ==> Yields(acc, [f], acc + f.payload, [])
  {
    hide Messages, Rest, Answers, Effects, LeftAll, Handle, Left, Dispatch, Kept, Completes;
    One(acc, f);
    AnswersOne(f);
    var kept := acc + f.payload;
    var event, msg := Ctl(f.flags, f.payload), Msg(kept[0], kept[1..]);
    Single(event);
    Single(msg);
    Pair(event, msg);
    FragmentHandled(acc, f);
    assert kept[0] == acc[0] && kept[1..] == acc[1..] + f.payload;
  }

  lemma FragmentHandled(acc: seq<Byte>, f: Frame)
    requires acc != [] && Op(f.flags) == OP_CONTINUE
    ensures var kept := acc + f.payload;
            var event := Ctl(f.flags, f.payload);
            && Handle(acc, f.flags, f.payload) == (if Final(f.flags) then [event, Msg(kept[0], kept[1..])] else [event])
            && Left(acc, f.flags, f.payload) == (if Final(f.flags) then [] else kept)
            && Dispatch(f.flags, f.payload) == [event]
  {
  }

  lemma {:induction false} PiecesYield(isClient: bool, acc: seq<Byte>, ps: seq<Piece>)
    requires acc != [] && ps != [] && LegalPieces(isClient, ps)
    ensures Yields(acc, PieceFrames(ps), [], [Msg(acc[0], acc[1..] + PiecesData(ps))])
    decreases |ps|
  {
    hide Yields, LegalControl, LegalFrame;
    var f := ps[0].frame;
    ControlsYield(isClient, acc, ps[0].before);
    FragmentYields(acc, f);
    if |ps| == 1 {
      LastPiece(ps);
      var msgs := [Msg(acc[0], acc[1..] + f.payload)];
      YieldsAppend(acc, ps[0].before, acc, [], [f], [], msgs);
      assert [] + msgs == msgs;
    } else {
      var kept := acc + f.payload;
      PiecesYield(isClient, kept, ps[1..]);
      assert kept[1..] + PiecesData(ps[1..]) == acc[1..] + PiecesData(ps);
      var msgs := [Msg(acc[0], acc[1..] + PiecesData(ps))];
      YieldsAppend(acc, [f], kept, [], PieceFrames(ps[1..]), [], msgs);
      YieldsAppend(acc, ps[0].before, acc, [], [f] + PieceFrames(ps[1..]), [], [] + msgs);
      assert [] + ([] + msgs) == msgs;
    }
  }

  lemma LastPiece(ps: seq<Piece>)
    requires |ps| == 1
    ensures PieceFrames(ps) == ps[0].before + [ps[0].frame] && PiecesData(ps) == ps[0].frame.payload
  {
    assert ps[1..] == [] && [ps[0].frame] + [] == [ps[0].frame];
    assert ps[0].frame.payload + [] == ps[0].frame.payload;
  }

  lemma FirstYields(acc: seq<Byte>, f: Frame)
    requires Op(f.flags) in {OP_TEXT, OP_BINARY}
    ensures Final(f.flags) ==> Yields(acc, [f], acc, [Msg(f.flags, f.payload)])
    ensures !Final(f.flags) ==> Yields(acc, [f], acc + ([f.flags] + f.payload), [])
  {
    One(acc, f);
    AnswersOne(f);
    Single(Msg(f.flags, f.payload));
  }

  lemma ItemYields(isClient: bool, it: Item)
    requires LegalItem(isClient, it)
    ensures Yields([], ItemFrames(it), [], Delivered([it]))
  {
    hide Yields, LegalControl, LegalFrame;
    assert Delivered([it][1..]) == [];
    match it
    case Control(f) => ControlYields(isClient, [], f);
    case Message(first, more) =>
      FirstYields([], first);
      assert [] + ([first.flags] + first.payload) == [first.flags] + first.payload;
      if more == [] {
        assert [first] + PieceFrames(more) == [first] && first.payload + PiecesData(more) == first.payload;
        assert Delivered([it]) == [Msg(first.flags, first.payload)];
      } else {
        var acc := [first.flags] + first.payload;
        PiecesYield(isClient, acc, more);
        assert acc[1..] == first.payload;
        var msgs := [Msg(acc[0], acc[1..] + PiecesData(more))];
        YieldsAppend([], [first], acc, [], PieceFrames(more), [], msgs);
        assert [] + msgs == msgs;
        assert acc[1..] + PiecesData(more) == first.payload + PiecesData(more);
        assert Delivered([it]) == msgs;
      }
  }

  lemma {:induction false} ItemsYield(isClient: bool, items: seq<Item>)
    requires Legal(isClient, items)
    ensures Yields([], Frames(items), [], Delivered(items))
    decreases |items|
  {
    hide Yields, LegalItem, ItemFrames;
    if items == [] {
      YieldsNothing([]);
    } else {
      assert LegalItem(isClient, items[0]) && Legal(isClient, items[1..]);
      ItemYields(isClient, items[0]);
      ItemsYield(isClient, items[1..]);
      YieldsAppend([], ItemFrames(items[0]), [], Delivered([items[0]]), Frames(items[1..]), [], Delivered(items[1..]));
      assert Delivered([items[0]][1..]) == [];
      assert Delivered(items) == Delivered([items[0]]) + Delivered(items[1..]);
    }
  }

  predicate Good(isClient: bool, fs: seq<Frame>) {
    forall k :: 0 <= k < |fs| ==> fs[k].Ok() && !Bad(isClient, fs[k])
  }

  lemma {:induction false} PiecesGood(isClient: bool, ps: seq<Piece>)
    requires LegalPieces(isClient, ps)
    ensures Good(isClient, PieceFrames(ps))
    decreases |ps|
  {
    if ps != [] {
      PiecesGood(isClient, ps[1..]);
      assert forall k :: 0 <= k < |ps[0].before| ==> LegalControl(isClient, ps[0].before[k]);
    }
  }

  lemma {:induction false} LegalIsGood(isClient: bool, items: seq<Item>)
    requires Legal(isClient, items)
    ensures Good(isClient, Frames(items))
    decreases |items|
  {
    if items != [] {
      assert LegalItem(isClient, items[0]);
      LegalIsGood(isClient, items[1..]);
      if items[0].Message? {
        PiecesGood(isClient, items[0].more);
      }
    }
  }

  lemma StreamConsumed(isClient: bool, items: seq<Item>)
    requires Legal(isClient, items)
    ensures AllOk(Frames(items))
    ensures Consume(isClient, [], WireAll(Frames(items))) == Inbox([], [], Effects([], Frames(items)), false)
  {
    hide Legal, Bad, Consume;
    LegalIsGood(isClient, items);
    var fs := Frames(items);
    FramesConsumed(isClient, [], fs, []);
    NothingYet(isClient, LeftAll([], fs), []);
    assert WireAll(fs) + [] == WireAll(fs);
    ItemsYield(isClient, items);
  }

  /** However the bytes of a legal stream are cut into READ events: every message is delivered whole
      and once, in order, with the flags of its first frame; every control frame and every later
      fragment is announced, pings and closes are answered; and nothing is left in the buffer. */
  lemma LegalStreamDelivered(isClient: bool, items: seq<Item>, pieces: seq<seq<Byte>>)
    requires Legal(isClient, items) && AllOk(Frames(items))
    requires Join(pieces) == WireAll(Frames(items))
    ensures var r := Feed(isClient, [], [], pieces);
            && !r.broken && r.acc == [] && r.rest == []
            && Messages(r.actions) == Delivered(items) && Rest(r.actions) == Answers(Frames(items))
  {
    hide Legal, Consume, Feed, WireAll, Join, Frames, Messages, Rest, Answers, Delivered, Effects, LeftAll, AllOk;
    StreamConsumed(isClient, items);
    ItemsYield(isClient, items);
    assert FrameLength([]) == 0;
    hide FrameLength;
    CutsDoNotMatter(isClient, [], [], pieces);
    assert [] + Join(pieces) == Join(pieces);
  }

  // ----- where section 5.4 is not obeyed

  /** A final continuation frame with no message open: not refused, and when it carries data the
      first byte is taken for the flags of a message. */
  lemma StrayContinuation(isClient: bool, f: Frame)
    requires LegalFrame(isClient, f) && Op(f.flags) == OP_CONTINUE && Final(f.flags)
    ensures var r := Consume(isClient, [], Wire(f));
            && !r.broken && r.acc == [] && r.rest == []
            && r.actions == [Ctl(f.flags, f.payload)] +
                            if f.payload == [] then [] else [Msg(f.payload[0], f.payload[1..])]
  {
    FrameConsumed(isClient, [], f, []);
    hide Consume, Wire;
    assert Wire(f) + [] == Wire(f) && [] + f.payload == f.payload;
    NothingYet(isClient, [], []);
  }

  lemma NestedYields(f: Frame, g: Frame, h: Frame)
    requires Op(f.flags) in {OP_TEXT, OP_BINARY} && !Final(f.flags)
    requires Op(g.flags) in {OP_TEXT, OP_BINARY} && !Final(g.flags)
    requires Op(h.flags) == OP_CONTINUE && Final(h.flags)
    ensures Yields([], [f, g, h], [], [Msg(f.flags, f.payload + [g.flags] + g.payload + h.payload)])
  {
    hide Yields;
    var acc := [f.flags] + f.payload;
    var acc' := acc + ([g.flags] + g.payload);
    assert [] + ([f.flags] + f.payload) == acc;
    assert acc'[1..] + h.payload == f.payload + [g.flags] + g.payload + h.payload;
    FirstYields([], f);
    FirstYields(acc, g);
    FragmentYields(acc', h);
    var msgs := [Msg(f.flags, f.payload + [g.flags] + g.payload + h.payload)];
    YieldsAppend(acc, [g], acc', [], [h], [], msgs);
    YieldsAppend([], [f], acc, [], [g] + [h], [], [] + msgs);
    assert [] + ([] + msgs) == msgs;
    assert [f, g, h] == [f] + ([g] + [h]);
  }

  /** A new message begun inside an unfinished one: not refused, and its flags byte and payload are
      glued onto the unfinished message. */
  lemma NestedStart(isClient: bool, f: Frame, g: Frame, h: Frame)
    requires LegalFrame(isClient, f) && LegalFrame(isClient, g) && LegalFrame(isClient, h)
    requires Op(f.flags) in {OP_TEXT, OP_BINARY} && !Final(f.flags)
    requires Op(g.flags) in {OP_TEXT, OP_BINARY} && !Final(g.flags)
    requires Op(h.flags) == OP_CONTINUE && Final(h.flags)
    ensures AllOk([f, g, h])
    ensures var r := Consume(isClient, [], WireAll([f, g, h]));
            !r.broken && Messages(r.actions) == [Msg(f.flags, f.payload + [g.flags] + g.payload + h.payload)]
  {
    hide Consume, Wire, Effects;
    var fs := [f, g, h];
    NestedYields(f, g, h);
    FramesConsumed(isClient, [], fs, []);
    NothingYet(isClient, LeftAll([], fs), []);
    assert WireAll(fs) + [] == WireAll(fs) && Effects([], fs) + [] == Effects([], fs);
  }
}
