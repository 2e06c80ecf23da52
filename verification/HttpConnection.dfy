/** The loop of `http_cb`, on the receive buffer of an accepted connection. */
module HttpConnection {
  import opened Wrappers
  import opened Bytes
  import opened Sequences
  import opened IoBuf
  import opened HttpParse
  import opened Http
  import HttpScan
  import HttpChunk

  class Connection {
    const recv: IoBuf
    const handler: Handler
    var isResp: bool
    var isDraining: bool
    /** `error()` has been called. */
    var failed: bool
    var log: seq<Delivered>

    ghost predicate Valid()
      reads this, recv
    {
      recv.Valid()
    }

    /** The connection with the first `ofs` bytes taken as processed. */
    ghost function From(ofs: nat): Conn
      requires Valid() && ofs <= recv.len
      reads this, recv
    {
      Conn(recv.Contents()[ofs..], isResp, isDraining, failed, log)
    }

    constructor (handler: Handler, align: nat)
      ensures Valid() && From(0) == Http.NEW && this.handler == handler && fresh(recv)
    {
      this.handler, isResp, isDraining, failed, log := handler, false, false, false, [];
      recv := new IoBuf(align);
    }

    /** The message whose head `h` begins at `ofs`, and the bytes it takes. */
    method TakeBody(ofs: nat, b: Text, h: Head) returns (found: Found, used: nat)
      requires Valid() && ofs <= recv.len && b == recv.Contents()[ofs..] && Parse(b) == Parsed(h)
      modifies recv`buf
      ensures Valid() && recv.After() == old(recv.After()) && found == Next(b, recv.After())
      ensures found.Ready? ==> used == found.used && used <= |b| && recv.Contents()[ofs + used..] == b[used..]
      ensures !found.Ready? ==> recv.buf == old(recv.buf)
    {
      hide Parse, Coding, Closes, Same, Ascii, Next, GetHeader, Http10, HttpChunk.FindEnd, HttpChunk.Decoded;
      CodingIs(h);
      NextPlain(b, recv.After());
      used := 0;
      var te := None;
      if !Http10(h.proto) {
        te := HttpScan.FindHeader(h.headers, Ascii("Transfer-Encoding"));
      }
      if te.None? {
        found, used := TakePlain(b, h, recv.After());
        assert b[used..] == recv.Contents()[ofs + used..];
      } else if !Same(te.value, Ascii("chunked")) {
        found := BadCoding;
      } else {
        NextChunked(b, recv.After());
        found, used := TakeChunks(ofs, b, h);
      }
    }

    /** Non-chunked data: ready as soon as head and body are there, and cut into the two. */
    method TakePlain(b: Text, h: Head, ghost beyond: Byte) returns (found: Found, used: nat)
      requires Parse(b) == Parsed(h) && Coding(h).None?
      ensures found == Next(b, beyond) && used <= |b|
      ensures found.Ready? <==> |b| >= h.headLen + h.bodyLen
      ensures found.Ready? ==>
                var Delivered(head, body) := found.message;
                && head + body == b[..used] && |head| == h.headLen && |body| == h.bodyLen
                && used == found.used && found.close == Closes(h)
    {
      hide *;
      NextPlain(b, beyond);
      used := 0;
      if h.bodyLen > |b| - h.headLen {
        found := Waits;
      } else {
        used := h.headLen + h.bodyLen;
        found := Ready(Delivered(b[..h.headLen], b[h.headLen..used]), used, Closes(h));
      }
    }

    method TakeChunks(ofs: nat, b: Text, h: Head) returns (found: Found, used: nat)
      requires Valid() && ofs <= recv.len && b == recv.Contents()[ofs..] && h.headLen <= |b|
      modifies recv`buf
      ensures Valid() && recv.After() == old(recv.After())
      ensures match HttpChunk.FindEnd(b[h.headLen..], 0, old(recv.After()))
              case ScanMore => found == Waits && recv.buf == old(recv.buf)
              case ScanBad => found == BadChunk && recv.buf == old(recv.buf)
              case ScanEnd(_) =>
                var (data, e) := HttpChunk.Decoded(b[h.headLen..], 0, old(recv.After()));
                && used == h.headLen + e && ofs + used <= recv.len
                && found == Ready(Delivered(b[..h.headLen], data), used, Closes(h))
                && recv.Contents()[ofs + used..] == b[used..]
    {
      hide Closes, HttpChunk.FindEnd, HttpChunk.Decoded, HttpChunk.Relocated;
      var n := h.headLen;
      ghost var was := recv.buf;
      SuffixTwice(recv.Contents(), ofs, n);
      used := 0;
      var r := HttpChunk.Dechunk(recv, ofs + n);
      match r
      case Incomplete => found := Waits;
      case Invalid => found := BadChunk;
      case Body(len, consumed) =>
        ghost var data := HttpChunk.Decoded(b[n..], 0, old(recv.After())).0;
        HttpChunk.BodyThere(was, recv.buf, ofs + n, len, consumed, data);
        HttpChunk.TailKept(was, recv.buf, ofs + n, len, consumed, data, recv.len);
        used := n + consumed;
        SuffixTwice(b, n, consumed);
        found := Ready(Delivered(b[..n], recv.buf[ofs + n..ofs + n + len]), used, Closes(h));
    }

    /** One turn of the loop. `left` tells that the function returns at once, with nothing deleted. */
    method Turn(ofs: nat) returns (more: bool, ofs': nat, left: bool)
      requires Valid() && ofs <= recv.len
      modifies this`isResp, this`isDraining, this`failed, this`log, recv`buf, recv`len
      ensures Valid() && ofs' <= recv.len
      ensures (more, From(ofs')) == Turned(old(From(ofs)), handler, old(recv.After()))
      ensures more ==> recv.After() == old(recv.After())
      ensures left ==> !more && failed && ofs' == ofs
      ensures left == (Next(old(From(ofs)).recv, old(recv.After())) == BadCoding)
      ensures more || left ==> recv.len == old(recv.len)
    {
      hide Parse, Next;
      ghost var c, beyond := From(ofs), recv.After();
      NextIs(c.recv, beyond);
      var b := recv.Contents()[ofs..];
      var p := HttpScan.ParseMessage(b);
      if p.NotYet? {
        return false, ofs, false;
      }
      if p.Malformed? || p.TooManyHeaders? {
        recv.len, isDraining := 0, true;
        return false, 0, false;
      }
      var found, used := TakeBody(ofs, b, p.head);
      match found
      case Waits => return false, ofs, false;
      case BadCoding => failed := true; return false, ofs, true;
      case BadChunk => failed := true; return false, ofs, false;
      case Refused => assert false;
      case Ready(message, _, close) =>
        var answered := handler(|log|);
        log, isResp := log + [message], !answered;
        if answered && close {
          isDraining := true;
        }
        return !(answered && close), ofs + used, false;
    }

    /** `http_cb` on MG_EV_READ or MG_EV_POLL. What has been processed is deleted, but not after a transfer
        coding that is not understood. */
    method OnEvent()
      requires Valid()
      modifies this`isResp, this`isDraining, this`failed, this`log, recv
      ensures Valid()
      ensures var c, beyond := Serve(old(From(0)), handler, old(recv.After())), old(recv.After());
              && log == c.log && isResp == c.busy && isDraining == c.draining && failed == c.failed
              && (!old(failed) ==>
                    if failed && Next(c.recv, beyond) == BadCoding
                    then recv.len == old(recv.len) >= |c.recv| && recv.Contents()[recv.len - |c.recv|..] == c.recv
                    else recv.Contents() == c.recv)
    {
      hide Next;
      ghost var c0, beyond := From(0), recv.After();
      var ofs: nat := 0;
      var more, left := true, false;
      while more && !isResp && ofs < recv.len
        invariant Valid() && ofs <= recv.len
        invariant more ==> recv.After() == beyond && Serve(c0, handler, beyond) == Serve(From(ofs), handler, beyond)
        invariant more ==> failed == c0.failed
        invariant more || left ==> recv.len == old(recv.len)
        invariant !more ==> Serve(c0, handler, beyond) == From(ofs)
        invariant left ==> !more && failed && Next(From(ofs).recv, beyond) == BadCoding
        invariant !more && !left && failed && !c0.failed ==> Next(From(ofs).recv, beyond) == BadChunk
        decreases more, |From(ofs).recv|
      {
        more, ofs, left := Turn(ofs);
      }
      ghost var rest := recv.Contents()[ofs..];
      if left {
        return;
      }
      if ofs > 0 {
        recv.Del(0, ofs);
      }
      assert recv.Contents() == rest;
    }

    /** Bytes arrive from the socket, followed by the READ event. */
    method Receive(data: Text) returns (ghost beyond: Byte)
      requires Valid() && !failed
      modifies this`isResp, this`isDraining, this`failed, this`log, recv
      ensures Valid() && (!failed ==> From(0) == Http.Step(old(From(0)), handler, Arrives(data, beyond)))
    {
      ghost var c := From(0);
      recv.Append(data);
      assert From(0) == c.(recv := c.recv + data);
      beyond := recv.After();
      OnEvent();
    }
  }

  lemma CodingIs(h: Head)
    ensures Coding(h) == if Http10(h.proto) then None else GetHeader(h.headers, Ascii("Transfer-Encoding"))
  {
    hide Http10, GetHeader, Ascii;
  }

  lemma NextPlain(b: Text, beyond: Byte)
    requires Parse(b).Parsed?
    ensures var h := Parse(b).head;
            && h.headLen <= |b|
            && (Coding(h).None? ==>
                  Next(b, beyond) ==
                  if h.bodyLen > |b| - h.headLen then Waits
                  else Ready(Delivered(b[..h.headLen], b[h.headLen..h.headLen + h.bodyLen]), h.headLen + h.bodyLen,
                             Closes(h)))
            && (Coding(h).Some? && !Same(Coding(h).value, Ascii("chunked")) ==> Next(b, beyond) == BadCoding)
  {
    hide Parse, Coding, Closes, Same, Ascii;
  }

  lemma NextIs(b: Text, beyond: Byte)
    ensures Parse(b).NotYet? ==> Next(b, beyond) == Waits
    ensures Parse(b).Malformed? || Parse(b).TooManyHeaders? ==> Next(b, beyond) == Refused
    ensures Parse(b).Parsed? ==> Next(b, beyond) != Refused
  {
    hide Parse, Coding, Closes, Same, Ascii, HttpChunk.FindEnd, HttpChunk.Decoded;
  }
}
