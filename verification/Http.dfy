/** What `http_cb` makes of a stream of pipelined requests, whatever pieces it arrives in and
    whenever the answers are finished. */
module Http {
  import opened Wrappers
  import opened Bytes
  import Fmt
  import opened HttpParse
  import HttpChunk

  /** A message as the handler sees it. */
  datatype Delivered = Delivered(head: Text, body: Text)

  /** The first request in a buffer. `close` tells of a header `Connection: close`. */
  datatype Found =
    | Waits
    | Refused                   // malformed or with too many headers
    | BadCoding                 // a transfer coding other than chunked
    | BadChunk
    | Ready(message: Delivered, used: nat, close: bool)

  /** The test meant to exempt HTTP/1.0. */
  predicate Http10(proto: Text) {
    |proto| > 8 && Begins(proto, Ascii("HTTP/1.0"))
  }

  predicate Closes(h: Head) {
    var v := GetHeader(h.headers, Ascii("Connection"));
    v.Some? && Same(v.value, Ascii("close"))
  }

  function Coding(h: Head): Option<Text> {
    if Http10(h.proto) then None else GetHeader(h.headers, Ascii("Transfer-Encoding"))
  }

  /** That test never succeeds on a request: what is left of the line is `HTTP/x.x`, eight bytes. */
  lemma Http10NeverExempts(b: Text)
    requires Parse(b).Parsed? && !Parse(b).head.isResponse
    ensures var h := Parse(b).head;
            !Http10(h.proto) && Coding(h) == GetHeader(h.headers, Ascii("Transfer-Encoding"))
  {
    hide Ascii, Begins, GetHeader, ReadHeaders, TokenEnd, SkipSpaces, SkipLine, IndexOf, BodyLen, RequestLen;
  }

  /** One turn of the loop in `http_cb`. `beyond` is the byte that happens to follow the buffered ones. */
  function Next(b: Text, beyond: Byte): (r: Found)
    ensures r.Ready? ==> 0 < r.used <= |b|
  {
    match Parse(b)
    case NotYet => Waits
    case Malformed => Refused
    case TooManyHeaders => Refused
    case Parsed(h) =>
      var n := h.headLen;
      var te := Coding(h);
      if te.None? then
        if h.bodyLen > |b| - n then Waits
        else Ready(Delivered(b[..n], b[n..n + h.bodyLen]), n + h.bodyLen, Closes(h))
      else if !Same(te.value, Ascii("chunked")) then BadCoding
      else
        match HttpChunk.FindEnd(b[n..], 0, beyond)
        case ScanMore => Waits
        case ScanBad => BadChunk
        case ScanEnd(_) =>
          var (data, e) := HttpChunk.Decoded(b[n..], 0, beyond);
          Ready(Delivered(b[..n], data), n + e, Closes(h))
  }

  // ----- the connection

  /** `busy` is `is_resp`; `failed` means that `error()` was called. */
  datatype Conn = Conn(recv: Text, busy: bool, draining: bool, failed: bool, log: seq<Delivered>)

  /** Whether the k-th message is answered before its handler returns. */
  type Handler = nat -> bool

  /** One turn of the loop in `http_cb`, while no answer is being generated and bytes are left: whether it
      goes on. */
  function Turned(c: Conn, handler: Handler, beyond: Byte): (r: (bool, Conn))
    ensures r.0 ==> |r.1.recv| < |c.recv|
  {
    match Next(c.recv, beyond)
    case Waits => (false, c)
    case Refused => (false, c.(recv := [], draining := true))
    case BadCoding => (false, c.(failed := true))
    case BadChunk => (false, c.(failed := true))
    case Ready(message, used, close) =>
      var answered := handler(|c.log|);
      var next := c.(recv := c.recv[used..], log := c.log + [message], busy := !answered);
      if answered && close then (false, next.(draining := true)) else (true, next)
  }

  /** That loop on a READ or POLL event of an accepted connection. */
  function Serve(c: Conn, handler: Handler, beyond: Byte): Conn
    decreases |c.recv|
  {
    if c.busy || c.recv == [] then c
    else
      var (more, next) := Turned(c, handler, beyond);
      if more then Serve(next, handler, beyond) else next
  }

  datatype Event =
    | Arrives(data: Text, beyond: Byte)      // bytes are read, MG_EV_READ
    | Poll(beyond: Byte)
    | Answered(beyond: Byte)                 // the handler has finished, `mgr_poll` raises MG_EV_READ

  function Step(c: Conn, handler: Handler, e: Event): Conn {
    match e
    case Arrives(data, beyond) => Serve(c.(recv := c.recv + data), handler, beyond)
    case Poll(beyond) => if !c.draining then Serve(c, handler, beyond) else c
    case Answered(beyond) => if c.busy then Serve(c.(busy := false), handler, beyond) else c
  }

  function Run(c: Conn, handler: Handler, es: seq<Event>): Conn
    decreases |es|
  {
    if es == [] then c else Run(Step(c, handler, es[0]), handler, es[1..])
  }

  function DataOf(e: Event): Text { if e.Arrives? then e.data else [] }

  function Received(es: seq<Event>): Text {
    if es == [] then [] else DataOf(es[0]) + Received(es[1..])
  }

  const NEW := Conn([], false, false, false, [])

  // ----- requests

  /** `close` tells of a header `Connection: close`. */
  datatype Request = Request(bytes: Text, message: Delivered, close: bool)

  /** Read as `message` whatever follows; a part of it waits, or fails as chunked coding can. */
  ghost predicate Readable(r: Request) {
    && r.bytes != []
    && (forall t: Text, beyond :: Next(r.bytes + t, beyond) == Ready(r.message, |r.bytes|, r.close))
    && (forall k, beyond :: 0 <= k < |r.bytes| ==> Next(r.bytes[..k], beyond) in {Waits, BadChunk})
  }

  /** Readable, and no part of it fails. */
  ghost predicate Clear(r: Request) {
    Readable(r) && forall k, beyond :: 0 <= k < |r.bytes| ==> Next(r.bytes[..k], beyond) == Waits
  }

  ghost predicate AllReadable(rs: seq<Request>) {
    forall k :: 0 <= k < |rs| ==> Readable(rs[k])
  }

  function Stream(rs: seq<Request>): Text {
    if rs == [] then [] else rs[0].bytes + Stream(rs[1..])
  }

  function Expected(rs: seq<Request>): seq<Delivered> {
    seq(|rs|, k requires 0 <= k < |rs| => rs[k].message)
  }

  /** One of these requests says close and is answered before its handler returns; `n` come before them. */
  predicate Ends(rs: seq<Request>, handler: Handler, n: nat)
    decreases |rs|
  {
    rs != [] && ((rs[0].close && handler(n)) || Ends(rs[1..], handler, n + 1))
  }

  lemma {:induction false} EndsAppend(a: seq<Request>, b: seq<Request>, handler: Handler, n: nat)
    ensures Ends(a + b, handler, n) == (Ends(a, handler, n) || Ends(b, handler, n + |a|))
    decreases |a|
  {
    if a == [] {
      assert a + b == b;
    } else {
      assert (a + b)[1..] == a[1..] + b;
      EndsAppend(a[1..], b, handler, n + 1);
    }
  }

  lemma {:induction false} EndsIff(rs: seq<Request>, handler: Handler, n: nat)
    ensures Ends(rs, handler, n) <==> exists i :: 0 <= i < |rs| && rs[i].close && handler(n + i)
    decreases |rs|
  {
    if rs != [] {
      EndsIff(rs[1..], handler, n + 1);
      if i :| 0 <= i < |rs| && rs[i].close && handler(n + i) {
        assert i > 0 ==> rs[1..][i - 1].close && handler(n + 1 + (i - 1));
      }
      if j :| 0 <= j < |rs[1..]| && rs[1..][j].close && handler(n + 1 + j) {
        assert rs[j + 1].close && handler(n + (j + 1));
      }
    }
  }

  /** The first `n` bytes of the stream end inside its request `j`, in a place where `skip_chunk` fails. */
  predicate BreaksIn(rs: seq<Request>, j: nat, n: nat, beyond: Byte)
    requires j < |rs|
  {
    var start := |Stream(rs[..j])|;
    start <= n < start + |rs[j].bytes| && Next(rs[j].bytes[..n - start], beyond) == BadChunk
  }

  predicate Breaks(rs: seq<Request>, n: nat, beyond: Byte) {
    exists j :: 0 <= j < |rs| && BreaksIn(rs, j, n, beyond)
  }

  // ----- serving a stream

  /** The bytes of `recv` are the beginning of what `rs` still has to send. */
  predicate Ahead(recv: Text, rs: seq<Request>) {
    recv <= Stream(rs)
  }

  lemma HeadOfStream(recv: Text, rs: seq<Request>)
    requires Ahead(recv, rs) && rs != []
    ensures |recv| < |rs[0].bytes| ==> recv == rs[0].bytes[..|recv|]
    ensures |recv| >= |rs[0].bytes| ==>
              recv == rs[0].bytes + recv[|rs[0].bytes|..] && Ahead(recv[|rs[0].bytes|..], rs[1..])
  {
    var r, more := rs[0].bytes, Stream(rs[1..]);
    var s := r + more;
    assert s == Stream(rs) && recv == s[..|recv|];
    if |recv| >= |r| {
      assert recv[..|r|] == s[..|r|] == r;
      assert recv[|r|..] == s[|r|..][..|recv| - |r|] && s[|r|..] == more;
    } else {
      assert recv == r[..|recv|];
    }
  }

  /** What serving does to a connection that has the beginning of `rs` in its buffer: it delivers the
      first `k` requests and keeps the rest. */
  ghost predicate Delivers(c: Conn, c': Conn, handler: Handler, rs: seq<Request>, k: nat) {
    && k <= |rs| && |Stream(rs[..k])| <= |c.recv|
    && c'.log == c.log + Expected(rs[..k]) && c'.recv == c.recv[|Stream(rs[..k])|..]
    && c'.draining == (c.draining || Ends(rs[..k], handler, |c.log|))
    && Ahead(c'.recv, rs[k..])
  }

  /** Nothing that could be delivered is left. */
  predicate Settled(c: Conn, rs: seq<Request>) {
    c.busy || c.draining || rs == [] || |c.recv| < |rs[0].bytes|
  }

  /** If `error()` has been called, then for a part of a request. */
  predicate FailsOnly(c: Conn, c': Conn, rs: seq<Request>, beyond: Byte) {
    c'.failed ==> c.failed || (rs != [] && |c'.recv| < |rs[0].bytes| && Next(c'.recv, beyond) == BadChunk)
  }

  lemma DeliversNothing(c: Conn, c': Conn, handler: Handler, rs: seq<Request>)
    requires Ahead(c.recv, rs) && c' == c.(failed := c'.failed)
    ensures Delivers(c, c', handler, rs, 0) && rs[0..] == rs
  {
    assert rs[..0] == [] && rs[0..] == rs && c.log + Expected([]) == c.log;
  }

  lemma DeliversOneMore(c: Conn, next: Conn, c': Conn, handler: Handler, rs: seq<Request>, k: nat)
    requires rs != [] && |rs[0].bytes| <= |c.recv| && next.recv == c.recv[|rs[0].bytes|..]
    requires next.log == c.log + [rs[0].message]
    requires next.draining == (c.draining || (rs[0].close && handler(|c.log|)))
    requires Delivers(next, c', handler, rs[1..], k)
    ensures Delivers(c, c', handler, rs, k + 1) && rs[k + 1..] == rs[1..][k..]
  {
    var r, some := rs[0], rs[1..][..k];
    assert rs[..k + 1] == [r] + some && rs[..k + 1][1..] == some;
    assert Stream(rs[..k + 1]) == r.bytes + Stream(some);
    assert Ends(rs[..k + 1], handler, |c.log|) == ((r.close && handler(|c.log|)) || Ends(some, handler, |c.log| + 1));
    hide Stream, Ends;
    assert Expected(rs[..k + 1]) == [r.message] + Expected(some);
    assert c.log + ([r.message] + Expected(some)) == (c.log + [r.message]) + Expected(some);
    assert rs[k + 1..] == rs[1..][k..];
    var n := |Stream(some)|;
    assert c.recv[|r.bytes|..][n..] == c.recv[|r.bytes| + n..];
  }

  lemma ServeIdle(c: Conn, handler: Handler, beyond: Byte)
    ensures c.busy || c.recv == [] ==> Serve(c, handler, beyond) == c
  {
  }

  /** The connection once a message has been taken from it. */
  function Taken(c: Conn, handler: Handler, r: Request): Conn
    requires |r.bytes| <= |c.recv|
  {
    var answered := handler(|c.log|);
    c.(recv := c.recv[|r.bytes|..], log := c.log + [r.message], busy := !answered,
       draining := c.draining || (answered && r.close))
  }

  lemma ServeMore(c: Conn, handler: Handler, beyond: Byte, r: Request)
    requires !c.busy && c.recv != [] && Next(c.recv, beyond) == Ready(r.message, |r.bytes|, r.close)
    ensures |r.bytes| <= |c.recv|
    ensures Serve(c, handler, beyond) ==
            if r.close && handler(|c.log|) then Taken(c, handler, r)
            else Serve(Taken(c, handler, r), handler, beyond)
  {
    hide Next;
  }

  lemma ServePart(c: Conn, handler: Handler, beyond: Byte)
    requires Next(c.recv, beyond) in {Waits, BadChunk}
    ensures var c' := Serve(c, handler, beyond);
            c' == c.(failed := c'.failed) && (c'.failed ==> c.failed || Next(c.recv, beyond) == BadChunk)
  {
    hide Next;
  }

  lemma {:induction false} Served(c: Conn, handler: Handler, beyond: Byte, rs: seq<Request>) returns (k: nat)
    requires AllReadable(rs) && Ahead(c.recv, rs)
    ensures var c' := Serve(c, handler, beyond);
            Delivers(c, c', handler, rs, k) && Settled(c', rs[k..]) && FailsOnly(c, c', rs[k..], beyond)
    ensures c.busy ==> k == 0 && Serve(c, handler, beyond) == c
    decreases |rs|
  {
    hide Next, Delivers, Serve, Turned, Taken;
    ServeIdle(c, handler, beyond);
    if c.busy || c.recv == [] {
      k := 0;
      DeliversNothing(c, c, handler, rs);
      if rs != [] {
        assert Readable(rs[0]);
      }
    } else {
      StreamNotEmpty(c.recv, rs);
      var r := rs[0];
      HeadOfStream(c.recv, rs);
      assert Readable(r);
      if |c.recv| < |r.bytes| {
        k := 0;
        ServePart(c, handler, beyond);
        DeliversNothing(c, Serve(c, handler, beyond), handler, rs);
      } else {
        assert Next(c.recv, beyond) == Ready(r.message, |r.bytes|, r.close);
        ServeMore(c, handler, beyond, r);
        assert AllReadable(rs[1..]);
        k := ServedRest(c, handler, beyond, rs);
      }
    }
  }

  /** The first request is taken, and the others if the loop goes on. */
  lemma {:induction false} ServedRest(c: Conn, handler: Handler, beyond: Byte, rs: seq<Request>) returns (k: nat)
    requires rs != [] && |rs[0].bytes| <= |c.recv| && !c.busy
    requires AllReadable(rs[1..]) && Ahead(c.recv[|rs[0].bytes|..], rs[1..])
    requires Serve(c, handler, beyond) ==
             if rs[0].close && handler(|c.log|) then Taken(c, handler, rs[0])
             else Serve(Taken(c, handler, rs[0]), handler, beyond)
    ensures var c' := Serve(c, handler, beyond);
            Delivers(c, c', handler, rs, k) && Settled(c', rs[k..]) && FailsOnly(c, c', rs[k..], beyond)
    decreases |rs|, 0
  {
    hide Next, Delivers, Serve, Turned, Ahead;
    var next := Taken(c, handler, rs[0]);
    if rs[0].close && handler(|c.log|) {
      k := 0;
      DeliversNothing(next, next, handler, rs[1..]);
    } else {
      k := Served(next, handler, beyond, rs[1..]);
    }
    DeliversOneMore(c, next, Serve(c, handler, beyond), handler, rs, k);
    k := k + 1;
  }

  lemma StreamNotEmpty(recv: Text, rs: seq<Request>)
    requires recv != [] && Ahead(recv, rs)
    ensures rs != []
  {
  }

  /** After any events: the first `k` requests have been delivered, and their bytes are gone. */
  ghost predicate Tiled(c: Conn, handler: Handler, received: Text, rs: seq<Request>, k: nat) {
    && k <= |rs| && c.draining == Ends(rs[..k], handler, 0)
    && c.log == Expected(rs[..k]) && Stream(rs[..k]) + c.recv == received
    && Ahead(c.recv, rs[k..]) && Settled(c, rs[k..])
  }

  lemma {:induction false} StreamAppend(a: seq<Request>, b: seq<Request>)
    ensures Stream(a + b) == Stream(a) + Stream(b) && Expected(a + b) == Expected(a) + Expected(b)
    decreases |a|
  {
    if a == [] {
      assert a + b == b;
    } else {
      assert (a + b)[1..] == a[1..] + b;
      StreamAppend(a[1..], b);
    }
  }

  lemma TiledStep(c: Conn, start: Conn, c': Conn, handler: Handler, received: Text, data: Text, rs: seq<Request>,
                  k: nat, m: nat)
    requires Tiled(c, handler, received, rs, k) && start == c.(recv := c.recv + data, busy := start.busy)
    requires Ahead(start.recv, rs[k..]) && Delivers(start, c', handler, rs[k..], m) && Settled(c', rs[k..][m..])
    ensures Tiled(c', handler, received + data, rs, k + m)
  {
    hide Settled, Ahead, Ends, Stream;
    var a, b := rs[..k], rs[k..][..m];
    assert rs[..k + m] == a + b && rs[k + m..] == rs[k..][m..];
    StreamAppend(a, b);
    EndsAppend(a, b, handler, 0);
    var n := |Stream(b)|;
    StreamPrefix(start.recv, rs[k..], m);
    Retiled(Stream(a), Stream(b), c.recv, data, received, c'.recv);
    assert Expected(a) + Expected(b) == c'.log;
  }

  lemma Retiled(a: Text, b: Text, recv: Text, data: Text, received: Text, kept: Text)
    requires a + recv == received && |b| <= |recv + data|
    requires (recv + data)[..|b|] == b && kept == (recv + data)[|b|..]
    ensures (a + b) + kept == received + data
  {
    assert recv + data == b + kept;
    assert a + (recv + data) == received + data;
    assert (a + b) + kept == a + (b + kept);
  }

  lemma StreamPrefix(recv: Text, rs: seq<Request>, m: nat)
    requires m <= |rs| && |Stream(rs[..m])| <= |recv| && Ahead(recv, rs)
    ensures recv[..|Stream(rs[..m])|] == Stream(rs[..m])
  {
    StreamSplit(rs, m);
  }

  /** Bytes added to what is buffered are bytes of the same stream. */
  lemma StillAhead(c: Conn, handler: Handler, received: Text, data: Text, rs: seq<Request>, k: nat)
    requires Tiled(c, handler, received, rs, k) && received + data <= Stream(rs)
    ensures Ahead(c.recv + data, rs[k..])
  {
    hide Settled, Expected, Ends;
    StreamSplit(rs, k);
    TailAhead(Stream(rs[..k]), c.recv, data, Stream(rs[k..]), received, Stream(rs));
  }

  lemma StreamSplit(rs: seq<Request>, k: nat)
    requires k <= |rs|
    ensures Stream(rs) == Stream(rs[..k]) + Stream(rs[k..])
  {
    StreamAppend(rs[..k], rs[k..]);
    assert rs == rs[..k] + rs[k..];
  }

  lemma TailAhead(a: Text, x: Text, data: Text, b: Text, received: Text, all: Text)
    requires a + x == received && received + data <= all && all == a + b
    ensures x + data <= b
  {
    assert received + data == a + (x + data);
    TailIsPrefix(a, x + data, b);
  }

  lemma TailIsPrefix(a: Text, x: Text, b: Text)
    requires a + x <= a + b
    ensures x <= b
  {
    assert (a + x)[|a|..] == x && (a + b)[|a|..] == b;
    assert (a + b)[..|a| + |x|] == a + x;
    assert b[..|x|] == (a + b)[|a|..][..|x|] == (a + b)[..|a| + |x|][|a|..];
  }

  /** Some event has left the buffer with a cut at which `skip_chunk` fails; `received` came before. */
  predicate BrokenOff(received: Text, es: seq<Event>, rs: seq<Request>) {
    exists i :: 0 <= i < |es| && Breaks(rs, |received| + |Received(es[..i + 1])|, es[i].beyond)
  }

  lemma {:induction false} RunTiles(c: Conn, handler: Handler, es: seq<Event>, received: Text, rs: seq<Request>, k: nat)
    returns (n: nat)
    requires AllReadable(rs) && Tiled(c, handler, received, rs, k) && received + Received(es) <= Stream(rs)
    ensures k <= n && Tiled(Run(c, handler, es), handler, received + Received(es), rs, n)
    ensures Run(c, handler, es).failed ==> c.failed || BrokenOff(received, es, rs)
    decreases |es|
  {
    hide Tiled, Readable, Serve, Step, Breaks;
    if es == [] {
      n := k;
      assert received + Received(es) == received;
    } else {
      var data := DataOf(es[0]);
      assert received + Received(es) == (received + data) + Received(es[1..]);
      var m := EventTiles(c, handler, es[0], received, data, rs, k);
      var next := Step(c, handler, es[0]);
      n := RunTiles(next, handler, es[1..], received + data, rs, k + m);
      if Run(c, handler, es).failed && !c.failed {
        BrokenOffMore(received, data, es, rs, next.failed);
      }
    }
  }

  lemma BrokenOffMore(received: Text, data: Text, es: seq<Event>, rs: seq<Request>, now: bool)
    requires es != [] && data == DataOf(es[0])
    requires if now then Breaks(rs, |received + data|, es[0].beyond) else BrokenOff(received + data, es[1..], rs)
    ensures BrokenOff(received, es, rs)
  {
    hide Breaks;
    if now {
      assert es[..1][1..] == [] && Received(es[..1]) == data + [];
      assert Breaks(rs, |received| + |Received(es[..0 + 1])|, es[0].beyond);
    } else {
      var i :| 0 <= i < |es[1..]| &&
               Breaks(rs, |received + data| + |Received(es[1..][..i + 1])|, es[1..][i].beyond);
      assert es[..i + 2][1..] == es[1..][..i + 1] && Received(es[..i + 2]) == data + Received(es[1..][..i + 1]);
      assert Breaks(rs, |received| + |Received(es[..(i + 1) + 1])|, es[i + 1].beyond);
    }
  }

  lemma EventTiles(c: Conn, handler: Handler, e: Event, received: Text, data: Text, rs: seq<Request>, k: nat)
    returns (m: nat)
    requires AllReadable(rs) && Tiled(c, handler, received, rs, k) && data == DataOf(e)
    requires received + data <= Stream(rs)
    ensures k + m <= |rs| && Tiled(Step(c, handler, e), handler, received + data, rs, k + m)
    ensures c.busy && !e.Answered? ==> m == 0
    ensures Step(c, handler, e).failed ==> c.failed || Breaks(rs, |received + data|, e.beyond)
  {
    hide Readable, Serve, Next, Breaks;
    StillAhead(c, handler, received, data, rs, k);
    assert c.recv + [] == c.recv;
    var start := c.(recv := c.recv + data, busy := c.busy && !e.Answered?);
    if Step(c, handler, e) == c && data == [] {
      m := 0;
      assert received + data == received;
    } else {
      assert AllReadable(rs[k..]);
      m := Served(start, handler, e.beyond, rs[k..]);
      var c' := Serve(start, handler, e.beyond);
      TiledStep(c, start, c', handler, received, data, rs, k, m);
      assert rs[k..][m..] == rs[k + m..];
      if c'.failed && !c.failed {
        BreaksHere(c', handler, received + data, rs, k + m, e.beyond);
      }
    }
  }

  lemma BreaksHere(c: Conn, handler: Handler, received: Text, rs: seq<Request>, k: nat, beyond: Byte)
    requires Tiled(c, handler, received, rs, k) && k < |rs| && |c.recv| < |rs[k].bytes|
    requires Next(c.recv, beyond) == BadChunk
    ensures Breaks(rs, |received|, beyond)
  {
    hide Next;
    assert rs[k..][0] == rs[k];
    HeadOfStream(c.recv, rs[k..]);
    assert BreaksIn(rs, k, |received|, beyond);
  }

  /** For every stream of readable requests, every cut into READ events, any POLL events and any times at
      which answers are finished: each request is delivered once, in order; the bytes consumed are exactly
      those of the delivered requests; what is left is not yet a request, unless an answer is still being
      generated or the connection is draining; it drains exactly when a delivered request that says close has
      been answered at once; and it fails only when the bytes of some event end where `skip_chunk` fails. */
  lemma Pipelined(handler: Handler, es: seq<Event>, rs: seq<Request>) returns (k: nat)
    requires AllReadable(rs) && Received(es) <= Stream(rs)
    ensures k <= |rs|
    ensures var c := Run(NEW, handler, es);
            && c.log == Expected(rs[..k]) && Stream(rs[..k]) + c.recv == Received(es)
            && (c.busy || c.draining || k == |rs| || |c.recv| < |rs[k].bytes|)
            && (c.draining <==> exists i :: 0 <= i < k && rs[i].close && handler(i))
            && (c.failed ==> exists i :: 0 <= i < |es| && Breaks(rs, |Received(es[..i + 1])|, es[i].beyond))
  {
    hide Breaks, Readable;
    assert [] + Received(es) == Received(es);
    assert Stream(rs[..0]) + [] == [] && rs[0..] == rs;
    assert Tiled(NEW, handler, [], rs, 0) by {
      if rs != [] {
        ReadableNotEmpty(rs[0]);
      }
    }
    k := RunTiles(NEW, handler, es, [], rs, 0);
    EndsIff(rs[..k], handler, 0);
    assert forall i :: 0 <= i < k ==> rs[..k][i] == rs[i];
  }

  lemma ReadableNotEmpty(r: Request)
    requires Readable(r)
    ensures r.bytes != []
  {
  }

  /** Requests no part of which fails never make the connection fail. */
  lemma ClearNeverFails(handler: Handler, es: seq<Event>, rs: seq<Request>)
    requires (forall k :: 0 <= k < |rs| ==> Clear(rs[k])) && Received(es) <= Stream(rs)
    ensures !Run(NEW, handler, es).failed
  {
    hide Next, Run, Received, Stream, Readable;
    assert AllReadable(rs) by {
      assert forall k :: 0 <= k < |rs| ==> Clear(rs[k]);
    }
    var k := Pipelined(handler, es, rs);
  }

  /** A request with `t` behind it is taken; unless it is answered at once and does not say close, the loop
      ends there. */
  lemma FirstServed(c: Conn, handler: Handler, r: Request, t: Text, x: Byte)
    requires Readable(r) && !c.busy && c.recv == r.bytes + t
    ensures var c' := c.(recv := t, log := c.log + [r.message]);
            && (!handler(|c.log|) ==> Serve(c, handler, x) == c'.(busy := true))
            && (handler(|c.log|) && r.close ==> Serve(c, handler, x) == c'.(draining := true))
            && (handler(|c.log|) && !r.close && t == [] ==> Serve(c, handler, x) == c')
  {
    assert c.recv[|r.bytes|..] == t && Next(c.recv, x) == Ready(r.message, |r.bytes|, r.close);
    hide Next, Readable, Serve;
    ServeMore(c, handler, x, r);
    ServeIdle(Taken(c, handler, r), handler, x);
  }

  lemma RunMore(c: Conn, handler: Handler, es: seq<Event>)
    ensures Run(c, handler, []) == c
    ensures es != [] ==> Run(c, handler, es) == Run(Step(c, handler, es[0]), handler, es[1..])
  {
    hide Step;
  }

  lemma TwoEvents(c: Conn, handler: Handler, e1: Event, e2: Event)
    ensures Run(c, handler, [e1]) == Step(c, handler, e1)
    ensures Run(c, handler, [e1, e2]) == Step(Step(c, handler, e1), handler, e2)
  {
    hide Step, Run;
    var c1 := Step(c, handler, e1);
    assert [e1, e2][1..] == [e2] && [e1][1..] == [] && [e2][1..] == [];
    RunMore(c, handler, [e1]);
    RunMore(c, handler, [e1, e2]);
    RunMore(c1, handler, [e2]);
    RunMore(c1, handler, []);
    RunMore(Step(c1, handler, e2), handler, []);
  }

  /** A request that says close and is answered only later does not keep the next one from being served. */
  lemma AnsweredLater(handler: Handler, r1: Request, r2: Request, x: Byte)
    requires Readable(r1) && Readable(r2) && !handler(0)
    ensures var c := Run(NEW, handler, [Arrives(r1.bytes + r2.bytes, x), Answered(x)]);
            && c.log == [r1.message, r2.message] && c.recv == [] && !c.failed
            && c.draining == (r2.close && handler(1))
  {
    hide Readable, Serve, Run;
    var all := r1.bytes + r2.bytes;
    TwoEvents(NEW, handler, Arrives(all, x), Answered(x));
    assert [] + all == all && r2.bytes + [] == r2.bytes && [] + [r1.message] == [r1.message];
    FirstServed(NEW.(recv := all), handler, r1, r2.bytes, x);
    FirstServed(NEW.(recv := r2.bytes, log := [r1.message]), handler, r2, [], x);
  }

  /** Answered at once, it does, until more bytes arrive: what follows stays in the buffer. */
  lemma AnsweredAtOnce(handler: Handler, r1: Request, r2: Request, x: Byte)
    requires Readable(r1) && r1.close && handler(0)
    ensures Run(NEW, handler, [Arrives(r1.bytes + r2.bytes, x)]) == Conn(r2.bytes, false, true, false, [r1.message])
  {
    hide Readable, Serve, Run;
    var all := r1.bytes + r2.bytes;
    TwoEvents(NEW, handler, Arrives(all, x), Poll(x));
    assert [] + all == all && [] + [r1.message] == [r1.message];
    FirstServed(NEW.(recv := all), handler, r1, r2.bytes, x);
  }

  /** While an answer is being generated nothing is delivered and nothing consumed. */
  lemma BusyWaits(c: Conn, handler: Handler, e: Event)
    requires c.busy && !e.Answered?
    ensures Step(c, handler, e) == c.(recv := c.recv + if e.Arrives? then e.data else [])
  {
    assert c.recv + [] == c.recv;
  }

  // ----- which requests are clear

  lemma LengthRequestRead(b: Text, t: Text, beyond: Byte)
    requires Parse(b).Parsed?
    requires var h := Parse(b).head; Coding(h).None? && h.headLen + h.bodyLen == |b|
    ensures var h := Parse(b).head;
            Next(b + t, beyond) == Ready(Delivered(b[..h.headLen], b[h.headLen..]), |b|, Closes(h))
  {
    hide Parse, Coding, Closes, Same, Ascii;
    ParseStays(b, t) by { HeadThere(b); }
    var h := Parse(b).head;
    assert (b + t)[..h.headLen] == b[..h.headLen];
    assert (b + t)[h.headLen..|b|] == b[h.headLen..];
  }

  /** A request whose body length is given by its head. */
  lemma LengthRequestClear(b: Text)
    requires Parse(b).Parsed?
    requires var h := Parse(b).head; Coding(h).None? && h.headLen + h.bodyLen == |b|
    ensures var h := Parse(b).head; Clear(Request(b, Delivered(b[..h.headLen], b[h.headLen..]), Closes(h)))
  {
    var h := Parse(b).head;
    var r := Request(b, Delivered(b[..h.headLen], b[h.headLen..]), Closes(h));
    hide Parse, Next, Coding, Closes;
    forall t: Text, beyond
      ensures Next(b + t, beyond) == Ready(r.message, |b|, r.close)
    {
      LengthRequestRead(b, t, beyond);
    }
    forall k, beyond | 0 <= k < |b|
      ensures Next(b[..k], beyond) == Waits
    {
      LengthRequestWaits(b, k, beyond);
    }
  }

  /** A head that is complete in a part of the bytes is the head of all of them. */
  lemma HeadOfPart(b: Text, k: nat)
    requires Parse(b).Parsed? && k <= |b|
    ensures Parse(b[..k]) == if k < Parse(b).head.headLen then NotYet else Parse(b)
  {
    hide ParseHead;
    var n := Parse(b).head.headLen;
    if k < n {
      ParseWaits(b, k);
    } else {
      LengthOfPart(b, k, 0);
      ParseStays(b[..k], b[k..]);
      assert b == b[..k] + b[k..];
    }
  }

  lemma {:induction false} LengthOfPart(b: Text, k: nat, i: nat)
    requires i <= k <= |b| && 0 < RequestLen(b, i) <= k
    ensures RequestLen(b[..k], i) == RequestLen(b, i)
    decreases k - i
  {
    assert b[..k][i] == b[i] && EndsHead(b[..k], i) == EndsHead(b, i);
    if !EndsHead(b, i) {
      LengthOfPart(b, k, i + 1);
    }
  }

  lemma LengthRequestWaits(b: Text, k: nat, beyond: Byte)
    requires Parse(b).Parsed? && k < |b|
    requires var h := Parse(b).head; Coding(h).None? && h.headLen + h.bodyLen == |b|
    ensures Next(b[..k], beyond) == Waits
  {
    hide Parse, Coding, Closes;
    HeadOfPart(b, k);
  }

  /** A head that announces a chunked body. */
  predicate ChunkedHead(head: Text) {
    && Parse(head).Parsed? && Parse(head).head.headLen == |head|
    && Coding(Parse(head).head).Some? && Same(Coding(Parse(head).head).value, Ascii("chunked"))
  }

  function ChunkedRequest(head: Text, chunks: seq<Text>): Request
    requires ChunkedHead(head)
  {
    Request(head + HttpChunk.Written(chunks), Delivered(head, HttpChunk.Join(chunks)), Closes(Parse(head).head))
  }

  /** A chunked request followed by anything is read whole: the chunks are joined, and nothing of what
      follows is consumed. */
  lemma ChunkedRequestRead(head: Text, chunks: seq<Text>, t: Text, beyond: Byte)
    requires ChunkedHead(head) && HttpChunk.Writable(chunks)
    ensures var r := ChunkedRequest(head, chunks);
            Next(r.bytes + t, beyond) == Ready(r.message, |r.bytes|, r.close)
  {
    hide Parse, Coding, Closes, Same, Ascii, Next, HttpChunk.Written, HttpChunk.FindEnd, HttpChunk.Decoded,
         HttpChunk.Join;
    var r, body := ChunkedRequest(head, chunks), HttpChunk.Written(chunks) + t;
    assert r.bytes + t == head + body;
    ParseStays(head, body) by { HeadThere(head); }
    NextChunked(head + body, beyond);
    hide *;
    var b := head + body;
    assert b[|head|..] == body && b[..|head|] == head;
    BodyRead(chunks, t, beyond);
  }

  lemma NextChunked(b: Text, beyond: Byte)
    requires Parse(b).Parsed? && Coding(Parse(b).head).Some?
    requires Same(Coding(Parse(b).head).value, Ascii("chunked"))
    ensures var h := Parse(b).head;
            var scan := HttpChunk.FindEnd(b[h.headLen..], 0, beyond);
            && (scan.ScanMore? ==> Next(b, beyond) == Waits)
            && (scan.ScanBad? ==> Next(b, beyond) == BadChunk)
            && (scan.ScanEnd? ==>
                  var (data, e) := HttpChunk.Decoded(b[h.headLen..], 0, beyond);
                  Next(b, beyond) == Ready(Delivered(b[..h.headLen], data), h.headLen + e, Closes(h)))
  {
    hide Parse, Coding, Closes, Same, Ascii, HttpChunk.FindEnd, HttpChunk.Decoded;
  }

  lemma BodyRead(chunks: seq<Text>, t: Text, beyond: Byte)
    requires HttpChunk.Writable(chunks)
    ensures var body := HttpChunk.Written(chunks) + t;
            && HttpChunk.FindEnd(body, 0, beyond).ScanEnd?
            && HttpChunk.Decoded(body, 0, beyond) == (HttpChunk.Join(chunks), |HttpChunk.Written(chunks)|)
  {
    hide *;
    var body := HttpChunk.Written(chunks) + t;
    assert [] + body == body;
    HttpChunk.WrittenDecoded(chunks, [], t, beyond);
  }

  lemma HeadThere(b: Text)
    requires Parse(b).Parsed?
    ensures RequestLen(b, 0) != 0
  {
  }

  /** Part of a chunked request: waits, or fails exactly at a cut size line. */
  lemma ChunkedRequestPart(head: Text, chunks: seq<Text>, k: nat, beyond: Byte)
    requires ChunkedHead(head) && HttpChunk.Writable(chunks) && k < |ChunkedRequest(head, chunks).bytes|
    ensures Next(ChunkedRequest(head, chunks).bytes[..k], beyond) ==
            if k >= |head| && HttpChunk.BodyCutInSizeLine(chunks, k - |head|, beyond) then BadChunk else Waits
  {
    hide Parse, Coding, Closes, Same, Ascii, HttpChunk.Written, HttpChunk.FindEnd, HttpChunk.Decoded;
    var b := head + HttpChunk.Written(chunks);
    if k < |head| {
      ParseWaits(head, k);
      hide *;
      assert b[..k] == head[..k];
      UnparsedWaits(head[..k], beyond);
    } else {
      var part := HttpChunk.Written(chunks)[..k - |head|];
      ParseStays(head, part) by { HeadThere(head); }
      NextChunked(head + part, beyond);
      hide *;
      assert b[..k] == head + part;
      HttpChunk.PartialBody(chunks, [], k - |head|, beyond);
      assert [] + part == part && (head + part)[|head|..] == part;
    }
  }

  lemma UnparsedWaits(b: Text, beyond: Byte)
    requires Parse(b) == NotYet
    ensures Next(b, beyond) == Waits
  {
  }

  predicate ShortChunks(chunks: seq<Text>) {
    forall j :: 0 <= j < |chunks| ==> |chunks[j]| < 16
  }

  lemma {:induction false} ShortSizeLines(chunks: seq<Text>, k: nat, beyond: Byte)
    requires ShortChunks(chunks)
    ensures !HttpChunk.BodyCutInSizeLine(chunks, k, beyond)
    decreases |chunks|
  {
    if chunks != [] {
      assert |Fmt.Hex(|chunks[0]|)| == 1;
      if k >= |HttpChunk.WriteChunk(chunks[0])| {
        ShortSizeLines(chunks[1..], k - |HttpChunk.WriteChunk(chunks[0])|, beyond);
      }
    }
  }

  /** A place to cut the size line of the first long chunk. */
  lemma {:induction false} LongSizeLine(chunks: seq<Text>) returns (k: nat)
    requires HttpChunk.Writable(chunks) && !ShortChunks(chunks)
    ensures k < |HttpChunk.Written(chunks)| && HttpChunk.BodyCutInSizeLine(chunks, k, 0)
    decreases |chunks|
  {
    var w := HttpChunk.WriteChunk(chunks[0]);
    if |chunks[0]| >= 16 {
      k := 3;
      assert |Fmt.Hex(|chunks[0]|)| >= 2;
    } else {
      var j :| 0 <= j < |chunks| && |chunks[j]| >= 16;
      assert chunks[1..][j - 1] == chunks[j];
      k := LongSizeLine(chunks[1..]);
      k := k + |w|;
    }
  }

  /** Every chunked request is readable. */
  lemma ChunkedReadable(head: Text, chunks: seq<Text>)
    requires ChunkedHead(head) && HttpChunk.Writable(chunks)
    ensures Readable(ChunkedRequest(head, chunks))
  {
    hide Next, HttpChunk.Written, HttpChunk.BodyCutInSizeLine, ChunkedHead;
    var r := ChunkedRequest(head, chunks);
    forall t: Text, beyond
      ensures Next(r.bytes + t, beyond) == Ready(r.message, |r.bytes|, r.close)
    {
      ChunkedRequestRead(head, chunks, t, beyond);
    }
    forall k, beyond | 0 <= k < |r.bytes|
      ensures Next(r.bytes[..k], beyond) in {Waits, BadChunk}
    {
      ChunkedRequestPart(head, chunks, k, beyond);
    }
    assert r.bytes != [] by { HeadNotEmpty(head); }
  }

  /** It can be cut anywhere into READ events exactly when every chunk is shorter than 16 bytes; otherwise a
      cut inside a size line makes `skip_chunk` report an error. */
  lemma ChunkedClearIff(head: Text, chunks: seq<Text>)
    requires ChunkedHead(head) && HttpChunk.Writable(chunks)
    ensures Clear(ChunkedRequest(head, chunks)) <==> ShortChunks(chunks)
  {
    hide Next, HttpChunk.Written, HttpChunk.BodyCutInSizeLine, ChunkedHead, Readable;
    var r := ChunkedRequest(head, chunks);
    ChunkedReadable(head, chunks);
    if ShortChunks(chunks) {
      forall k, beyond | 0 <= k < |r.bytes|
        ensures Next(r.bytes[..k], beyond) == Waits
      {
        ChunkedRequestPart(head, chunks, k, beyond);
        if k >= |head| {
          ShortSizeLines(chunks, k - |head|, beyond);
        }
      }
    } else {
      var k := LongSizeLine(chunks);
      ChunkedRequestPart(head, chunks, |head| + k, 0);
      assert Next(r.bytes[..|head| + k], 0) == BadChunk;
    }
  }

  lemma HeadNotEmpty(head: Text)
    requires ChunkedHead(head)
    ensures head != []
  {
  }

  // ----- heads that are never read

  lemma StuckNow(b: Text, t: Text, beyond: Byte)
    requires RequestLen(b, 0) > 0 && Parse(b) == NotYet
    ensures Next(b + t, beyond) == Waits
  {
    ParseStays(b, t);
    hide Parse, RequestLen;
  }

  /** A complete head with a carriage return alone in its first line stops the connection for good: whatever
      arrives later is buffered behind it and nothing is ever delivered. */
  lemma {:induction false} StuckForGood(c: Conn, handler: Handler, es: seq<Event>, b: Text, t: Text)
    requires RequestLen(b, 0) > 0 && Parse(b) == NotYet && c.recv == b + t && !c.busy
    ensures Run(c, handler, es) == c.(recv := c.recv + Received(es))
    decreases |es|
  {
    hide *;
    ReceivedHead(es);
    RunMore(c, handler, es);
    if es == [] {
      assert c.recv + [] == c.recv;
    } else {
      var data := DataOf(es[0]);
      var next := c.(recv := c.recv + data);
      StuckStep(c, handler, es[0], b, t);
      assert next.recv == b + (t + data);
      StuckForGood(next, handler, es[1..], b, t + data);
      assert c.recv + (data + Received(es[1..])) == next.recv + Received(es[1..]);
    }
  }

  lemma ReceivedHead(es: seq<Event>)
    ensures Received(es) == if es == [] then [] else DataOf(es[0]) + Received(es[1..])
  {
  }

  lemma StuckStep(c: Conn, handler: Handler, e: Event, b: Text, t: Text)
    requires RequestLen(b, 0) > 0 && Parse(b) == NotYet && c.recv == b + t && !c.busy
    ensures Step(c, handler, e) == c.(recv := c.recv + DataOf(e))
  {
    hide Parse, RequestLen, Next, Serve;
    var next := c.(recv := c.recv + DataOf(e));
    assert next.recv == b + (t + DataOf(e));
    StuckNow(b, t + DataOf(e), e.beyond);
    WaitingServes(next, handler, e.beyond);
    assert DataOf(e) == [] ==> next == c;
  }

  lemma WaitingServes(c: Conn, handler: Handler, beyond: Byte)
    requires Next(c.recv, beyond) == Waits
    ensures Serve(c, handler, beyond) == c
  {
    hide Next;
  }
}
