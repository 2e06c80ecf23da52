/** WebSocket frames (RFC 6455 section 5.2) as `mkhdr` writes them and `ws_process` reads them. */
module WsFrame {
  import opened Wrappers
  import opened Bytes
  import opened Sequences

  const MAX_DATA_LEN: nat := 0x4000_0000
  const TWO32: nat := 0x1_0000_0000
  const FIN: nat := 128

  type Key = k: seq<Byte> | |k| == 4 witness [0, 0, 0, 0]

  /** The three ways of writing a payload length. */
  datatype Form = Short | Medium | Long

  predicate Fits(form: Form, len: nat) {
    match form
    case Short => len < 126
    case Medium => len < 0x1_0000
    case Long => len < TWO32 * TWO32
  }

  /** The form that `mkhdr` chooses. */
  function FormOf(len: nat): Form {
    if len < 126 then Short else if len < 0x1_0000 then Medium else Long
  }

  datatype Frame = Frame(flags: Byte, form: Form, key: Option<Key>, payload: seq<Byte>)
  {
    predicate Fitting() { Fits(form, |payload|) }

    /** Short enough for `ws_process`. */
    predicate Ok() { Fitting() && |payload| <= MAX_DATA_LEN }
  }

  function Be32(x: nat): (s: seq<Byte>)
    requires x < TWO32
    ensures |s| == 4
  {
    [x / 256 / 256 / 256, x / 256 / 256 % 256, x / 256 % 256, x % 256]
  }

  function Be32Value(s: seq<Byte>): (x: nat)
    requires |s| == 4
    ensures x < TWO32
  {
    (((s[0] as int) * 256 + s[1]) * 256 + s[2]) * 256 + s[3]
  }

  function LengthBytes(form: Form, len: nat): seq<Byte>
    requires Fits(form, len)
  {
    match form
    case Short => []
    case Medium => [len / 256, len % 256]
    case Long => Be32(len / TWO32) + Be32(len % TWO32)
  }

  function LengthCode(form: Form, len: nat): (n: nat)
    requires Fits(form, len)
    ensures n < 128
  {
    match form
    case Short => len
    case Medium => 126
    case Long => 127
  }

  function KeyBytes(key: Option<Key>): seq<Byte> {
    if key.Some? then key.value else []
  }

  function Header(flags: Byte, form: Form, key: Option<Key>, len: nat): (s: seq<Byte>)
    requires Fits(form, len)
    ensures 2 <= |s| <= 14 && |s| == 2 + |LengthBytes(form, len)| + |KeyBytes(key)|
  {
    [flags, LengthCode(form, len) + if key.Some? then 128 else 0] + LengthBytes(form, len) + KeyBytes(key)
  }

  /** Exclusive or with a repeated key. */
  function Masked(p: seq<Byte>, key: Key): (r: seq<Byte>)
    ensures |r| == |p|
  {
    seq(|p|, i requires 0 <= i < |p| => Xor(p[i], key[i % 4]))
  }

  lemma MaskedTwice(p: seq<Byte>, key: Key)
    ensures Masked(Masked(p, key), key) == p
  {
    forall i | 0 <= i < |p|
      ensures Masked(Masked(p, key), key)[i] == p[i]
    {
      XorTwice(p[i], key[i % 4]);
    }
  }

  function WirePayload(p: seq<Byte>, key: Option<Key>): (r: seq<Byte>)
    ensures |r| == |p|
  {
    if key.Some? then Masked(p, key.value) else p
  }

  /** The bytes of a frame. */
  function Wire(f: Frame): (s: seq<Byte>)
    requires f.Fitting()
    ensures |s| == |Header(f.flags, f.form, f.key, |f.payload|)| + |f.payload|
  {
    Header(f.flags, f.form, f.key, |f.payload|) + WirePayload(f.payload, f.key)
  }

  // ----- reading

  datatype WsMsg = WsMsg(flags: Byte, masked: bool, headerLen: nat, dataLen: nat)

  /** What `ws_process` finds at the start of the buffered bytes; no header is a header of length 0. */
  function ReadHeader(b: seq<Byte>): (m: WsMsg)
    ensures m.headerLen == 0 ==> m.dataLen == 0
    ensures m.headerLen > 0 ==> |b| >= 2 && m.headerLen >= (if m.masked then 6 else 2)
  {
    if |b| < 2 then WsMsg(0, false, 0, 0)
    else
      var n := b[1] % 128;
      var masked := b[1] >= 128;
      var maskLen := if masked then 4 else 0;
      if n < 126 && |b| >= maskLen then WsMsg(b[0], masked, 2 + maskLen, n)
      else if n == 126 && |b| >= 4 + maskLen then WsMsg(b[0], masked, 4 + maskLen, (b[2] as int) * 256 + b[3])
      else if |b| >= 10 + maskLen then
        WsMsg(b[0], masked, 10 + maskLen, Be32Value(b[2..6]) * TWO32 + Be32Value(b[6..10]))
      else WsMsg(b[0], masked, 0, 0)
  }

  /** The result of `ws_process`: the length of the first frame once all of it is buffered. */
  function FrameLength(b: seq<Byte>): (n: nat)
    ensures n <= |b|
    ensures n > 0 ==> ReadHeader(b).headerLen >= 2 && n == ReadHeader(b).headerLen + ReadHeader(b).dataLen
  {
    var m := ReadHeader(b);
    if m.dataLen > MAX_DATA_LEN || m.headerLen + m.dataLen > |b| then 0 else m.headerLen + m.dataLen
  }

  /** The payload as it stands in the buffer after `ws_process`. */
  function Payload(b: seq<Byte>): (p: seq<Byte>)
    requires FrameLength(b) > 0
    ensures |p| == ReadHeader(b).dataLen
  {
    var m := ReadHeader(b);
    var raw := b[m.headerLen..m.headerLen + m.dataLen];
    if m.masked then Masked(raw, b[m.headerLen - 4..m.headerLen]) else raw
  }

  /** The buffer after `ws_process`. */
  function Processed(b: seq<Byte>): (r: seq<Byte>)
    ensures |r| == |b|
  {
    if FrameLength(b) == 0 then b
    else Spliced(b, ReadHeader(b).headerLen, Payload(b))
  }

  // ----- the codec

  lemma Be32Back(x: nat)
    requires x < TWO32
    ensures Be32Value(Be32(x)) == x
  {
  }

  lemma LengthRead(form: Form, len: nat, lead: seq<Byte>, t: seq<Byte>)
    requires Fits(form, len) && |lead| == 2
    ensures var b := lead + (LengthBytes(form, len) + t);
            && (form.Medium? ==> (b[2] as int) * 256 + b[3] == len)
            && (form.Long? ==> Be32Value(b[2..6]) * TWO32 + Be32Value(b[6..10]) == len)
  {
    if form.Long? {
      var hi, lo := Be32(len / TWO32), Be32(len % TWO32);
      var b := lead + (LengthBytes(form, len) + t);
      assert b[2..6] == hi && b[6..10] == lo;
      Be32Back(len / TWO32);
      Be32Back(len % TWO32);
    }
  }

  /** Whatever follows a frame, its header is read back. */
  lemma HeaderRead(flags: Byte, form: Form, key: Option<Key>, len: nat, t: seq<Byte>)
    requires Fits(form, len)
    ensures var h := Header(flags, form, key, len);
            ReadHeader(h + t) == WsMsg(flags, key.Some?, |h|, len)
  {
    hide Be32, Be32Value;
    var lead: seq<Byte> := [flags, LengthCode(form, len) + if key.Some? then 128 else 0];
    var b := Header(flags, form, key, len) + t;
    LengthRead(form, len, lead, KeyBytes(key) + t);
    assert b == lead + (LengthBytes(form, len) + (KeyBytes(key) + t));
    assert b[0] == lead[0] && b[1] == lead[1];
  }

  /** A frame followed by anything is read back: its length, flags and original payload. */
  lemma WireRead(f: Frame, t: seq<Byte>)
    requires f.Ok()
    ensures var b := Wire(f) + t;
            && FrameLength(b) == |Wire(f)| && Payload(b) == f.payload
            && ReadHeader(b) == WsMsg(f.flags, f.key.Some?, |Wire(f)| - |f.payload|, |f.payload|)
  {
    var h := Header(f.flags, f.form, f.key, |f.payload|);
    var p := WirePayload(f.payload, f.key);
    var b := Wire(f) + t;
    assert b == h + (p + t);
    HeaderRead(f.flags, f.form, f.key, |f.payload|, p + t);
    assert b[|h|..|h| + |p|] == p;
    if f.key.Some? {
      assert b[|h| - 4..|h|] == f.key.value;
      MaskedTwice(f.payload, f.key.value);
    }
  }

  lemma LaterHeader(b: seq<Byte>, t: seq<Byte>)
    requires ReadHeader(b).headerLen > 0
    ensures ReadHeader(b + t) == ReadHeader(b)
  {
    var c := b + t;
    if |b| >= 10 {
      assert c[2..6] == b[2..6] && c[6..10] == b[6..10];
    }
  }

  lemma LaterPayload(b: seq<Byte>, t: seq<Byte>)
    requires FrameLength(b) > 0 && ReadHeader(b + t) == ReadHeader(b)
    ensures FrameLength(b + t) == FrameLength(b) && Payload(b + t) == Payload(b)
  {
    var m := ReadHeader(b);
    hide ReadHeader, Masked;
    Between(b, t, m.headerLen, m.headerLen + m.dataLen);
    if m.masked {
      Between(b, t, m.headerLen - 4, m.headerLen);
    }
  }

  lemma Between(b: seq<Byte>, t: seq<Byte>, i: nat, j: nat)
    requires i <= j <= |b|
    ensures (b + t)[i..j] == b[i..j]
  {
  }

  /** Bytes arriving later do not change a frame that is already complete. */
  lemma LaterBytes(b: seq<Byte>, t: seq<Byte>)
    requires FrameLength(b) > 0
    ensures FrameLength(b + t) == FrameLength(b) && ReadHeader(b + t) == ReadHeader(b)
    ensures Payload(b + t) == Payload(b) && Processed(b + t) == Processed(b) + t
  {
    LaterHeader(b, t);
    LaterPayload(b, t);
    var h, n := ReadHeader(b).headerLen, FrameLength(b);
    hide ReadHeader, Payload, FrameLength;
    assert (b + t)[..h] == b[..h] && (b + t)[n..] == b[n..] + t;
    var p := Payload(b);
    assert b[..h] + p + (b[n..] + t) == b[..h] + p + b[n..] + t;
  }

  /** Of an unfinished frame nothing is reported and nothing is touched. */
  lemma PrefixWaits(f: Frame, k: nat)
    requires f.Ok() && k < |Wire(f)|
    ensures FrameLength(Wire(f)[..k]) == 0 && Processed(Wire(f)[..k]) == Wire(f)[..k]
  {
    var b := Wire(f)[..k];
    if FrameLength(b) > 0 {
      LaterBytes(b, Wire(f)[k..]);
      assert b + Wire(f)[k..] == Wire(f) + [];
      WireRead(f, []);
      assert false;
    }
  }
}
