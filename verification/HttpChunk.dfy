/** Chunked transfer coding (RFC 9112 section 7.1): written by `http_write_chunk`, read by
    `skip_chunk`, and decoded in place in the receive buffer. */
module HttpChunk {
  import opened Bytes
  import opened Fmt
  import opened Sequences
  import opened IoBuf

  const CR: Byte := 13
  const LF: Byte := 10
  const CRLF: seq<Byte> := [13, 10]
  const INT_MAX: nat := 0x7fff_ffff
  const UINT32_MAX: nat := 0xffff_ffff

  // ----- writing

  /** `http_write_chunk`. */
  function WriteChunk(data: seq<Byte>): (s: seq<Byte>)
    ensures |s| == |Hex(|data|)| + 2 + |data| + 2
  {
    Hex(|data|) + (CRLF + (data + CRLF))
  }

  // ----- reading

  predicate IsHex(c: Byte) { 48 <= c <= 57 || 97 <= c <= 102 || 65 <= c <= 70 }

  function HexValue(c: Byte): (d: nat)
    requires IsHex(c)
    ensures d < 16
  {
    if c <= 57 then c - 48 else if c >= 97 then c - 87 else c - 55
  }

  /** The end of the hexadecimal digits from `i` on. */
  function HexEnd(b: seq<Byte>, i: nat): (e: nat)
    requires i <= |b|
    ensures i <= e <= |b| && (forall k :: i <= k < e ==> IsHex(b[k])) && (e < |b| ==> !IsHex(b[e]))
    decreases |b| - i
  {
    if i < |b| && IsHex(b[i]) then HexEnd(b, i + 1) else i
  }

  /** `str_to_num` in base 16 for 32 bits, on digits only. */
  function HexNumber(s: seq<Byte>, result: nat): (r: int)
    requires forall k :: 0 <= k < |s| ==> IsHex(s[k])
    ensures r >= -1
  {
    if s == [] then result
    else if result > UINT32_MAX / 16 then -1
    else if result * 16 > UINT32_MAX - HexValue(s[0]) then -1
    else HexNumber(s[1..], result * 16 + HexValue(s[0]))
  }

  datatype Skipped = More | Bad | Chunk(pl: nat, dl: nat)

  /** `skip_chunk`; `beyond` is the byte that happens to stand right after the `len` bytes. */
  function SkipChunk(b: seq<Byte>, beyond: Byte): (r: Skipped)
    ensures r.Chunk? ==> r.pl + r.dl + 2 <= |b| && r.pl >= 3
  {
    if |b| < 3 then More
    else
      var i := HexEnd(b, 0);
      if i == 0 || i > 8 then Bad
      else if |b| < i + 1 || b[i] != CR || (if i + 1 < |b| then b[i + 1] else beyond) != LF then Bad
      else
        var n := HexNumber(b[..i], 0);
        if n < 0 || n > INT_MAX then Bad
        else if n > |b| - i - 4 then More
        else if b[i + n + 2] != CR || b[i + n + 3] != LF then Bad
        else Chunk(i + 2, n)
  }

  /** The loops of `skip_chunk`. */
  method SkipChunkLoop(b: seq<Byte>, beyond: Byte) returns (r: Skipped)
    ensures r == SkipChunk(b, beyond)
  {
    if |b| < 3 {
      return More;
    }
    var i := 0;
    while i < |b| && IsHex(b[i])
      invariant i <= |b| && HexEnd(b, 0) == HexEnd(b, i)
    {
      i := i + 1;
    }
    if i == 0 || i > 8 {
      return Bad;
    }
    if |b| < i + 1 || b[i] != CR || (if i + 1 < |b| then b[i + 1] else beyond) != LF {
      return Bad;
    }
    var n := HexNumber(b[..i], 0);
    if n < 0 || n > INT_MAX {
      return Bad;
    }
    if n > |b| - i - 4 {
      return More;
    }
    if b[i + n + 2] != CR || b[i + n + 3] != LF {
      return Bad;
    }
    return Chunk(i + 2, n);
  }

  // ----- a chunk is read back

  predicate AllHex(s: seq<Byte>) { forall k :: 0 <= k < |s| ==> IsHex(s[k]) }

  function Power16(k: nat): (p: nat)
    ensures p > 0
  {
    if k == 0 then 1 else 16 * Power16(k - 1)
  }

  lemma {:induction false} HexIsHex(n: nat)
    ensures AllHex(Hex(n))
  {
    if n >= 16 {
      HexIsHex(n / 16);
    }
  }

  /** `k` digits suffice for numbers below 16^k. */
  lemma {:induction false} HexLength(n: nat, k: nat)
    requires k >= 1 && n < Power16(k)
    ensures |Hex(n)| <= k
    decreases k
  {
    if n >= 16 {
      assert k >= 2 && n / 16 < Power16(k - 1);
      HexLength(n / 16, k - 1);
    }
  }

  lemma {:induction false} NumberAppend(s: seq<Byte>, d: Byte, result: nat)
    requires AllHex(s) && IsHex(d) && HexNumber(s, result) >= 0
    requires HexNumber(s, result) * 16 + HexValue(d) <= UINT32_MAX
    ensures AllHex(s + [d]) && HexNumber(s + [d], result) == HexNumber(s, result) * 16 + HexValue(d)
    decreases |s|
  {
    var t := s + [d];
    if s == [] {
      assert t[1..] == [];
    } else {
      assert t[1..] == s[1..] + [d] && t[0] == s[0];
      NumberAppend(s[1..], d, result * 16 + HexValue(s[0]));
    }
  }

  lemma {:induction false} HexReadBack(n: nat)
    requires n <= UINT32_MAX
    ensures AllHex(Hex(n)) && HexNumber(Hex(n), 0) == n
  {
    if n < 16 {
      assert Hex(n)[1..] == [];
    } else {
      HexReadBack(n / 16);
      NumberAppend(Hex(n / 16), HexDigit(n % 16), 0);
    }
  }

  lemma {:induction false} HexEndAt(b: seq<Byte>, i: nat, e: nat)
    requires i <= e <= |b| && (forall k :: i <= k < e ==> IsHex(b[k])) && (e < |b| ==> !IsHex(b[e]))
    ensures HexEnd(b, i) == e
    decreases e - i
  {
    if i < e {
      HexEndAt(b, i + 1, e);
    }
  }

  lemma SizeIsShort(n: nat)
    requires n <= INT_MAX
    ensures 1 <= |Hex(n)| <= 8
  {
    assert Power16(4) == 0x1_0000;
    assert Power16(8) == 16 * (16 * (16 * (16 * Power16(4))));
    HexLength(n, 8);
  }

  /** Any buffer that begins with the size line of a chunk of `n` bytes. */
  lemma SizeLineRead(b: seq<Byte>, beyond: Byte, n: nat)
    requires n <= INT_MAX && |Hex(n)| + 2 <= |b| && |b| >= 3
    requires b[..|Hex(n)|] == Hex(n) && b[|Hex(n)|] == CR && b[|Hex(n)| + 1] == LF
    ensures var i := |Hex(n)|;
            SkipChunk(b, beyond) ==
            if n > |b| - i - 4 then More
            else if b[i + n + 2] != CR || b[i + n + 3] != LF then Bad
            else Chunk(i + 2, n)
  {
    var i := |Hex(n)|;
    HexReadBack(n);
    SizeIsShort(n);
    forall k | 0 <= k < i
      ensures IsHex(b[k])
    {
      assert b[k] == b[..i][k];
    }
    HexEndAt(b, 0, i);
    hide Hex, HexNumber, HexEnd;
  }

  lemma ChunkParts(data: seq<Byte>, t: seq<Byte>)
    ensures var b, i := WriteChunk(data) + t, |Hex(|data|)|;
            && b[..i] == Hex(|data|) && b[i] == CR && b[i + 1] == LF
            && b[i + 2..i + 2 + |data|] == data
            && b[i + |data| + 2] == CR && b[i + |data| + 3] == LF && b[|WriteChunk(data)|..] == t
  {
    var b, i := WriteChunk(data) + t, |Hex(|data|)|;
    assert b == Hex(|data|) + (CRLF + (data + (CRLF + t)));
    hide Hex, WriteChunk;
    var u := CRLF + (data + (CRLF + t));
    assert b[i..] == u;
    assert u[2..] == data + (CRLF + t);
    assert b[i + 2..] == u[2..];
  }

  /** A chunk followed by anything is read back. */
  lemma ChunkRead(data: seq<Byte>, t: seq<Byte>, beyond: Byte)
    requires |data| <= INT_MAX
    ensures SkipChunk(WriteChunk(data) + t, beyond) == Chunk(|Hex(|data|)| + 2, |data|)
  {
    ChunkParts(data, t);
    SizeLineRead(WriteChunk(data) + t, beyond, |data|);
  }

  /** The bytes of a chunk are cut inside its size line, which `skip_chunk` takes for an error once
      three bytes are there. */
  predicate CutInSizeLine(n: nat, k: nat, beyond: Byte) {
    3 <= k < |Hex(n)| + 2 && !(k == |Hex(n)| + 1 && beyond == LF)
  }

  /** Part of a chunk: waits for more, except inside the size line. */
  lemma ChunkPrefix(data: seq<Byte>, k: nat, beyond: Byte)
    requires |data| <= INT_MAX && k < |WriteChunk(data)|
    ensures SkipChunk(WriteChunk(data)[..k], beyond) == if CutInSizeLine(|data|, k, beyond) then Bad else More
  {
    var n, i, b := |data|, |Hex(|data|)|, WriteChunk(data)[..k];
    ChunkParts(data, []);
    assert WriteChunk(data) + [] == WriteChunk(data);
    if k >= 3 {
      if k >= i + 2 {
        assert b[..i] == Hex(n);
        SizeLineRead(b, beyond, n);
      } else {
        HexReadBack(n);
        SizeIsShort(n);
        var e := if k <= i then k else i;
        forall m | 0 <= m < e
          ensures IsHex(b[m])
        {
          assert b[m] == Hex(n)[m];
        }
        HexEndAt(b, 0, e);
        assert k == i + 1 ==> b[..i] == Hex(n);
      }
    }
  }

  // ----- a chunked body

  datatype Scan = ScanMore | ScanBad | ScanEnd(o: nat)

  /** The first pass of `http_cb`: where the zero chunk begins. */
  function FindEnd(b: seq<Byte>, o: nat, beyond: Byte): (r: Scan)
    requires o <= |b|
    ensures r.ScanEnd? ==> o <= r.o <= |b| && SkipChunk(b[r.o..], beyond).Chunk? && SkipChunk(b[r.o..], beyond).dl == 0
    decreases |b| - o
  {
    match SkipChunk(b[o..], beyond)
    case More => ScanMore
    case Bad => ScanBad
    case Chunk(pl, dl) => if dl == 0 then ScanEnd(o) else FindEnd(b, o + pl + dl + 2, beyond)
  }

  /** The data of the chunks from `o` to the zero chunk, and the place after it. */
  function Decoded(b: seq<Byte>, o: nat, beyond: Byte): (r: (seq<Byte>, nat))
    requires o <= |b| && FindEnd(b, o, beyond).ScanEnd?
    ensures o < r.1 <= |b| && |r.0| <= r.1 - o
    decreases |b| - o
  {
    var c := SkipChunk(b[o..], beyond);
    var next := o + c.pl + c.dl + 2;
    if c.dl == 0 then ([], next)
    else
      var (data, e) := Decoded(b, next, beyond);
      (b[o + c.pl..o + c.pl + c.dl] + data, e)
  }

  function Join(chunks: seq<seq<Byte>>): seq<Byte> {
    if chunks == [] then [] else chunks[0] + Join(chunks[1..])
  }

  /** A body written chunk by chunk, with the zero chunk at its end. */
  function Written(chunks: seq<seq<Byte>>): seq<Byte> {
    if chunks == [] then WriteChunk([]) else WriteChunk(chunks[0]) + Written(chunks[1..])
  }

  predicate Writable(chunks: seq<seq<Byte>>) {
    forall k :: 0 <= k < |chunks| ==> 0 < |chunks[k]| <= INT_MAX
  }

  lemma Unfolded(b: seq<Byte>, o: nat, beyond: Byte, pl: nat, dl: nat)
    requires o <= |b| && SkipChunk(b[o..], beyond) == Chunk(pl, dl)
    ensures dl == 0 ==> FindEnd(b, o, beyond) == ScanEnd(o) && Decoded(b, o, beyond) == ([], o + pl + 2)
    ensures dl > 0 ==> FindEnd(b, o, beyond) == FindEnd(b, o + pl + dl + 2, beyond)
    ensures dl > 0 && FindEnd(b, o, beyond).ScanEnd? ==>
              var (data, e) := Decoded(b, o + pl + dl + 2, beyond);
              Decoded(b, o, beyond) == (b[o + pl..o + pl + dl] + data, e)
  {
    hide SkipChunk;
  }

  lemma {:induction false} WrittenDecoded(chunks: seq<seq<Byte>>, before: seq<Byte>, t: seq<Byte>, beyond: Byte)
    requires Writable(chunks)
    ensures var b, o := before + (Written(chunks) + t), |before|;
            && FindEnd(b, o, beyond).ScanEnd?
            && Decoded(b, o, beyond) == (Join(chunks), o + |Written(chunks)|)
    decreases |chunks|
  {
    hide SkipChunk, WriteChunk, Hex, FindEnd, Decoded;
    var b, o := before + (Written(chunks) + t), |before|;
    assert b[o..] == Written(chunks) + t;
    if chunks == [] {
      ChunkRead([], t, beyond);
      Unfolded(b, o, beyond, |Hex(0)| + 2, 0);
    } else {
      var c, w, rest := chunks[0], WriteChunk(chunks[0]), Written(chunks[1..]) + t;
      ChunkRead(c, rest, beyond);
      Regrouped(before, w, Written(chunks[1..]), t);
      WrittenDecoded(chunks[1..], before + w, t, beyond);
      DataInPlace(before, c, rest);
      Unfolded(b, o, beyond, |Hex(|c|)| + 2, |c|);
    }
  }

  lemma Regrouped(before: seq<Byte>, w: seq<Byte>, more: seq<Byte>, t: seq<Byte>)
    ensures before + ((w + more) + t) == (before + w) + (more + t)
    ensures (before + ((w + more) + t))[|before|..] == w + (more + t)
  {
    assert (before + ((w + more) + t))[|before|..] == (w + more) + t;
  }

  lemma DataInPlace(before: seq<Byte>, c: seq<Byte>, t: seq<Byte>)
    ensures var b, p := before + (WriteChunk(c) + t), |before| + (|Hex(|c|)| + 2);
            b[p..p + |c|] == c
  {
    hide Hex, WriteChunk;
    ChunkParts(c, t);
    var u, i := WriteChunk(c) + t, |Hex(|c|)| + 2;
    var b, p := before + u, |before| + i;
    forall k | 0 <= k < |c|
      ensures b[p..p + |c|][k] == c[k]
    {
      assert u[i..i + |c|][k] == u[i + k] == b[p + k];
    }
  }

  /** Where the cut after `k` bytes of a written body falls. */
  predicate BodyCutInSizeLine(chunks: seq<seq<Byte>>, k: nat, beyond: Byte)
    decreases |chunks|
  {
    if chunks == [] then CutInSizeLine(0, k, beyond)
    else if k < |WriteChunk(chunks[0])| then CutInSizeLine(|chunks[0]|, k, beyond)
    else BodyCutInSizeLine(chunks[1..], k - |WriteChunk(chunks[0])|, beyond)
  }

  /** While the zero chunk is not complete, the first pass waits, or fails exactly at a cut size line. */
  lemma {:induction false} PartialBody(chunks: seq<seq<Byte>>, before: seq<Byte>, k: nat, beyond: Byte)
    requires Writable(chunks) && k < |Written(chunks)|
    ensures FindEnd(before + Written(chunks)[..k], |before|, beyond) ==
            if BodyCutInSizeLine(chunks, k, beyond) then ScanBad else ScanMore
    decreases |chunks|
  {
    hide SkipChunk, WriteChunk, Hex, CutInSizeLine;
    var b, o := before + Written(chunks)[..k], |before|;
    assert b[o..] == Written(chunks)[..k];
    if chunks == [] {
      ChunkPrefix([], k, beyond);
    } else {
      var c, w := chunks[0], WriteChunk(chunks[0]);
      if k < |w| {
        assert Written(chunks)[..k] == w[..k];
        ChunkPrefix(c, k, beyond);
      } else {
        var rest := Written(chunks[1..])[..k - |w|];
        assert Written(chunks)[..k] == w + rest;
        ChunkRead(c, rest, beyond);
        PartialBody(chunks[1..], before + w, k - |w|, beyond);
        assert b == (before + w) + rest;
      }
    }
  }

  // ----- in place

  datatype Dechunked = Incomplete | Invalid | Body(len: nat, consumed: nat)

  /** First pass over the bytes from `s` on: looks for the zero chunk and moves nothing. */
  method Search(io: IoBuf, s: nat) returns (r: Scan)
    requires io.Valid() && s <= io.len
    ensures r == FindEnd(io.Contents()[s..], 0, io.After())
  {
    hide SkipChunk;
    var b, beyond := io.Contents()[s..], io.After();
    var o := 0;
    var c := SkipChunkLoop(b[o..], beyond);
    while c.Chunk? && c.dl > 0
      invariant o <= |b| && c == SkipChunk(b[o..], beyond) && FindEnd(b, 0, beyond) == FindEnd(b, o, beyond)
      decreases |b| - o
    {
      o := o + c.pl + c.dl + 2;
      c := SkipChunkLoop(b[o..], beyond);
    }
    r := match c case More => ScanMore case Bad => ScanBad case Chunk(_, _) => ScanEnd(o);
  }

  /** What the second pass has done so far. */
  ghost predicate Relocated(was: seq<Byte>, now: seq<Byte>, s: nat, n: nat, o: nat, data: seq<Byte>) {
    && |now| == |was| && |data| == n <= o && s + o <= |was|
    && now[..s] == was[..s] && now[s..s + n] == data && now[s + o..] == was[s + o..]
  }

  /** Moving the data of one chunk down does not touch the chunks after it. */
  lemma RelocatedMore(was: seq<Byte>, now: seq<Byte>, s: nat, n: nat, o: nat, data: seq<Byte>, pl: nat, dl: nat)
    requires Relocated(was, now, s, n, o, data) && s + o + pl + dl + 2 <= |was|
    ensures Relocated(was, Moved(now, s + n, s + o + pl, dl), s, n + dl, o + pl + dl + 2,
                      data + was[s + o + pl..s + o + pl + dl])
  {
    var src, e := s + o + pl, s + o + pl + dl + 2;
    var r, moved := Moved(now, s + n, src, dl), now[src..src + dl];
    SplicedParts(now, s + n, moved);
    hide Spliced;
    BackPart(now, was, s + o, src, src + dl);
    FrontPart(r, now, s + n, 0, s);
    FrontPart(r, now, s + n, s, s + n);
    assert r[s..s + n + dl] == r[s..s + n] + r[s + n..s + n + dl];
    BackPart(r, now, s + n + dl, e, e);
    BackPart(now, was, s + o, e, e);
  }

  /** The chunked branch of `http_cb`, for the body that begins at `s`. */
  method Dechunk(io: IoBuf, s: nat) returns (r: Dechunked)
    requires io.Valid() && s <= io.len
    modifies io`buf
    ensures io.Valid()
    ensures var b, beyond := old(io.Contents())[s..], old(io.After());
            match FindEnd(b, 0, beyond)
            case ScanMore => r == Incomplete && io.buf == old(io.buf)
            case ScanBad => r == Invalid && io.buf == old(io.buf)
            case ScanEnd(_) =>
              var (data, e) := Decoded(b, 0, beyond);
              r == Body(|data|, e) && Relocated(old(io.buf), io.buf, s, |data|, e, data)
  {
    var scan := Search(io, s);
    if scan.ScanMore? {
      return Incomplete;
    }
    if scan.ScanBad? {
      return Invalid;
    }
    hide SkipChunk, FindEnd, Decoded, Relocated;
    var n, o := SecondPass(io, s);
    return Body(n, o);
  }

  /** Second pass: the data of the chunks is moved down to `s`. */
  method SecondPass(io: IoBuf, s: nat) returns (n: nat, o: nat)
    requires io.Valid() && s <= io.len && FindEnd(io.Contents()[s..], 0, io.After()).ScanEnd?
    modifies io`buf
    ensures io.Valid()
    ensures var (data, e) := Decoded(old(io.Contents())[s..], 0, old(io.After()));
            n == |data| && o == e && Relocated(old(io.buf), io.buf, s, n, o, data)
  {
    hide SkipChunk, FindEnd, Decoded, Relocated, LeftToDecode;
    ghost var was, b, beyond := io.buf, io.Contents()[s..], io.After();
    ghost var data: seq<Byte> := [];
    n, o := 0, 0;
    var dl: nat := 1;
    StartDecode(was, s, b, beyond);
    while dl > 0
      invariant io.Valid() && o <= |b| && Relocated(was, io.buf, s, n, o, data)
      invariant dl > 0 ==> LeftToDecode(b, o, beyond, data)
      invariant dl == 0 ==> Decoded(b, 0, beyond) == (data, o)
      decreases dl > 0, |b| - o
    {
      TailKept(was, io.buf, s, n, o, data, io.len);
      StepDecoded(b, o, beyond, data);
      ghost var c := SkipChunk(b[o..], beyond);
      PieceKept(was, s, io.len, o + c.pl, o + c.pl + c.dl);
      n, o, dl, data := MoveChunk(io, s, n, o, was, data);
    }
    RelocatedLength(was, io.buf, s, n, o, data);
  }

  lemma BodyThere(was: seq<Byte>, now: seq<Byte>, s: nat, n: nat, o: nat, data: seq<Byte>)
    requires Relocated(was, now, s, n, o, data)
    ensures |now| == |was| && s + n <= s + o <= |was| && now[s..s + n] == data
  {
  }

  lemma RelocatedLength(was: seq<Byte>, now: seq<Byte>, s: nat, n: nat, o: nat, data: seq<Byte>)
    requires Relocated(was, now, s, n, o, data)
    ensures |now| == |was| && n == |data|
  {
  }

  lemma StartDecode(was: seq<Byte>, s: nat, b: seq<Byte>, beyond: Byte)
    requires s <= |was| && FindEnd(b, 0, beyond).ScanEnd?
    ensures Relocated(was, was, s, 0, 0, []) && LeftToDecode(b, 0, beyond, [])
  {
    hide FindEnd, Decoded;
    assert [] + Decoded(b, 0, beyond).0 == Decoded(b, 0, beyond).0;
  }

  /** The second pass has come to the chunk at `o` with `data` before it. */
  ghost predicate LeftToDecode(b: seq<Byte>, o: nat, beyond: Byte, data: seq<Byte>) {
    && o <= |b| && FindEnd(b, 0, beyond).ScanEnd? && FindEnd(b, o, beyond).ScanEnd?
    && Decoded(b, 0, beyond) == (data + Decoded(b, o, beyond).0, Decoded(b, o, beyond).1)
  }

  lemma StepDecoded(b: seq<Byte>, o: nat, beyond: Byte, data: seq<Byte>)
    requires LeftToDecode(b, o, beyond, data)
    ensures var c := SkipChunk(b[o..], beyond);
            && c.Chunk? && o + c.pl + c.dl + 2 <= |b|
            && var more := data + b[o + c.pl..o + c.pl + c.dl];
               if c.dl > 0 then LeftToDecode(b, o + c.pl + c.dl + 2, beyond, more)
               else Decoded(b, 0, beyond) == (more, o + c.pl + c.dl + 2)
  {
    hide SkipChunk;
    var c := SkipChunk(b[o..], beyond);
    ScanStep(b, o, beyond);
    Unfolded(b, o, beyond, c.pl, c.dl);
    hide FindEnd, Decoded;
    if c.dl > 0 {
      var piece, rest := b[o + c.pl..o + c.pl + c.dl], Decoded(b, o + c.pl + c.dl + 2, beyond).0;
      assert data + (piece + rest) == (data + piece) + rest;
    } else {
      assert b[o + c.pl..o + c.pl + c.dl] == [] && data + [] == data;
    }
  }

  lemma ScanStep(b: seq<Byte>, o: nat, beyond: Byte)
    requires o <= |b| && FindEnd(b, o, beyond).ScanEnd?
    ensures SkipChunk(b[o..], beyond).Chunk?
  {
    hide SkipChunk;
  }

  /** The bytes not yet read are still as they were, and so is the byte after them. */
  lemma TailKept(was: seq<Byte>, now: seq<Byte>, s: nat, n: nat, o: nat, data: seq<Byte>, len: nat)
    requires Relocated(was, now, s, n, o, data) && s + o <= len <= |was|
    ensures |now| == |was| && now[..len][s + o..] == was[..len][s..][o..] && (len < |was| ==> now[len] == was[len])
  {
    assert now[..len][s + o..] == now[s + o..][..len - s - o] == was[s + o..][..len - s - o] == was[..len][s..][o..];
    if len < |was| {
      assert now[len] == now[s + o..][len - s - o];
    }
  }

  lemma PieceKept(was: seq<Byte>, s: nat, len: nat, i: nat, j: nat)
    requires i <= j && s + j <= len <= |was|
    ensures was[..len][s..][i..j] == was[s + i..s + j]
  {
    PartOfPart(was, s, len - s, i, j);
    assert was[..len][s..] == was[s..s + (len - s)];
  }

  /** One turn of the second pass. */
  method MoveChunk(io: IoBuf, s: nat, n: nat, o: nat, ghost was: seq<Byte>, ghost data: seq<Byte>)
    returns (n': nat, o': nat, dl: nat, ghost data': seq<Byte>)
    requires io.Valid() && s + o <= io.len && Relocated(was, io.buf, s, n, o, data)
    requires SkipChunk(io.Contents()[s + o..], io.After()).Chunk?
    modifies io`buf
    ensures var c := SkipChunk(old(io.Contents())[s + o..], old(io.After()));
            && n' == n + c.dl && o' == o + c.pl + c.dl + 2 && dl == c.dl && s + o' <= io.len <= |was|
            && data' == data + was[s + o + c.pl..s + o + c.pl + c.dl] && io.Valid()
            && Relocated(was, io.buf, s, n', o', data')
  {
    hide SkipChunk, Moved;
    assert |io.buf| == |was|;
    var c := SkipChunkLoop(io.Contents()[s + o..], io.After());
    RelocatedMore(was, io.buf, s, n, o, data, c.pl, c.dl);
    io.buf := Moved(io.buf, s + n, s + o + c.pl, c.dl);
    n', o', dl := n + c.dl, o + c.pl + c.dl + 2, c.dl;
    data' := data + was[s + o + c.pl..s + o + c.pl + c.dl];
  }
}
