/** Printing into a growable buffer one character at a time, `pfn_iobuf_private`: what is stored, and
    what the reallocations cost altogether. */
module PrintBuffer {
  import opened Bytes
  import opened IoBuf

  /** Length and size of the buffer, and the bytes copied by all reallocations so far. */
  datatype Use = Use(len: nat, size: nat, copied: nat)

  /** Geometric growth: one and a half times the size, or what is needed. */
  function Grown(u: Use, align: nat): Use {
    var want, grow := u.len + 2, u.size + u.size / 2;
    u.(size := Roundup(if want > grow then want else grow, align), copied := u.copied + u.len)
  }

  /** One character more. */
  function Put(u: Use, align: nat): Use {
    var g := if u.len + 2 > u.size then Grown(u, align) else u;
    g.(len := g.len + 1)
  }

  function PutMany(n: nat, align: nat): Use {
    if n == 0 then Use(0, 0, 0) else Put(PutMany(n - 1, align), align)
  }

  /** What pays for the copies: room for a terminator, and the size reached. */
  predicate Paid(u: Use) {
    && u.copied <= 2 * u.size && u.copied <= 3 * u.len
    && (if u.size == 0 then u.len == 0 && u.copied == 0 else u.len + 1 <= u.size)
  }

  lemma PutPays(u: Use, align: nat)
    requires Paid(u)
    ensures Paid(Put(u, align))
  {
    if u.len + 2 > u.size {
      var g := Grown(u, align);
      assert g.size >= u.len + 2 && g.size >= u.size + u.size / 2;
    }
  }

  /** Appending `n` characters to an empty buffer copies at most `3 * n` bytes, whatever the alignment. */
  lemma {:induction false} CopiesAreLinear(n: nat, align: nat)
    ensures PutMany(n, align).len == n && PutMany(n, align).copied <= 3 * n && Paid(PutMany(n, align))
  {
    if n > 0 {
      CopiesAreLinear(n - 1, align);
      PutPays(PutMany(n - 1, align), align);
    }
  }

  ghost function UseOf(io: IoBuf): Use
    reads io
  {
    Use(io.len, |io.buf|, io.copied)
  }

  /** `pfn_iobuf_private`; `expand` tells `pfn_iobuf` from `pfn_iobuf_noresize`. */
  method PutChar(io: IoBuf, ch: Byte, expand: bool)
    requires io.Valid()
    modifies io
    ensures io.Valid()
    ensures expand ==> UseOf(io) == Put(old(UseOf(io)), io.align) && io.Contents() == old(io.Contents()) + [ch]
                       && io.After() == 0 && io.len < |io.buf|
    ensures !expand ==> |io.buf| == old(|io.buf|) && io.Contents() == Fitted(old(io.Contents()), ch, |io.buf|)
    ensures !expand && old(io.len) + 2 <= |io.buf| ==> io.After() == 0 && io.len < |io.buf|
  {
    ghost var s := io.Contents();
    if expand && io.len + 2 > |io.buf| {
      var want, grow := io.len + 2, |io.buf| + |io.buf| / 2;
      io.Resize(if want > grow then want else grow);
    }
    assert io.Contents() == s;
    if io.len + 2 <= |io.buf| {
      io.buf := io.buf[io.len := ch];
      io.len := io.len + 1;
      io.buf := io.buf[io.len := 0];
      assert io.Contents() == s + [ch];
    } else if io.len < |io.buf| {
      io.buf := io.buf[io.len := 0];
      io.len := io.len + 1;
      assert io.Contents() == s + [0];
    }
  }

  /** Without growth: a character while there is room for it and a terminator, then the terminator, then nothing. */
  function Fitted(s: seq<Byte>, ch: Byte, size: nat): seq<Byte> {
    if |s| + 2 <= size then s + [ch] else if |s| < size then s + [0] else s
  }

  function FittedAll(s: seq<Byte>, text: seq<Byte>, size: nat): seq<Byte>
    decreases |text|
  {
    if text == [] then s else FittedAll(Fitted(s, text[0], size), text[1..], size)
  }

  /** A buffer of fixed size holds the text, or as much as fits before a terminator. */
  lemma {:induction false} FixedHolds(s: seq<Byte>, text: seq<Byte>, size: nat)
    requires |s| < size
    ensures FittedAll(s, text, size) ==
            if |s| + |text| < size then s + text else (s + text)[..size - 1] + [0]
    decreases |text|
  {
    if text == [] {
      assert s + text == s;
    } else if |s| + 2 <= size {
      FixedHolds(s + [text[0]], text[1..], size);
      assert s + [text[0]] + text[1..] == s + text;
    } else {
      FullStays(s + [0], text[1..], size);
      assert (s + text)[..size - 1] == s;
    }
  }

  lemma {:induction false} FullStays(s: seq<Byte>, text: seq<Byte>, size: nat)
    requires |s| >= size
    ensures FittedAll(s, text, size) == s
    decreases |text|
  {
    if text != [] {
      FullStays(s, text[1..], size);
    }
  }

  /** A whole text printed into an empty buffer that grows. */
  method Print(text: seq<Byte>, align: nat) returns (io: IoBuf)
    ensures fresh(io) && io.Valid() && io.Contents() == text && io.copied <= 3 * |text|
    ensures text != [] ==> io.len < |io.buf| && io.buf[io.len] == 0
  {
    hide Put;
    io := new IoBuf(align);
    var i := 0;
    while i < |text|
      invariant i <= |text| && fresh(io) && io.Valid() && io.align == align
      invariant io.Contents() == text[..i] && UseOf(io) == PutMany(i, align)
      invariant i > 0 ==> io.len < |io.buf| && io.buf[io.len] == 0
    {
      assert text[..i + 1] == text[..i] + [text[i]];
      PutChar(io, text[i], true);
      i := i + 1;
    }
    assert text[..i] == text;
    CopiesAreLinear(|text|, align);
  }
}
