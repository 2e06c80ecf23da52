/** SHA-1 as `crypto/sha1.cpp` computes it: a 16-word schedule updated in place, registers that
    change roles instead of moving, and blocks collected in a 64-byte buffer; against FIPS 180-4. */
module Sha1 {
  import opened Numbers

  type Octet = bv8
  type Word = bv32

  // ----- FIPS 180-4

  datatype Regs = Regs(a: Word, b: Word, c: Word, d: Word, e: Word)

  /** Section 3.2, ROTL, with the amounts that occur. */
  function Rol1(x: Word): Word { (x << 1) | (x >> 31) }

  function Rol5(x: Word): Word { (x << 5) | (x >> 27) }

  function Rol30(x: Word): Word { (x << 30) | (x >> 2) }

  /** Section 4.1.1. */
  function Ch(x: Word, y: Word, z: Word): Word { (x & y) ^ (!x & z) }

  function Parity(x: Word, y: Word, z: Word): Word { x ^ y ^ z }

  function Maj(x: Word, y: Word, z: Word): Word { (x & y) ^ (x & z) ^ (y & z) }

  function F(t: nat, x: Word, y: Word, z: Word): Word {
    if t < 20 then Ch(x, y, z)
    else if t < 40 then Parity(x, y, z)
    else if t < 60 then Maj(x, y, z)
    else Parity(x, y, z)
  }

  /** Section 4.2.1. */
  function K(t: nat): Word {
    if t < 20 then 0x5a827999 else if t < 40 then 0x6ed9eba1 else if t < 60 then 0x8f1bbcdc else 0xca62c1d6
  }

  function Pack(b3: Octet, b2: Octet, b1: Octet, b0: Octet): Word {
    ((b3 as Word) << 24) | ((b2 as Word) << 16) | ((b1 as Word) << 8) | (b0 as Word)
  }

  function BigEndian(b: seq<Octet>): Word
    requires |b| == 4
  {
    Pack(b[0], b[1], b[2], b[3])
  }

  /** Section 6.1.2 step 1: the schedule of 80 words for a 64-byte block. */
  function W(block: seq<Octet>, t: nat): Word
    requires |block| == 64
  {
    if t < 16 then BigEndian(block[4 * t..4 * t + 4])
    else Rol1(W(block, t - 3) ^ W(block, t - 8) ^ W(block, t - 14) ^ W(block, t - 16))
  }

  function Sum(a: Word, f: Word, e: Word, k: Word, w: Word): Word { a + f + e + k + w }

  /** Step 3. */
  function Round(t: nat, r: Regs, w: Word): Regs {
    Regs(Sum(Rol5(r.a), F(t, r.b, r.c, r.d), r.e, K(t), w), r.a, Rol30(r.b), r.c, r.d)
  }

  function Rounds(block: seq<Octet>, h: Regs, t: nat): Regs
    requires |block| == 64
  {
    if t == 0 then h else Round(t - 1, Rounds(block, h, t - 1), W(block, t - 1))
  }

  function AddRegs(h: Regs, r: Regs): Regs {
    Regs(h.a + r.a, h.b + r.b, h.c + r.c, h.d + r.d, h.e + r.e)
  }

  /** Steps 2 to 4. */
  function Compress(h: Regs, block: seq<Octet>): Regs
    requires |block| == 64
  {
    AddRegs(h, Rounds(block, h, 80))
  }

  /** All complete blocks of `m`. */
  function Hash(h: Regs, m: seq<Octet>): Regs
    decreases |m|
  {
    if |m| < 64 then h else Hash(Compress(h, m[..64]), m[64..])
  }

  /** Section 5.3.1. */
  const INITIAL := Regs(0x67452301, 0xefcdab89, 0x98badcfe, 0x10325476, 0xc3d2e1f0)

  /** Zero bytes between the byte 0x80 and the length (section 5.1.1). */
  function ZeroCount(n: nat): nat { (119 - n % 64) % 64 }

  /** The lowest `k` bytes of `x`, the highest first. */
  function Bytes(k: nat, x: nat): (s: seq<Octet>)
    ensures |s| == k
  {
    if k == 0 then [] else Bytes(k - 1, x / 256) + [(x % 256) as Octet]
  }

  function Pad(m: seq<Octet>): seq<Octet> {
    m + [0x80] + seq(ZeroCount(|m|), _ => 0) + Bytes(8, 8 * |m|)
  }

  function WordBytes(w: Word): (s: seq<Octet>)
    ensures |s| == 4
  {
    [((w >> 24) & 255) as Octet, ((w >> 16) & 255) as Octet, ((w >> 8) & 255) as Octet, (w & 255) as Octet]
  }

  function Digest(m: seq<Octet>): (s: seq<Octet>)
    ensures |s| == 20
  {
    var h := Hash(INITIAL, Pad(m));
    WordBytes(h.a) + WordBytes(h.b) + WordBytes(h.c) + WordBytes(h.d) + WordBytes(h.e)
  }

  // ----- the compression function

  function LittleEndian(b: seq<Octet>): Word
    requires |b| == 4
  {
    Pack(b[3], b[2], b[1], b[0])
  }

  /** `blk0` on a little-endian machine. */
  function Swap(x: Word): Word {
    (((x << 24) | (x >> 8)) & 0xff00ff00) | (((x << 8) | (x >> 24)) & 0x00ff00ff)
  }

  lemma SwapPacked(b3: Octet, b2: Octet, b1: Octet, b0: Octet)
    ensures Swap(Pack(b3, b2, b1, b0)) == Pack(b0, b1, b2, b3)
  {
    var x := Pack(b3, b2, b1, b0);
    PackIs(b3, b2, b1, b0);
    PackIs(b0, b1, b2, b3);
    SwapIs(x);
    hide *;
    SwapBits(b3, b2, b1, b0, x);
  }

  lemma PackIs(b3: Octet, b2: Octet, b1: Octet, b0: Octet)
    ensures Pack(b3, b2, b1, b0) == ((b3 as Word) << 24) | ((b2 as Word) << 16) | ((b1 as Word) << 8) | (b0 as Word)
  {
  }

  lemma SwapIs(x: Word)
    ensures Swap(x) == (((x << 24) | (x >> 8)) & 0xff00ff00) | (((x << 8) | (x >> 24)) & 0x00ff00ff)
  {
  }

  lemma SwapBits(b3: Octet, b2: Octet, b1: Octet, b0: Octet, x: Word)
    requires x == ((b3 as Word) << 24) | ((b2 as Word) << 16) | ((b1 as Word) << 8) | (b0 as Word)
    ensures (((x << 24) | (x >> 8)) & 0xff00ff00) | (((x << 8) | (x >> 24)) & 0x00ff00ff) ==
            ((b0 as Word) << 24) | ((b1 as Word) << 16) | ((b2 as Word) << 8) | (b3 as Word)
  {
  }

  lemma SwapIsBigEndian(b: seq<Octet>)
    requires |b| == 4
    ensures Swap(LittleEndian(b)) == BigEndian(b)
  {
    hide Swap, Pack;
    SwapPacked(b[3], b[2], b[1], b[0]);
  }

  /** What the macros compute instead of Ch and Maj. */
  function ChRewritten(x: Word, y: Word, z: Word): Word { (x & (y ^ z)) ^ z }

  function MajRewritten(x: Word, y: Word, z: Word): Word { ((x | y) & z) | (x & y) }

  lemma Rewritten(x: Word, y: Word, z: Word)
    ensures ChRewritten(x, y, z) == Ch(x, y, z) && MajRewritten(x, y, z) == Maj(x, y, z)
  {
    ChooseBits(x, y, z);
    MajorityBits(x, y, z);
  }

  lemma ChooseBits(x: Word, y: Word, z: Word)
    ensures (x & (y ^ z)) ^ z == (x & y) ^ (!x & z)
  {
  }

  lemma MajorityBits(x: Word, y: Word, z: Word)
    ensures ((x | y) & z) | (x & y) == (x & y) ^ (x & z) ^ (y & z)
  {
  }

  /** The functions of the macros R0 to R4. */
  function Mixed(t: nat, w: Word, x: Word, y: Word): Word {
    if t < 20 then ChRewritten(w, x, y)
    else if t < 40 then w ^ x ^ y
    else if t < 60 then MajRewritten(w, x, y)
    else w ^ x ^ y
  }

  lemma MixedIsF(t: nat, w: Word, x: Word, y: Word)
    ensures Mixed(t, w, x, y) == F(t, w, x, y)
  {
    hide Ch, Maj, ChRewritten, MajRewritten;
    Rewritten(w, x, y);
  }

  /** A word of the block as the machine loads it. */
  function Loaded(bigEndian: bool, b: seq<Octet>): Word
    requires |b| == 4
  {
    if bigEndian then BigEndian(b) else LittleEndian(b)
  }

  /** The schedule before round `t`: slot k holds the latest word with index k modulo 16, or the
      loaded word that round k will put in order. */
  ghost predicate Scheduled(l: seq<Word>, bigEndian: bool, block: seq<Octet>, t: nat)
    requires |block| == 64
  {
    && |l| == 16
    && (forall k :: 0 <= k < 16 && t <= k ==> l[k] == Loaded(bigEndian, block[4 * k..4 * k + 4]))
    && (forall m {:trigger W(block, m)} :: 0 <= m < t && t <= m + 16 ==> l[m % 16] == W(block, m))
  }

  /** The step of the schedule for round `i`, on the sixteen words. */
  function NextSchedule(l: seq<Word>, bigEndian: bool, i: nat): (r: seq<Word>)
    requires |l| == 16
    ensures |r| == 16
  {
    if i < 16 then if bigEndian then l else l[i := Swap(l[i])]
    else l[i % 16 := Rol1(l[(i + 13) % 16] ^ l[(i + 8) % 16] ^ l[(i + 2) % 16] ^ l[i % 16])]
  }

  lemma OneSlot(l: seq<Word>, bigEndian: bool, i: nat)
    requires |l| == 16
    ensures var r := NextSchedule(l, bigEndian, i);
            forall k :: 0 <= k < 16 && k != i % 16 ==> r[k] == l[k]
  {
  }

  lemma FirstWords(l: seq<Word>, bigEndian: bool, block: seq<Octet>, i: nat)
    requires |block| == 64 && Scheduled(l, bigEndian, block, i) && i < 16
    ensures NextSchedule(l, bigEndian, i)[i % 16] == W(block, i)
    ensures Scheduled(NextSchedule(l, bigEndian, i), bigEndian, block, i + 1)
  {
    FirstWord(l, bigEndian, block, i);
    var r := NextSchedule(l, bigEndian, i);
    OneSlot(l, bigEndian, i);
    hide Loaded, Swap, W, NextSchedule;
    forall m {:trigger W(block, m)} | 0 <= m < i + 1 && i + 1 <= m + 16
      ensures r[m % 16] == W(block, m)
    {
      assert m % 16 == m && i % 16 == i;
      assert m < i ==> l[m % 16] == W(block, m);
    }
    forall k | 0 <= k < 16 && i + 1 <= k
      ensures r[k] == Loaded(bigEndian, block[4 * k..4 * k + 4])
    {
      assert k != i % 16 && l[k] == Loaded(bigEndian, block[4 * k..4 * k + 4]);
    }
  }

  lemma FirstWord(l: seq<Word>, bigEndian: bool, block: seq<Octet>, i: nat)
    requires |block| == 64 && Scheduled(l, bigEndian, block, i) && i < 16
    ensures NextSchedule(l, bigEndian, i)[i] == W(block, i)
  {
    hide Swap, Pack, LittleEndian, BigEndian;
    SwapIsBigEndian(block[4 * i..4 * i + 4]);
    assert l[i] == Loaded(bigEndian, block[4 * i..4 * i + 4]);
  }

  lemma SlotsOf(i: nat)
    requires i >= 16
    ensures (i + 13) % 16 == (i - 3) % 16 && (i + 8) % 16 == (i - 8) % 16
    ensures (i + 2) % 16 == (i - 14) % 16 && i % 16 == (i - 16) % 16
  {
    Wraps(i - 3);
    Wraps(i - 8);
    Wraps(i - 14);
    Wraps(i - 16);
  }

  lemma Wraps(k: nat)
    ensures (k + 16) % 16 == k % 16
  {
  }

  lemma SlotsDiffer(m: nat, i: nat)
    requires m < i < m + 16
    ensures m % 16 != i % 16
  {
  }

  lemma LaterWords(l: seq<Word>, bigEndian: bool, block: seq<Octet>, i: nat)
    requires |block| == 64 && Scheduled(l, bigEndian, block, i) && i >= 16
    ensures NextSchedule(l, bigEndian, i)[i % 16] == W(block, i)
    ensures Scheduled(NextSchedule(l, bigEndian, i), bigEndian, block, i + 1)
  {
    NewWord(l, bigEndian, block, i);
    var r := NextSchedule(l, bigEndian, i);
    OneSlot(l, bigEndian, i);
    hide W, Rol1, Loaded, NextSchedule;
    forall m {:trigger W(block, m)} | 0 <= m < i + 1 && i + 1 <= m + 16
      ensures r[m % 16] == W(block, m)
    {
      if m < i {
        SlotsDiffer(m, i);
      }
    }
  }

  lemma NewWord(l: seq<Word>, bigEndian: bool, block: seq<Octet>, i: nat)
    requires |block| == 64 && Scheduled(l, bigEndian, block, i) && i >= 16
    ensures NextSchedule(l, bigEndian, i)[i % 16] == W(block, i)
  {
    hide *;
    OldSlots(l, bigEndian, block, i);
    WordIs(block, i);
    SlotWritten(l, bigEndian, i, W(block, i - 3), W(block, i - 8), W(block, i - 14), W(block, i - 16));
  }

  lemma OldSlots(l: seq<Word>, bigEndian: bool, block: seq<Octet>, i: nat)
    requires |block| == 64 && Scheduled(l, bigEndian, block, i) && i >= 16
    ensures |l| == 16 && l[(i + 13) % 16] == W(block, i - 3) && l[(i + 8) % 16] == W(block, i - 8)
    ensures l[(i + 2) % 16] == W(block, i - 14) && l[i % 16] == W(block, i - 16)
  {
    hide *;
    SlotsOf(i);
    InSlot(l, bigEndian, block, i, i - 3);
    InSlot(l, bigEndian, block, i, i - 8);
    InSlot(l, bigEndian, block, i, i - 14);
    InSlot(l, bigEndian, block, i, i - 16);
  }

  lemma InSlot(l: seq<Word>, bigEndian: bool, block: seq<Octet>, t: nat, m: nat)
    requires |block| == 64 && Scheduled(l, bigEndian, block, t) && m < t <= m + 16
    ensures |l| == 16 && l[m % 16] == W(block, m)
  {
    hide W, Loaded;
  }

  lemma SlotWritten(l: seq<Word>, bigEndian: bool, i: nat, a: Word, b: Word, c: Word, d: Word)
    requires |l| == 16 && i >= 16
    requires l[(i + 13) % 16] == a && l[(i + 8) % 16] == b && l[(i + 2) % 16] == c && l[i % 16] == d
    ensures NextSchedule(l, bigEndian, i)[i % 16] == Rol1(a ^ b ^ c ^ d)
  {
    hide Rol1;
  }

  lemma WordIs(block: seq<Octet>, i: nat)
    requires |block| == 64 && i >= 16
    ensures W(block, i) == Rol1(W(block, i - 3) ^ W(block, i - 8) ^ W(block, i - 14) ^ W(block, i - 16))
  {
    hide Rol1;
  }

  /** `blk0` for the first sixteen rounds, `blk` after that: the word for round `i`, in its slot. */
  method NextWord(l: array<Word>, bigEndian: bool, ghost block: seq<Octet>, i: nat) returns (w: Word)
    requires |block| == 64 && l.Length == 16 && Scheduled(l[..], bigEndian, block, i)
    modifies l
    ensures w == W(block, i) && Scheduled(l[..], bigEndian, block, i + 1)
  {
    hide W, Scheduled, Swap, Rol1, Loaded, Pack, LittleEndian, BigEndian;
    if i < 16 {
      FirstWords(l[..], bigEndian, block, i);
    } else {
      LaterWords(l[..], bigEndian, block, i);
    }
    ghost var next := NextSchedule(l[..], bigEndian, i);
    if i < 16 {
      if !bigEndian {
        l[i] := Swap(l[i]);
      }
    } else {
      l[i % 16] := Rol1(l[(i + 13) % 16] ^ l[(i + 8) % 16] ^ l[(i + 2) % 16] ^ l[i % 16]);
    }
    assert l[..] == next;
    w := l[i % 16];
  }

  /** One macro call: `v w x y z` play the parts of a b c d e. */
  method R(l: array<Word>, bigEndian: bool, ghost block: seq<Octet>, ghost h: Regs,
           v: Word, w: Word, x: Word, y: Word, z: Word, i: nat) returns (w': Word, z': Word)
    requires |block| == 64 && l.Length == 16 && Scheduled(l[..], bigEndian, block, i)
    requires Regs(v, w, x, y, z) == Rounds(block, h, i)
    modifies l
    ensures Scheduled(l[..], bigEndian, block, i + 1)
    ensures Regs(z', v, w', x, y) == Rounds(block, h, i + 1)
  {
    hide *;
    var word := NextWord(l, bigEndian, block, i);
    z' := Accumulated(z, Mixed(i, w, x, y), word, K(i), Rol5(v));
    w' := Rol30(w);
    MacroIsRound(block, h, i, Regs(v, w, x, y, z));
  }

  /** `z += ...` */
  function Accumulated(z: Word, mixed: Word, word: Word, k: Word, rotated: Word): Word {
    z + (mixed + word + k + rotated)
  }

  lemma MacroIsRound(block: seq<Octet>, h: Regs, i: nat, r: Regs)
    requires |block| == 64 && r == Rounds(block, h, i)
    ensures Regs(Accumulated(r.e, Mixed(i, r.b, r.c, r.d), W(block, i), K(i), Rol5(r.a)), r.a, Rol30(r.b), r.c, r.d) ==
            Rounds(block, h, i + 1)
  {
    RoundIs(block, h, i);
    MixedIsF(i, r.b, r.c, r.d);
    SumReordered(Rol5(r.a), F(i, r.b, r.c, r.d), r.e, K(i), W(block, i));
    hide *;
  }

  lemma RoundIs(block: seq<Octet>, h: Regs, i: nat)
    requires |block| == 64
    ensures var r := Rounds(block, h, i);
            Rounds(block, h, i + 1) ==
            Regs(Sum(Rol5(r.a), F(i, r.b, r.c, r.d), r.e, K(i), W(block, i)), r.a, Rol30(r.b), r.c, r.d)
  {
    hide F, K, W, Rol5, Rol30, Sum;
  }

  lemma SumReordered(a: Word, f: Word, e: Word, k: Word, w: Word)
    ensures Accumulated(e, f, w, k, a) == Sum(a, f, e, k, w)
  {
  }

  /** Five macro calls, after which every register has its own part again. */
  method FiveRounds(l: array<Word>, bigEndian: bool, ghost block: seq<Octet>, ghost h: Regs, r: Regs, i: nat)
    returns (r': Regs)
    requires |block| == 64 && l.Length == 16 && Scheduled(l[..], bigEndian, block, i)
    requires r == Rounds(block, h, i)
    modifies l
    ensures Scheduled(l[..], bigEndian, block, i + 5) && r' == Rounds(block, h, i + 5)
  {
    hide *;
    var a, b, c, d, e := r.a, r.b, r.c, r.d, r.e;
    b, e := R(l, bigEndian, block, h, a, b, c, d, e, i);
    a, d := R(l, bigEndian, block, h, e, a, b, c, d, i + 1);
    e, c := R(l, bigEndian, block, h, d, e, a, b, c, i + 2);
    d, b := R(l, bigEndian, block, h, c, d, e, a, b, i + 3);
    c, a := R(l, bigEndian, block, h, b, c, d, e, a, i + 4);
    r' := Regs(a, b, c, d, e);
  }

  method TwentyRounds(l: array<Word>, bigEndian: bool, ghost block: seq<Octet>, ghost h: Regs, r: Regs, i: nat)
    returns (r': Regs)
    requires |block| == 64 && l.Length == 16 && Scheduled(l[..], bigEndian, block, i)
    requires r == Rounds(block, h, i)
    modifies l
    ensures Scheduled(l[..], bigEndian, block, i + 20) && r' == Rounds(block, h, i + 20)
  {
    hide *;
    r' := FiveRounds(l, bigEndian, block, h, r, i);
    r' := FiveRounds(l, bigEndian, block, h, r', i + 5);
    r' := FiveRounds(l, bigEndian, block, h, r', i + 10);
    r' := FiveRounds(l, bigEndian, block, h, r', i + 15);
  }

  function LoadedWord(bigEndian: bool, block: seq<Octet>, k: nat): Word
    requires |block| == 64 && k < 16
  {
    Loaded(bigEndian, block[4 * k..4 * k + 4])
  }

  /** `memcpy(block, buffer, 64)`: the bytes seen as machine words. */
  method LoadBlock(bigEndian: bool, block: seq<Octet>) returns (l: array<Word>)
    requires |block| == 64
    ensures fresh(l) && l.Length == 16 && Scheduled(l[..], bigEndian, block, 0)
  {
    hide Loaded, W;
    l := new Word[16](k requires 0 <= k < 16 => LoadedWord(bigEndian, block, k));
  }

  lemma RoundsAround(block: seq<Octet>, h: Regs)
    requires |block| == 64
    ensures Rounds(block, h, 0) == h && Compress(h, block) == AddRegs(h, Rounds(block, h, 80))
  {
    hide Round, AddRegs;
  }

  /** `sha1_transform`. */
  method Transform(bigEndian: bool, h: Regs, block: seq<Octet>) returns (h': Regs)
    requires |block| == 64
    ensures h' == Compress(h, block)
  {
    hide *;
    RoundsAround(block, h);
    var l := LoadBlock(bigEndian, block);
    var r := TwentyRounds(l, bigEndian, block, h, h, 0);
    r := TwentyRounds(l, bigEndian, block, h, r, 20);
    r := TwentyRounds(l, bigEndian, block, h, r, 40);
    r := TwentyRounds(l, bigEndian, block, h, r, 60);
    h' := AddRegs(h, r);
  }

  // ----- the message as a whole

  lemma {:induction false} HashAppend(h: Regs, a: seq<Octet>, b: seq<Octet>)
    requires |a| % 64 == 0
    ensures Hash(h, a + b) == Hash(Hash(h, a), b)
    decreases |a|
  {
    hide Compress;
    if a == [] {
      assert a + b == b;
    } else {
      assert (a + b)[..64] == a[..64] && (a + b)[64..] == a[64..] + b;
      HashAppend(Compress(h, a[..64]), a[64..], b);
    }
  }

  /** A complete block more, after complete blocks. */
  lemma HashBlock(h: Regs, m: seq<Octet>, n: nat)
    requires n + 64 <= |m| && n % 64 == 0
    ensures Hash(h, m[..n + 64]) == Compress(Hash(h, m[..n]), m[n..n + 64])
  {
    var b := m[n..n + 64];
    assert m[..n + 64] == m[..n] + b;
    HashAppend(h, m[..n], b);
    hide Compress;
    assert b[..64] == b && Hash(Compress(Hash(h, m[..n]), b), b[64..]) == Compress(Hash(h, m[..n]), b);
  }

  const TWO32: nat := 0x1_0000_0000

  /** The two 32-bit halves of the bit count. */
  predicate Counted(count0: nat, count1: nat, n: nat) {
    count0 == 8 * n % TWO32 && count1 == 8 * n / TWO32 % TWO32
  }

  function NewCount0(count0: nat, len: nat): nat {
    (count0 + (len % TWO32) * 8 % TWO32) % TWO32
  }

  function NewCount1(count0: nat, count1: nat, len: nat): nat {
    var carried := if NewCount0(count0, len) < count0 then (count1 + 1) % TWO32 else count1;
    (carried + len / 0x2000_0000 % TWO32) % TWO32
  }

  lemma CarryStep(a: nat, b: nat)
    ensures (a + b) % TWO32 == (a % TWO32 + b % TWO32) % TWO32
    ensures (a + b) / TWO32 == a / TWO32 + b / TWO32 + if (a + b) % TWO32 < a % TWO32 then 1 else 0
  {
  }

  lemma EightTimes(len: nat)
    ensures (len % TWO32) * 8 % TWO32 == 8 * len % TWO32
    ensures 8 * len / TWO32 == len / 0x2000_0000
  {
    var q, r := len / TWO32, len % TWO32;
    assert 8 * len == TWO32 * (8 * q) + 8 * r;
    var q', r' := 8 * r / TWO32, 8 * r % TWO32;
    assert 8 * len == TWO32 * (8 * q + q') + r';
  }

  lemma HighHalf(x: nat, y: nat, c: nat)
    requires c < 2
    ensures (if c == 1 then ((x % TWO32 + 1) % TWO32 + y % TWO32) % TWO32 else (x % TWO32 + y % TWO32) % TWO32) ==
            (x + y + c) % TWO32
  {
    CarryStep(x, c);
    CarryStep(x + c, y);
  }

  /** The carry test and the three additions keep the 64-bit count. */
  lemma CountStep(count0: nat, count1: nat, n: nat, len: nat)
    requires Counted(count0, count1, n)
    ensures Counted(NewCount0(count0, len), NewCount1(count0, count1, len), n + len)
  {
    EightTimes(len);
    CarryStep(8 * n, 8 * len);
    var carry := (8 * n + 8 * len) % TWO32 < 8 * n % TWO32;
    HighHalf(8 * n / TWO32, 8 * len / TWO32, if carry then 1 else 0);
    assert 8 * (n + len) == 8 * n + 8 * len;
  }

  // ----- the context

  /** The context after the bytes of `m`. */
  ghost predicate Holds(state: Regs, count0: nat, count1: nat, buffer: seq<Octet>, m: seq<Octet>) {
    var j := |m| % 64;
    && |buffer| == 64 && Counted(count0, count1, |m|)
    && state == Hash(INITIAL, m[..|m| - j]) && buffer[..j] == m[|m| - j..]
  }

  /** The place in the buffer, from the low half of the count. */
  lemma BufferPlace(count0: nat, count1: nat, n: nat)
    requires Counted(count0, count1, n)
    ensures count0 / 8 % 64 == n % 64
  {
    var q, r := n / 0x2000_0000, n % 0x2000_0000;
    hide *;
    CountIs(count0, count1, n, q, r);
    LowPlace(n, q, r);
  }

  lemma CountIs(count0: nat, count1: nat, n: nat, q: nat, r: nat)
    requires Counted(count0, count1, n) && n == q * 0x2000_0000 + r && r < 0x2000_0000
    ensures count0 == 8 * r
  {
    assert 8 * n == q * TWO32 + 8 * r;
    Divided(8 * n, TWO32, q, 8 * r);
  }

  lemma LowPlace(n: nat, q: nat, r: nat)
    requires n == q * 0x2000_0000 + r
    ensures 8 * r / 8 % 64 == n % 64
  {
    assert n == 64 * (q * 0x80_0000) + r;
  }

  lemma FilledBuffer(buffer: seq<Octet>, m: seq<Octet>, data: seq<Octet>)
    requires |buffer| == 64 && buffer[..|m| % 64] == m[|m| - |m| % 64..] && |m| % 64 + |data| > 63
    ensures var j := |m| % 64;
            buffer[..j] + data[..64 - j] == (m + data)[|m| - j..|m| - j + 64]
  {
    var j := |m| % 64;
    assert (m + data)[|m| - j..|m| - j + 64] == m[|m| - j..] + data[..64 - j];
  }

  lemma RestOf(m: seq<Octet>, data: seq<Octet>, i: nat)
    requires i <= |data| < i + 64 && (|m| + i) % 64 == 0
    ensures var t := m + data;
            && |t| % 64 == |data| - i && t[|t| - |t| % 64..] == data[i..] && t[..|t| - |t| % 64] == t[..|m| + i]
  {
    assert |m + data| == (|m| + i) + (|data| - i);
  }

  lemma StillInside(m: seq<Octet>, data: seq<Octet>, buffer: seq<Octet>)
    requires |buffer| == 64 && |m| % 64 + |data| <= 63 && buffer[..|m| % 64] == m[|m| - |m| % 64..]
    ensures var t, j := m + data, |m| % 64;
            && |t| % 64 == j + |data| && t[..|t| - |t| % 64] == m[..|m| - j]
            && t[|t| - |t| % 64..] == buffer[..j] + data
  {
    var t, j := m + data, |m| % 64;
    assert |t| == (|m| - j) + (j + |data|);
    assert |t| % 64 == j + |data|;
    assert t[..|m| - j] == m[..|m| - j];
    assert t[|m| - j..] == m[|m| - j..] + data;
  }

  class Context {
    const bigEndian: bool
    var state: Regs
    var count0: nat
    var count1: nat
    var buffer: seq<Octet>

    ghost predicate Absorbed(m: seq<Octet>)
      reads this
    {
      Holds(state, count0, count1, buffer, m)
    }

    /** `sha1_init`. */
    constructor (bigEndian: bool)
      ensures Absorbed([]) && this.bigEndian == bigEndian
    {
      this.bigEndian := bigEndian;
      state, count0, count1 := INITIAL, 0, 0;
      buffer := seq(64, _ => 0);
    }

    method AddCount(len: nat, ghost n: nat) returns (j: nat)
      requires Counted(count0, count1, n)
      modifies `count0, `count1
      ensures Counted(count0, count1, n + len) && j == n % 64
    {
      hide *;
      CountStep(count0, count1, n, len);
      BufferPlace(count0, count1, n);
      var was := count0;
      count0 := NewCount0(was, len);
      count1 := NewCount1(was, count1, len);
      j := was / 8 % 64;
    }

    /** `sha1_update`. */
    method Update(data: seq<Octet>, ghost m: seq<Octet>)
      requires Absorbed(m)
      modifies this
      ensures Absorbed(m + data)
    {
      hide Hash, Counted, INITIAL;
      ghost var t := m + data;
      var j := AddCount(|data|, |m|);
      var i := 0;
      if j + |data| > 63 {
        i := Blocks(data, m, j);
        RestOf(m, data, i);
        j := 0;
      } else {
        StillInside(m, data, buffer);
      }
      buffer := buffer[..j] + data[i..] + buffer[j + (|data| - i)..];
    }

    /** The buffer filled up, and every further complete block of `data`. */
    method Blocks(data: seq<Octet>, ghost m: seq<Octet>, j: nat) returns (i: nat)
      requires |buffer| == 64 && j == |m| % 64 && j + |data| > 63
      requires buffer[..j] == m[|m| - j..] && state == Hash(INITIAL, m[..|m| - j])
      modifies `state, `buffer
      ensures |buffer| == 64 && i <= |data| < i + 64 && (|m| + i) % 64 == 0
      ensures state == Hash(INITIAL, (m + data)[..|m| + i])
    {
      hide Hash, Compress, INITIAL;
      ghost var t := m + data;
      FilledBuffer(buffer, m, data);
      HashBlock(INITIAL, t, |m| - j);
      i := 64 - j;
      buffer := buffer[..j] + data[..i];
      assert t[..|m| - j] == m[..|m| - j];
      state := Transform(bigEndian, state, buffer);
      while i + 63 < |data|
        invariant 64 - j <= i <= |data| && (|m| + i) % 64 == 0 && |buffer| == 64
        invariant state == Hash(INITIAL, t[..|m| + i])
      {
        HashBlock(INITIAL, t, |m| + i);
        assert data[i..i + 64] == t[|m| + i..|m| + i + 64];
        state := Transform(bigEndian, state, data[i..i + 64]);
        i := i + 64;
      }
    }

    /** The bit count, the highest byte first. */
    function FinalCount(): (s: seq<Octet>)
      reads this
      ensures |s| == 8
    {
      Bytes(4, count1) + Bytes(4, count0)
    }

    /** `count[0] & 504`, in bytes. */
    function Place(): nat
      reads this
    {
      count0 / 8 % 64
    }

    lemma PlaceIs(m: seq<Octet>)
      requires Absorbed(m)
      ensures Place() == |m| % 64
    {
      BufferPlace(count0, count1, |m|);
    }

    /** Zero bytes up to the place of the length. */
    method AddZeros(ghost m: seq<Octet>, ghost n: nat) returns (ghost z: nat)
      requires Absorbed(m) && |m| == n + 1
      modifies this
      ensures z == ZeroCount(n) && Absorbed(m + seq(z, _ => 0))
    {
      hide Hash, Holds, INITIAL, Place;
      z := 0;
      assert m + seq(0, _ => 0) == m;
      PlaceIs(m);
      while Place() != 56
        invariant Absorbed(m + seq(z, _ => 0)) && Place() == (n + 1 + z) % 64 && z <= ZeroCount(n)
        decreases ZeroCount(n) - z
      {
        ghost var now := m + seq(z, _ => 0);
        ZeroCountIs(n, z);
        Update([0], now);
        assert now + [0] == m + seq(z + 1, _ => 0);
        z := z + 1;
        PlaceIs(m + seq(z, _ => 0));
      }
      ZeroCountIs(n, z);
    }

    /** `sha1_final`. */
    method Final(ghost m: seq<Octet>) returns (digest: seq<Octet>)
      requires Absorbed(m)
      modifies this
      ensures digest == Digest(m)
    {
      CountBytes(count0, count1, |m|);
      hide Hash, INITIAL, Bytes, Holds;
      var finalCount := FinalCount();
      Update([0x80], m);
      ghost var z := AddZeros(m + [0x80], |m|);
      Update(finalCount, m + [0x80] + seq(z, _ => 0));
      AllBlocks(m);
      digest := WordBytes(state.a) + WordBytes(state.b) + WordBytes(state.c) + WordBytes(state.d) + WordBytes(state.e);
    }

    lemma AllBlocks(m: seq<Octet>)
      requires Absorbed(Pad(m))
      ensures state == Hash(INITIAL, Pad(m))
    {
      hide Bytes, Hash, Pad;
      var t := Pad(m);
      PadLength(m);
      assert t[..|t|] == t;
    }
  }

  lemma PadLength(m: seq<Octet>)
    ensures |Pad(m)| % 64 == 0
  {
    hide Bytes;
    ZeroCountIs(|m|, ZeroCount(|m|));
  }

  lemma ZeroCountIs(n: nat, z: nat)
    ensures z <= ZeroCount(n) ==> ((n + 1 + z) % 64 == 56 <==> z == ZeroCount(n))
  {
    var q, r := n / 64, n % 64;
    assert n + 1 + z == 64 * q + (r + 1 + z);
    assert (n + 1 + z) % 64 == (r + 1 + z) % 64;
  }

  /** The two halves of the count, written one after the other. */
  lemma CountBytes(count0: nat, count1: nat, n: nat)
    requires Counted(count0, count1, n)
    ensures Bytes(4, count1) + Bytes(4, count0) == Bytes(8, 8 * n)
  {
    LowBytes(8 * n);
    LowBytes(8 * n / TWO32);
    HighBytes(8 * n);
  }

  /** Four bytes depend on the value modulo 2^32. */
  lemma LowBytes(x: nat)
    ensures Bytes(4, x % TWO32) == Bytes(4, x)
  {
    BytesModulo(4, x, 0x1_0000_0000);
  }

  function Power256(k: nat): (p: nat)
    ensures p > 0
  {
    if k == 0 then 1 else 256 * Power256(k - 1)
  }

  lemma {:induction false} BytesModulo(k: nat, x: nat, p: nat)
    requires p == Power256(k)
    ensures Bytes(k, x % p) == Bytes(k, x)
  {
    if k > 0 {
      ModuloParts(x, Power256(k - 1));
      BytesModulo(k - 1, x / 256, Power256(k - 1));
    }
  }

  lemma ModuloParts(x: nat, p: nat)
    requires p > 0
    ensures x % (256 * p) / 256 == x / 256 % p && x % (256 * p) % 256 == x % 256
  {
    var y, r := x / 256, x % 256;
    var q, s := y / p, y % p;
    assert x == q * (256 * p) + (256 * s + r);
    assert 0 <= 256 * s + r < 256 * p;
    Divided(x, 256 * p, q, 256 * s + r);
  }

  /** Eight bytes are the upper four and the lower four. */
  lemma HighBytes(x: nat)
    ensures Bytes(8, x) == Bytes(4, x / TWO32) + Bytes(4, x)
  {
    BytesSplit(4, 4, x);
    FourShifts(x);
  }

  lemma FourShifts(x: nat)
    ensures Shifted(x, 4) == x / TWO32
  {
    ShiftMore(x, 3);
    ShiftMore(x / 256, 2);
    ShiftMore(x / 256 / 256, 1);
    ShiftMore(x / 256 / 256 / 256, 0);
    hide Shifted;
    FourQuotients(x);
  }

  lemma ShiftMore(x: nat, k: nat)
    ensures Shifted(x, k + 1) == Shifted(x / 256, k) && Shifted(x, 0) == x
  {
  }

  lemma FourQuotients(x: nat)
    ensures x / 256 / 256 / 256 / 256 == x / 0x1_0000_0000
  {
  }

  /** Without its lowest `k` bytes. */
  function Shifted(x: nat, k: nat): nat {
    if k == 0 then x else Shifted(x / 256, k - 1)
  }

  lemma {:induction false} BytesSplit(a: nat, b: nat, x: nat)
    ensures Bytes(a + b, x) == Bytes(a, Shifted(x, b)) + Bytes(b, x)
    decreases b
  {
    if b > 0 {
      var last := [(x % 256) as Octet];
      BytesSplit(a, b - 1, x / 256);
      var high, low := Bytes(a, Shifted(x, b)), Bytes(b - 1, x / 256);
      assert Bytes(a + b, x) == (high + low) + last == high + (low + last);
    }
  }
}
