/** Base64 (RFC 4648 section 4): the streaming encoder that keeps pending bits in its output buffer,
    the block encoder of the printer, and the decoder. */
module Base64 {
  type Octet = bv8

  const PADDING: Octet := 61

  // ----- single characters

  /** `base64_encode_single`. */
  function EncodeChar(c: Octet): Octet {
    if c < 26 then c + 65
    else if c < 52 then c - 26 + 97
    else if c < 62 then c - 52 + 48
    else if c == 62 then 43 else 47
  }

  const INVALID: Octet := 255

  /** `base64_decode_single`, with 255 for -1. */
  function DecodeChar(c: Octet): Octet {
    if 65 <= c <= 90 then c - 65
    else if 97 <= c <= 122 then c + 26 - 97
    else if 48 <= c <= 57 then c + 52 - 48
    else if c == 43 then 62
    else if c == 47 then 63
    else if c == PADDING then 64
    else INVALID
  }

  lemma CharBack(c: Octet)
    requires c < 64
    ensures DecodeChar(EncodeChar(c)) == c && EncodeChar(c) != PADDING
  {
  }

  // ----- blocks of three bytes

  // the pieces of a byte, each in its place in a character
  function High6(a: Octet): Octet { a >> 2 }

  function Low2(a: Octet): Octet { (a & 3) << 4 }

  function High4(b: Octet): Octet { b >> 4 }

  function Low4(b: Octet): Octet { (b & 15) << 2 }

  function High2(c: Octet): Octet { c >> 6 }

  function Low6(c: Octet): Octet { c & 63 }

  function Or(p: Octet, q: Octet): Octet { p | q }

  function First(a: Octet): Octet { EncodeChar(High6(a)) }

  function Second(a: Octet, b: Octet): Octet { EncodeChar(Or(Low2(a), High4(b))) }

  function Third(b: Octet, c: Octet): Octet { EncodeChar(Or(Low4(b), High2(c))) }

  function Fourth(c: Octet): Octet { EncodeChar(Low6(c)) }

  function Block(a: Octet, b: Octet, c: Octet): (s: seq<Octet>)
    ensures |s| == 4
  {
    [First(a), Second(a, b), Third(b, c), Fourth(c)]
  }

  function Encoded(x: seq<Octet>): (s: seq<Octet>)
    ensures |s| == 4 * ((|x| + 2) / 3)
  {
    if x == [] then []
    else if |x| == 1 then [First(x[0]), Second(x[0], 0), PADDING, PADDING]
    else if |x| == 2 then [First(x[0]), Second(x[0], x[1]), Third(x[1], 0), PADDING]
    else Block(x[0], x[1], x[2]) + Encoded(x[3..])
  }

  /** Characters for one block, as `bcpy` puts them into `tmp`. */
  function BlockChars(x: seq<Octet>, i: nat): (s: seq<Octet>)
    requires i < |x|
    ensures |s| == 4
  {
    var c1 := x[i];
    var c2 := if i + 1 < |x| then x[i + 1] else 0;
    var c3 := if i + 2 < |x| then x[i + 2] else 0;
    [First(c1), Second(c1, c2),
     if i + 1 < |x| then Third(c2, c3) else PADDING,
     if i + 2 < |x| then Fourth(c3) else PADDING]
  }

  /** `bcpy`: the block encoder behind the printer; `out` is what it emits. */
  method PrintBase64(buf: seq<Octet>) returns (out: seq<Octet>)
    ensures out == Encoded(buf)
  {
    out := [];
    var i := 0;
    while i < |buf|
      invariant i <= |buf| + 2 && out + Encoded(if i < |buf| then buf[i..] else []) == Encoded(buf)
    {
      BlockIsEncoded(buf, i);
      out := out + BlockChars(buf, i);
      i := i + 3;
    }
  }

  lemma BlockIsEncoded(x: seq<Octet>, i: nat)
    requires i < |x|
    ensures Encoded(x[i..]) == BlockChars(x, i) + Encoded(if i + 3 < |x| then x[i + 3..] else [])
  {
    hide First, Second, Third, Fourth;
    var t := x[i..];
    if |t| >= 3 {
      assert t[3..] == if i + 3 < |x| then x[i + 3..] else [];
    }
  }

  // ----- streaming

  /** The value of `n` that `base64_update` returns after the bytes of `x`. */
  function Place(x: seq<Octet>): (n: nat)
    ensures n % 4 == |x| % 3
  {
    4 * (|x| / 3) + |x| % 3
  }

  /** What stands in the output buffer after the bytes of `x`: complete characters and, unless a block
      is complete, the pending bits in the place of the next character. */
  function Progress(x: seq<Octet>): (s: seq<Octet>)
    ensures |s| == Place(x) + if Place(x) % 4 == 0 then 0 else 1
  {
    if |x| == 0 then []
    else if |x| == 1 then [First(x[0]), Low2(x[0])]
    else if |x| == 2 then [First(x[0]), Second(x[0], x[1]), Low4(x[1])]
    else Block(x[0], x[1], x[2]) + Progress(x[3..])
  }

  /** What `base64_update` makes of the last character. */
  function Updated(s: seq<Octet>, n: nat, ch: Octet): seq<Octet>
    requires |s| == n + if n % 4 == 0 then 0 else 1
  {
    var rem := n % 4 % 3;
    if rem == 0 then s[..n] + [EncodeChar(High6(ch)), Low2(ch)]
    else if rem == 1 then s[..n] + [EncodeChar(Or(s[n], High4(ch))), Low4(ch)]
    else s[..n] + [EncodeChar(Or(s[n], High2(ch))), EncodeChar(Low6(ch))]
  }

  /** Every byte extends the progress as the blocks do. */
  lemma {:induction false} UpdateProgress(x: seq<Octet>, ch: Octet)
    ensures Progress(x + [ch]) == Updated(Progress(x), Place(x), ch)
    decreases |x|
  {
    hide Block, First, Second, Third, Fourth, EncodeChar, High6, Low2, High4, Low4, High2, Low6, Or;
    var y := x + [ch];
    if |x| < 3 {
      SmallUpdate(x, ch);
    } else {
      hide *;
      var block := Block(x[0], x[1], x[2]);
      UpdateProgress(x[3..], ch);
      assert y[3..] == x[3..] + [ch] && y[0] == x[0] && y[1] == x[1] && y[2] == x[2];
      ProgressMore(x);
      ProgressMore(y);
      ShiftUpdate(block, Progress(x[3..]), Place(x[3..]), ch);
    }
  }

  lemma ProgressMore(x: seq<Octet>)
    requires |x| >= 3
    ensures Progress(x) == Block(x[0], x[1], x[2]) + Progress(x[3..]) && Place(x) == 4 + Place(x[3..])
    ensures Place(x[3..]) <= |Progress(x[3..])| && |Block(x[0], x[1], x[2])| == 4
  {
    hide Block;
  }

  lemma ShiftUpdate(block: seq<Octet>, s: seq<Octet>, n: nat, ch: Octet)
    requires |block| == 4 && |s| == n + if n % 4 == 0 then 0 else 1
    ensures Updated(block + s, 4 + n, ch) == block + Updated(s, n, ch)
  {
    hide EncodeChar, High6, Low2, High4, Low4, High2, Low6, Or;
    var t := block + s;
    assert t[..4 + n] == block + s[..n] && (n < |s| ==> t[4 + n] == s[n]);
  }

  lemma SmallUpdate(x: seq<Octet>, ch: Octet)
    requires |x| < 3
    ensures Progress(x + [ch]) == Updated(Progress(x), Place(x), ch)
  {
    hide *;
    if |x| == 0 {
      assert x == [] && x + [ch] == [ch];
      FirstByte(ch);
    } else if |x| == 1 {
      var a := x[0];
      assert x == [a] && x + [ch] == [a, ch];
      SecondByte(a, ch);
    } else {
      var a, b := x[0], x[1];
      assert x == [a, b] && x + [ch] == [a, b, ch];
      ThirdByte(a, b, ch);
    }
  }

  lemma FirstByte(ch: Octet)
    ensures Progress([ch]) == Updated(Progress([]), Place([]), ch)
  {
    hide EncodeChar, High6, Low2, High4, Low4, High2, Low6, Or;
  }

  lemma SecondByte(a: Octet, ch: Octet)
    ensures Progress([a, ch]) == Updated(Progress([a]), Place([a]), ch)
  {
    hide EncodeChar, High6, Low2, High4, Low4, High2, Low6, Or;
    var s := [First(a), Low2(a)];
    assert Progress([a]) == s && s[..1] == [First(a)];
  }

  lemma ThirdByte(a: Octet, b: Octet, ch: Octet)
    ensures Progress([a, b, ch]) == Updated(Progress([a, b]), Place([a, b]), ch)
  {
    hide EncodeChar, High6, Low2, High4, Low4, High2, Low6, Or;
    var s := [First(a), Second(a, b), Low4(b)];
    assert Progress([a, b]) == s && s[..2] == [First(a), Second(a, b)];
    var t := [a, b, ch];
    assert t[3..] == [];
    assert Progress(t) == Block(a, b, ch) + [];
  }

  /** `base64_update`. */
  method Put(to: array<Octet>, n0: nat, ch: Octet) returns (n: nat)
    requires n0 % 4 < 3 && n0 + 2 <= to.Length
    modifies to
    ensures n == if n0 % 4 == 2 then n0 + 2 else n0 + 1
    ensures to[..n0] == old(to[..n0]) && to[n0 + 2..] == old(to[n0 + 2..])
    ensures n0 % 4 == 0 ==> to[n0] == EncodeChar(High6(ch)) && to[n0 + 1] == Low2(ch)
    ensures n0 % 4 == 1 ==> to[n0] == EncodeChar(Or(old(to[n0]), High4(ch))) && to[n0 + 1] == Low4(ch)
    ensures n0 % 4 == 2 ==> to[n0] == EncodeChar(Or(old(to[n0]), High2(ch))) && to[n0 + 1] == EncodeChar(Low6(ch))
  {
    hide EncodeChar, High6, Low2, High4, Low4, High2, Low6, Or;
    n := n0;
    var rem := n % 4 % 3;
    if rem == 0 {
      to[n] := EncodeChar(High6(ch));
      n := n + 1;
      to[n] := Low2(ch);
    } else if rem == 1 {
      to[n] := EncodeChar(Or(to[n], High4(ch)));
      n := n + 1;
      to[n] := Low4(ch);
    } else {
      to[n] := EncodeChar(Or(to[n], High2(ch)));
      n := n + 1;
      to[n] := EncodeChar(Low6(ch));
      n := n + 1;
    }
  }

  /** The same, in terms of the bytes put so far. */
  method Update(ch: Octet, to: array<Octet>, n0: nat, ghost x: seq<Octet>) returns (n: nat)
    requires n0 == Place(x) && |Progress(x)| <= to.Length && to[..|Progress(x)|] == Progress(x) && n0 + 2 <= to.Length
    modifies to
    ensures n == Place(x + [ch]) && |Progress(x + [ch])| <= to.Length
    ensures to[..|Progress(x + [ch])|] == Progress(x + [ch])
  {
    UpdateProgress(x, ch);
    ghost var s := Progress(x);
    hide Progress, EncodeChar, High6, Low2, High4, Low4, High2, Low6, Or;
    assert to[..n0] == s[..n0] && (n0 < |s| ==> to[n0] == s[n0]);
    n := Put(to, n0, ch);
    assert to[..n0 + 2] == to[..n0] + [to[n0], to[n0 + 1]];
  }

  /** What `base64_final` makes of the characters so far: a last update with zero, and padding. */
  function Finished(s: seq<Octet>, n: nat): seq<Octet>
    requires |s| == n + (if n % 4 == 0 then 0 else 1) && n % 4 < 3
  {
    if n % 4 == 0 then s
    else Updated(s, n, 0)[..n + 1] + if n % 4 == 2 then [PADDING] else [PADDING, PADDING]
  }

  lemma {:induction false} FinalIsEncoded(x: seq<Octet>)
    ensures Encoded(x) == Finished(Progress(x), Place(x))
    decreases |x|
  {
    hide Block, First, Second, EncodeChar, High6, Low2, High4, Low4, High2, Low6, Or;
    if |x| == 0 {
    } else if |x| == 1 {
      OneLeft(x[0]);
      assert x == [x[0]];
    } else if |x| == 2 {
      TwoLeft(x[0], x[1]);
      assert x == [x[0], x[1]];
    } else {
      FinalIsEncoded(x[3..]);
      assert Place(x) == 4 + Place(x[3..]);
      hide Updated, Finished;
      ShiftFinished(Block(x[0], x[1], x[2]), Progress(x[3..]), Place(x[3..]));
    }
  }

  lemma ShiftFinished(block: seq<Octet>, s: seq<Octet>, n: nat)
    requires |block| == 4 && |s| == n + (if n % 4 == 0 then 0 else 1) && n % 4 < 3
    ensures Finished(block + s, 4 + n) == block + Finished(s, n)
  {
    ShiftUpdate(block, s, n, 0);
    hide Updated;
    if n % 4 != 0 {
      var t := Updated(s, n, 0);
      assert (block + t)[..4 + n + 1] == block + t[..n + 1];
    }
  }

  lemma OneLeft(a: Octet)
    ensures Encoded([a]) == Finished(Progress([a]), 1)
  {
    hide EncodeChar, High6, Low2, High4, Low4, High2, Low6, Or;
    var s := [First(a), Low2(a)];
    assert Progress([a]) == s && s[..1] == [First(a)];
    assert Updated(s, 1, 0)[..2] == [First(a), Second(a, 0)];
  }

  lemma TwoLeft(a: Octet, b: Octet)
    ensures Encoded([a, b]) == Finished(Progress([a, b]), 2)
  {
    hide EncodeChar, High6, Low2, High4, Low4, High2, Low6, Or;
    var s := [First(a), Second(a, b), Low4(b)];
    assert Progress([a, b]) == s && s[..2] == [First(a), Second(a, b)];
    assert Updated(s, 2, 0)[..3] == [First(a), Second(a, b), Third(b, 0)];
  }

  /** `base64_final`. */
  method Final(to: array<Octet>, n0: nat, ghost x: seq<Octet>) returns (n: nat)
    requires n0 == Place(x) && |Progress(x)| <= to.Length && to[..|Progress(x)|] == Progress(x)
    requires |Encoded(x)| + 1 <= to.Length
    modifies to
    ensures n == |Encoded(x)| && to[..n] == Encoded(x) && to[n] == 0
  {
    FinalIsEncoded(x);
    ghost var s := Progress(x);
    n := n0;
    hide Progress, Encoded, EncodeChar;
    if n % 4 != 0 {
      ghost var t := Updated(s, n, 0);
      n := UpdateZero(to, n, s);
      assert to[..n0 + 1] == to[..n0 + 2][..n0 + 1] == t[..n0 + 1];
    }
    if n0 % 4 == 2 {
      n := n - 1;
    }
    while n % 4 != 0
      invariant n0 <= n <= |Encoded(x)| && (n % 4 == 0 <==> n == |Encoded(x)|) && to[..n] == Encoded(x)[..n]
      decreases |Encoded(x)| - n
    {
      to[n] := PADDING;
      n := n + 1;
    }
    to[n] := 0;
  }

  /** `base64_update` with a zero byte behind an incomplete block. */
  method UpdateZero(to: array<Octet>, n0: nat, ghost s: seq<Octet>) returns (n: nat)
    requires n0 % 4 in {1, 2} && |s| == n0 + 1 && n0 + 2 <= to.Length && to[..n0 + 1] == s
    modifies to
    ensures to[..n0 + 2] == Updated(s, n0, 0) && n == if n0 % 4 == 2 then n0 + 2 else n0 + 1
  {
    hide EncodeChar, High6, Low2, High4, Low4, High2, Low6, Or;
    assert to[..n0] == s[..n0] && to[n0] == s[n0];
    n := Put(to, n0, 0);
    assert to[..n0 + 2] == to[..n0] + [to[n0], to[n0 + 1]];
  }

  /** `base64_encode`. */
  method Encode(p: seq<Octet>, to: array<Octet>) returns (len: nat)
    modifies to
    ensures to.Length < |Encoded(p)| + 1 ==> len == 0
    ensures to.Length >= |Encoded(p)| + 1 ==> len == |Encoded(p)| && to[..len] == Encoded(p) && to[len] == 0
  {
    hide Progress, Encoded;
    if to.Length > 0 {
      to[0] := 0;
    }
    if to.Length < (|p| / 3 + if |p| % 3 != 0 then 1 else 0) * 4 + 1 {
      return 0;
    }
    len := 0;
    var i := 0;
    while i < |p|
      invariant i <= |p| && len == Place(p[..i]) && |Progress(p[..i])| <= to.Length
      invariant to[..|Progress(p[..i])|] == Progress(p[..i])
    {
      assert p[..i + 1] == p[..i] + [p[i]];
      len := Update(p[i], to, len, p[..i]);
      i := i + 1;
    }
    assert p[..i] == p;
    len := Final(to, len, p);
  }

  // ----- decoding

  /** No character is invalid, and the first two are no padding. */
  predicate Acceptable(s: seq<Octet>)
    requires |s| == 4
  {
    DecodeChar(s[0]) < 64 && DecodeChar(s[1]) < 64 && DecodeChar(s[2]) <= 64 && DecodeChar(s[3]) <= 64
  }

  function Byte1(a: Octet, b: Octet): Octet { (a << 2) | (b >> 4) }

  function Byte2(b: Octet, c: Octet): Octet { (b << 4) | (c >> 2) }

  function Byte3(c: Octet, d: Octet): Octet { (c << 6) | d }

  /** The bytes that four characters stand for. */
  function Quad(s: seq<Octet>): (q: seq<Octet>)
    requires |s| == 4
    ensures 1 <= |q| <= 3
  {
    var a, b, c, d := DecodeChar(s[0]), DecodeChar(s[1]), DecodeChar(s[2]), DecodeChar(s[3]);
    [Byte1(a, b)] +
    (if s[2] != PADDING then [Byte2(b, c)] + (if s[3] != PADDING then [Byte3(c, d)] else []) else [])
  }

  datatype Result = Fail | Ok(bytes: seq<Octet>)

  /** What `base64_decode` makes of characters in complete groups. */
  function Decoded(s: seq<Octet>): (r: Result)
    requires |s| % 4 == 0
    ensures r.Ok? ==> |r.bytes| <= |s| / 4 * 3
  {
    if s == [] then Ok([])
    else if !Acceptable(s[..4]) then Fail
    else
      match Decoded(s[4..])
      case Fail => Fail
      case Ok(more) => Ok(Quad(s[..4]) + more)
  }

  /** `base64_decode`. */
  method Decode(src: seq<Octet>, dst: array<Octet>) returns (len: nat)
    modifies dst
    ensures |src| % 4 != 0 || dst.Length < |src| / 4 * 3 + 1 || Decoded(src).Fail? ==> len == 0
    ensures |src| % 4 == 0 && dst.Length >= |src| / 4 * 3 + 1 && Decoded(src).Ok? ==>
              len == |Decoded(src).bytes| && dst[..len] == Decoded(src).bytes && dst[len] == 0
  {
    hide Decoded;
    if |src| % 4 != 0 || dst.Length < |src| / 4 * 3 + 1 {
      if dst.Length > 0 {
        dst[0] := 0;
      }
      return 0;
    }
    var ok;
    ok, len := DecodeGroups(src, dst);
    if !ok {
      dst[0] := 0;
      return 0;
    }
    dst[len] := 0;
  }

  /** The loop over the groups of four characters. */
  method DecodeGroups(src: seq<Octet>, dst: array<Octet>) returns (ok: bool, len: nat)
    requires |src| % 4 == 0 && dst.Length >= |src| / 4 * 3 + 1
    modifies dst
    ensures len < dst.Length && Decoded(src) == if ok then Ok(dst[..len]) else Fail
  {
    hide DecodeChar, Quad, Decoded, After, Acceptable;
    len := 0;
    var i := 0;
    NothingDecoded(src);
    assert src[0..] == src && dst[..0] == [];
    while i + 3 < |src|
      invariant i <= |src| && i % 4 == 0 && 4 * len <= 3 * i && Decoded(src) == After(dst[..len], Decoded(src[i..]))
    {
      var group := src[i..i + 4];
      ghost var before := dst[..len];
      DecodeStep(src, i, before);
      if !IsAcceptable(group) {
        return false, 0;
      }
      len := PutQuad(group, dst, len);
      assert dst[..len] == before + Quad(group);
      i := i + 4;
    }
    assert src[i..] == [];
    AllDecoded(dst[..len]);
    ok := true;
  }

  lemma NothingDecoded(src: seq<Octet>)
    requires |src| % 4 == 0
    ensures After([], Decoded(src)) == Decoded(src)
  {
    hide Acceptable, Quad;
    if Decoded(src).Ok? {
      assert [] + Decoded(src).bytes == Decoded(src).bytes;
    }
  }

  lemma AllDecoded(before: seq<Octet>)
    ensures After(before, Decoded([])) == Ok(before)
  {
    assert before + [] == before;
  }

  /** The test of the four values in the code. */
  function IsAcceptable(s: seq<Octet>): (yes: bool)
    requires |s| == 4
    ensures yes == Acceptable(s)
  {
    var a, b, c, d := DecodeChar(s[0]), DecodeChar(s[1]), DecodeChar(s[2]), DecodeChar(s[3]);
    !(a == 64 || a == INVALID || b == 64 || b == INVALID || c == INVALID || d == INVALID)
  }

  /** `before`, and then what the rest decodes to. */
  function After(before: seq<Octet>, rest: Result): Result {
    if rest.Fail? then Fail else Ok(before + rest.bytes)
  }

  lemma DecodeStep(src: seq<Octet>, i: nat, before: seq<Octet>)
    requires |src| % 4 == 0 && i % 4 == 0 && i + 4 <= |src|
    ensures var group := src[i..i + 4];
            After(before, Decoded(src[i..])) ==
            if Acceptable(group) then After(before + Quad(group), Decoded(src[i + 4..])) else Fail
  {
    hide Acceptable, Quad;
    var t, group := src[i..], src[i..i + 4];
    assert t[..4] == group && t[4..] == src[i + 4..];
    var rest := Decoded(src[i + 4..]);
    if rest.Ok? {
      assert before + (Quad(group) + rest.bytes) == (before + Quad(group)) + rest.bytes;
    }
  }

  method PutQuad(s: seq<Octet>, dst: array<Octet>, len0: nat) returns (len: nat)
    requires |s| == 4 && len0 + 3 <= dst.Length
    modifies dst
    ensures len == len0 + |Quad(s)| && dst[..len] == old(dst[..len0]) + Quad(s)
  {
    hide DecodeChar, Byte1, Byte2, Byte3;
    var a, b, c, d := DecodeChar(s[0]), DecodeChar(s[1]), DecodeChar(s[2]), DecodeChar(s[3]);
    len := len0;
    dst[len] := Byte1(a, b);
    len := len + 1;
    if s[2] != PADDING {
      dst[len] := Byte2(b, c);
      len := len + 1;
      if s[3] != PADDING {
        dst[len] := Byte3(c, d);
        len := len + 1;
      }
    }
  }

  // ----- the round trip

  lemma PiecesFit(x: Octet, y: Octet)
    ensures High6(x) < 64 && Or(Low2(x), High4(y)) < 64 && Or(Low4(x), High2(y)) < 64 && Low6(x) < 64
  {
  }

  lemma BytesBack(a: Octet, b: Octet, c: Octet)
    ensures Byte1(High6(a), Or(Low2(a), High4(b))) == a
    ensures Byte2(Or(Low2(a), High4(b)), Or(Low4(b), High2(c))) == b
    ensures Byte3(Or(Low4(b), High2(c)), Low6(c)) == c
  {
    PiecesBack(a, b, c);
  }

  lemma PiecesBack(a: Octet, b: Octet, c: Octet)
    ensures ((a >> 2) << 2) | ((((a & 3) << 4) | (b >> 4)) >> 4) == a
    ensures ((((a & 3) << 4) | (b >> 4)) << 4) | ((((b & 15) << 2) | (c >> 6)) >> 2) == b
    ensures ((((b & 15) << 2) | (c >> 6)) << 6) | (c & 63) == c
  {
  }

  lemma BlockBack(a: Octet, b: Octet, c: Octet)
    ensures Acceptable(Block(a, b, c)) && Quad(Block(a, b, c)) == [a, b, c]
  {
    hide EncodeChar, DecodeChar, High6, Low2, High4, Low4, High2, Low6, Or, Byte1, Byte2, Byte3;
    PiecesFit(a, b);
    PiecesFit(b, c);
    PiecesFit(c, c);
    CharBack(High6(a));
    CharBack(Or(Low2(a), High4(b)));
    CharBack(Or(Low4(b), High2(c)));
    CharBack(Low6(c));
    BytesBack(a, b, c);
  }

  lemma OneBack(a: Octet)
    ensures Acceptable(Encoded([a])) && Quad(Encoded([a])) == [a]
  {
    hide EncodeChar, DecodeChar, High6, Low2, High4, Low4, High2, Low6, Or, Byte1, Byte2, Byte3;
    PiecesFit(a, 0);
    CharBack(High6(a));
    CharBack(Or(Low2(a), High4(0)));
    BytesBack(a, 0, 0);
    PaddingBack();
    assert Encoded([a]) == [First(a), Second(a, 0), PADDING, PADDING];
  }

  lemma TwoBack(a: Octet, b: Octet)
    ensures Acceptable(Encoded([a, b])) && Quad(Encoded([a, b])) == [a, b]
  {
    hide EncodeChar, DecodeChar, High6, Low2, High4, Low4, High2, Low6, Or, Byte1, Byte2, Byte3;
    PiecesFit(a, b);
    PiecesFit(b, 0);
    CharBack(High6(a));
    CharBack(Or(Low2(a), High4(b)));
    CharBack(Or(Low4(b), High2(0)));
    BytesBack(a, b, 0);
    PaddingBack();
    assert Encoded([a, b]) == [First(a), Second(a, b), Third(b, 0), PADDING];
  }

  lemma PaddingBack()
    ensures DecodeChar(PADDING) == 64
  {
  }

  /** Decoding an encoding gives the bytes back, for every byte string. */
  lemma {:induction false} RoundTrip(x: seq<Octet>)
    ensures Decoded(Encoded(x)) == Ok(x)
    decreases |x|
  {
    hide Block, First, Second, Third, EncodeChar, DecodeChar, High6, Low2, High4, Low4, High2, Low6, Or, Quad,
         Acceptable;
    if |x| == 0 {
    } else if |x| < 3 {
      if |x| == 1 {
        OneBack(x[0]);
        assert x == [x[0]];
      } else {
        TwoBack(x[0], x[1]);
        assert x == [x[0], x[1]];
      }
      var s := Encoded(x);
      assert s[..4] == s && s[4..] == [];
    } else {
      var block := Block(x[0], x[1], x[2]);
      BlockBack(x[0], x[1], x[2]);
      RoundTrip(x[3..]);
      var s := block + Encoded(x[3..]);
      assert s[..4] == block && s[4..] == Encoded(x[3..]);
      assert [x[0], x[1], x[2]] + x[3..] == x;
    }
  }
}
