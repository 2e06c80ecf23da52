/** Integer printing, `lld`: digits written from the last to the first and reversed in place. */
module Fmt {
  import opened Bytes

  /** `%d` of a number that is not negative. */
  function Decimal(n: nat): (s: seq<Byte>)
    ensures |s| >= 1
  {
    if n < 10 then [48 + n] else Decimal(n / 10) + [48 + n % 10]
  }

  function HexDigit(d: nat): Byte
    requires d < 16
  {
    if d < 10 then 48 + d else 87 + d
  }

  /** `%lx`. */
  function Hex(n: nat): (s: seq<Byte>)
    ensures |s| >= 1
  {
    if n < 16 then [HexDigit(n)] else Hex(n / 16) + [HexDigit(n % 16)]
  }

  const MINUS: Byte := 45
  const TWO64: int := 0x1_0000_0000_0000_0000

  /** The digits of `v`, none for zero. */
  function DigitsOf(v: nat, base: nat): (s: seq<Byte>)
    requires 2 <= base <= 16
    ensures v > 0 ==> s != []
    decreases v
  {
    if v == 0 then [] else DigitsOf(v / base, base) + [HexDigit(v % base)]
  }

  lemma {:induction false} DecimalDigits(v: nat)
    ensures Decimal(v) == if v == 0 then [HexDigit(0)] else DigitsOf(v, 10)
    decreases v
  {
    if v < 10 {
      assert DigitsOf(v / 10, 10) == [];
    } else {
      DecimalDigits(v / 10);
    }
  }

  lemma {:induction false} HexDigits(v: nat)
    ensures Hex(v) == if v == 0 then [HexDigit(0)] else DigitsOf(v, 16)
    decreases v
  {
    if v < 16 {
      assert DigitsOf(v / 16, 16) == [];
    } else {
      HexDigits(v / 16);
    }
  }

  function Reversed(s: seq<Byte>): (r: seq<Byte>)
    ensures |r| == |s|
  {
    seq(|s|, i requires 0 <= i < |s| => s[|s| - 1 - i])
  }

  lemma ReversedMore(s: seq<Byte>, c: Byte)
    ensures Reversed(s + [c]) == [c] + Reversed(s)
  {
  }

  /** The loop that prints a number in reverse order. */
  method PutReversed(buf: array<Byte>, s: nat, v0: nat, base: nat) returns (n: nat)
    requires 2 <= base <= 16 && s + |DigitsOf(v0, base)| <= buf.Length
    modifies buf
    ensures n == |DigitsOf(v0, base)| && buf[..s] == old(buf[..s]) && Reversed(buf[s..s + n]) == DigitsOf(v0, base)
  {
    hide DigitsOf, Reversed, HexDigit;
    var v: nat := v0;
    n := 0;
    Start(buf[s..s], DigitsOf(v0, base));
    while v > 0
      invariant s + n <= buf.Length && buf[..s] == old(buf[..s])
      invariant DigitsOf(v, base) + Reversed(buf[s..s + n]) == DigitsOf(v0, base)
      invariant |DigitsOf(v, base)| + n == |DigitsOf(v0, base)|
      decreases v
    {
      LastDigit(v, base);
      ghost var digits := buf[s..s + n];
      ReversedMore(digits, HexDigit(v % base));
      buf[s + n] := HexDigit(v % base);
      assert buf[s..s + (n + 1)] == digits + [HexDigit(v % base)];
      assert (DigitsOf(v / base, base) + [HexDigit(v % base)]) + Reversed(digits) ==
             DigitsOf(v / base, base) + ([HexDigit(v % base)] + Reversed(digits));
      v, n := v / base, n + 1;
    }
    NoDigits(base);
  }

  lemma Start(none: seq<Byte>, digits: seq<Byte>)
    requires none == []
    ensures digits + Reversed(none) == digits
  {
  }

  lemma NoDigits(base: nat)
    requires 2 <= base <= 16
    ensures DigitsOf(0, base) == []
  {
  }

  lemma LastDigit(v: nat, base: nat)
    requires 2 <= base <= 16 && v > 0
    ensures v / base < v && v % base < 16 && DigitsOf(v, base) == DigitsOf(v / base, base) + [HexDigit(v % base)]
  {
  }

  /** The reversal of `n` bytes from `s` on. */
  method ReverseInPlace(buf: array<Byte>, s: nat, n: nat)
    requires s + n <= buf.Length
    modifies buf
    ensures buf[..s] == old(buf[..s]) && buf[s..s + n] == Reversed(old(buf[s..s + n]))
  {
    hide Reversed;
    ghost var was := buf[..];
    var i := 0;
    while i < n / 2
      invariant 0 <= i <= n / 2
      invariant forall k :: s <= k < s + i || s + n - i <= k < s + n ==> buf[k] == was[2 * s + n - 1 - k]
      invariant forall k :: 0 <= k < s || s + i <= k < s + n - i ==> buf[k] == was[k]
    {
      var t := buf[s + i];
      buf[s + i] := buf[s + n - i - 1];
      buf[s + n - i - 1] := t;
      i := i + 1;
    }
    ReversedThere(was, buf[..], s, n);
    assert buf[..s] == buf[..][..s] && buf[s..s + n] == buf[..][s..s + n];
  }

  lemma ReversedThere(was: seq<Byte>, now: seq<Byte>, s: nat, n: nat)
    requires s + n <= |was| == |now| && forall k :: 0 <= k < s ==> now[k] == was[k]
    requires forall k :: s <= k < s + n ==> now[k] == was[2 * s + n - 1 - k]
    ensures now[..s] == was[..s] && now[s..s + n] == Reversed(was[s..s + n])
  {
    var a, b := was[s..s + n], now[s..s + n];
    forall k | 0 <= k < n
      ensures b[k] == Reversed(a)[k]
    {
      assert b[k] == now[s + k] && a[n - 1 - k] == was[s + (n - 1 - k)];
    }
  }

  /** The value printed and the sign before it; an unsigned number is taken modulo 2^64. */
  function Magnitude(val: int, isSigned: bool): nat {
    if isSigned && val < 0 then -val else val % TWO64
  }

  function Printed(val: int, isSigned: bool, isHex: bool): seq<Byte> {
    var v := Magnitude(val, isSigned);
    (if isSigned && val < 0 then [MINUS] else []) + if isHex then Hex(v) else Decimal(v)
  }

  /** `lld`. */
  method Lld(buf: array<Byte>, val: int, isSigned: bool, isHex: bool) returns (len: nat)
    requires -(TWO64 / 2) <= val < TWO64 / 2 && |Printed(val, isSigned, isHex)| <= buf.Length
    modifies buf
    ensures len == |Printed(val, isSigned, isHex)| && buf[..len] == Printed(val, isSigned, isHex)
  {
    hide DigitsOf, Decimal, Hex, Reversed;
    var s := 0;
    var v := Magnitude(val, isSigned);
    var base := if isHex then 16 else 10;
    DecimalDigits(v);
    HexDigits(v);
    ghost var sign: seq<Byte> := [];
    if isSigned && val < 0 {
      buf[0] := MINUS;
      s, sign := 1, [MINUS];
    }
    assert buf[..s] == sign;
    NoDigits(base);
    var n := PutReversed(buf, s, v, base);
    ReverseInPlace(buf, s, n);
    assert buf[..s + n] == buf[..s] + buf[s..s + n];
    if val == 0 {
      buf[n] := 48;
      n := n + 1;
    }
    len := n + s;
  }
}
