/** Host names in DNS packets (RFC 1035 sections 3.1 and 4.1): the question written by `dns_send`, and
    the recursive decoder with compression pointers. */
module Dns {
  import opened Bytes

  type Text = seq<Byte>

  const DOT: Byte := 46
  const HEADER_LEN: nat := 12
  const DATA_LEN: nat := 256
  const MAX_RECURSION: nat := 5

  // ----- decoding

  /** The loop of `dns_parse_name_depth`: `i` bytes have been read at `ofs` and `text` has been decoded.
      The first result is the length read, 0 for an error. */
  function ParseName(s: Text, ofs: nat, i: nat, text: Text, depth: nat): (r: (nat, Text))
    ensures r.0 > 0 && ofs + i <= |s| ==> ofs + r.0 <= |s|
    ensures text <= r.1
    decreases MAX_RECURSION + 1 - depth, |s| - (ofs + i)
  {
    if ofs + i + 1 >= |s| then (i, text)
    else
      var n := s[ofs + i];
      if n == 0 then (i + 1, text)
      else if n >= 64 then
        var ptr := (n as int % 64) * 256 + s[ofs + i + 1];
        if ptr + 1 < |s| && s[ptr] < 64 then
          if depth >= MAX_RECURSION then (0, text)
          else
            var r := ParseName(s, ptr, 0, text, depth + 1);
            (if r.0 == 0 then 0 else i + 2, r.1)
        else (i + 2, text)
      else if ofs + i + n + 1 >= |s| then (0, text)
      else ParseName(s, ofs, i + n + 1, Labelled(text, s[ofs + i + 1..ofs + i + 1 + n]), depth)
  }

  /** One turn of the loop on a label. */
  lemma LabelStep(s: Text, ofs: nat, i: nat, text: Text, depth: nat)
    requires ofs + i + 1 < |s| && 0 < s[ofs + i] < 64
    ensures var n := s[ofs + i];
            ParseName(s, ofs, i, text, depth) ==
            if ofs + i + n + 1 >= |s| then (0, text)
            else ParseName(s, ofs, i + n + 1, Labelled(text, s[ofs + i + 1..ofs + i + 1 + n]), depth)
  {
    hide Labelled;
  }

  /** The other ways a turn can go. */
  lemma LastStep(s: Text, ofs: nat, i: nat, text: Text, depth: nat)
    ensures ofs + i + 1 >= |s| ==> ParseName(s, ofs, i, text, depth) == (i, text)
    ensures ofs + i + 1 < |s| && s[ofs + i] == 0 ==> ParseName(s, ofs, i, text, depth) == (i + 1, text)
    ensures ofs + i + 1 < |s| && s[ofs + i] >= 64 ==>
              var ptr := (s[ofs + i] as int % 64) * 256 + s[ofs + i + 1];
              ParseName(s, ofs, i, text, depth) ==
              if ptr + 1 < |s| && s[ptr] < 64 then
                if depth >= MAX_RECURSION then (0, text)
                else
                  var r := ParseName(s, ptr, 0, text, depth + 1);
                  (if r.0 == 0 then 0 else i + 2, r.1)
              else (i + 2, text)
  {
  }

  /** One label more. */
  function Labelled(text: Text, part: Text): (r: Text)
    ensures text <= r
  {
    if text == [] then part else text + ([DOT] + part)
  }

  /** `to` holds the text so far, as far as it fits. */
  ghost predicate Holds(to: array<Byte>, text: Text)
    reads to
  {
    |text| < to.Length ==> to[..|text|] == text && to[|text|] == 0
  }

  /** `dns_parse_name_depth`, writing into `to`; it ends for every packet, stays inside `to`, and the
      length it returns lies within the packet. The text is there when it fits, and `to` ends with a
      terminator in any case. */
  method ParseNameDepth(s: Text, ofs: nat, to: array<Byte>, j0: nat, depth: nat, ghost text0: Text)
    returns (len: nat, ghost text: Text)
    requires depth <= MAX_RECURSION && j0 == |text0| && (depth == 0 ==> text0 == [])
    requires depth > 0 ==> Holds(to, text0)
    modifies to
    ensures (len, text) == ParseName(s, ofs, 0, text0, depth)
    ensures len > 0 ==> Holds(to, text) && ofs + len <= |s|
    ensures len > 0 && to.Length > 0 ==> to[to.Length - 1] == 0
    decreases MAX_RECURSION - depth
  {
    hide ParseName, Labelled;
    if to.Length > 0 && depth == 0 {
      to[0] := 0;
    }
    var i: nat, j: nat := 0, j0;
    text := text0;
    while ofs + i + 1 < |s| && 0 < s[ofs + i] < 64
      invariant j == |text| && Holds(to, text) && (i > 0 ==> ofs + i <= |s|)
      invariant ParseName(s, ofs, 0, text0, depth) == ParseName(s, ofs, i, text, depth)
      decreases |s| - i
    {
      var n := s[ofs + i];
      LabelStep(s, ofs, i, text, depth);
      if ofs + i + n + 1 >= |s| {
        return 0, text;
      }
      var part := s[ofs + i + 1..ofs + i + 1 + n];
      j := PutLabel(to, j, part, text);
      text := Labelled(text, part);
      i := i + n + 1;
    }
    LastStep(s, ofs, i, text, depth);
    if ofs + i + 1 < |s| {
      if s[ofs + i] == 0 {
        i := i + 1;
      } else {
        var ptr := (s[ofs + i] as int % 64) * 256 + s[ofs + i + 1];
        if ptr + 1 < |s| && s[ptr] < 64 {
          if depth + 1 > MAX_RECURSION {
            return 0, text;
          }
          var r;
          r, text := ParseNameDepth(s, ptr, to, j, depth + 1, text);
          if r == 0 {
            return 0, text;
          }
        }
        i := i + 2;
      }
    }
    if to.Length > 0 {
      to[to.Length - 1] := 0;
    }
    len := i;
  }

  /** The copy of one label, with a dot before it and a terminator after it. */
  method PutLabel(to: array<Byte>, j0: nat, part: Text, ghost text: Text) returns (j: nat)
    requires j0 == |text| && Holds(to, text)
    modifies to
    ensures j == |Labelled(text, part)| && Holds(to, Labelled(text, part))
  {
    hide *;
    LabelledIs(text, part);
    HeldText(to, text);
    j := j0;
    if j > 0 {
      if j < to.Length {
        to[j] := DOT;
      }
      j := j + 1;
    }
    if j + |part| < to.Length {
      forall k | 0 <= k < |part| {
        to[j + k] := part[k];
      }
    }
    ghost var p := j;
    j := j + |part|;
    if j < to.Length {
      to[j] := 0;
      LabelThere(to[..], text, part, p);
    }
    HeldAgain(to, Labelled(text, part));
  }

  lemma LabelledIs(text: Text, part: Text)
    ensures Labelled(text, part) == text + ((if text == [] then [] else [DOT]) + part)
  {
    assert text == [] ==> text + ([] + part) == part;
  }

  lemma HeldText(to: array<Byte>, text: Text)
    requires Holds(to, text)
    ensures |text| < to.Length ==> to[..|text|] == text
  {
  }

  lemma HeldAgain(to: array<Byte>, text: Text)
    requires |text| < to.Length ==> to[..][..|text|] == text && to[|text|] == 0
    ensures Holds(to, text)
  {
    if |text| < to.Length {
      assert to[..|text|] == to[..][..|text|];
    }
  }

  lemma LabelThere(s: Text, text: Text, part: Text, p: nat)
    requires p == |text| + (if text == [] then 0 else 1) && p + |part| <= |s|
    requires s[..|text|] == text && (text != [] ==> s[|text|] == DOT)
    requires forall k :: 0 <= k < |part| ==> s[p + k] == part[k]
    ensures s[..p + |part|] == text + ((if text == [] then [] else [DOT]) + part)
  {
    assert s[p..p + |part|] == part;
    assert s[..p + |part|] == s[..p] + s[p..p + |part|];
    assert s[..p] == text + if text == [] then [] else [DOT];
  }

  // ----- the question

  function LabelEnd(name: Text, n: nat): (e: nat)
    requires n <= |name|
    ensures n <= e <= |name| && DOT !in name[n..e] && (e < |name| ==> name[e] == DOT)
    decreases |name| - n
  {
    if n < |name| && name[n] != DOT then
      var e := LabelEnd(name, n + 1);
      assert name[n..e] == [name[n]] + name[n + 1..e];
      e
    else n
  }

  /** The labels of `name` from `n` on that end within the first 250 bytes, each behind its length. */
  function Pack(name: Text, n: nat): (s: seq<Byte>)
    requires n <= |name| + 1
    decreases |name| + 1 - n
  {
    if n > |name| then []
    else
      var e := LabelEnd(name, n);
      if e >= DATA_LEN - 5 then [] else [e - n] + (name[n..e] + Pack(name, e + 1))
  }

  /** Where the first label begins that is left out, one beyond the end if there is none. */
  function Left(name: Text, n: nat): (m: nat)
    requires n <= |name| + 1
    ensures n <= m <= |name| + 1 && |Pack(name, n)| == m - n
    ensures m <= DATA_LEN - 5 || m == n
    ensures |name| < DATA_LEN - 5 ==> m == |name| + 1
    decreases |name| + 1 - n
  {
    if n > |name| then n
    else
      var e := LabelEnd(name, n);
      if e >= DATA_LEN - 5 then n else Left(name, e + 1)
  }

  /** Labels of 1 to 63 bytes. */
  predicate GoodLabels(name: Text, n: nat)
    requires n <= |name|
    decreases |name| - n
  {
    var e := LabelEnd(name, n);
    1 <= e - n <= 63 && (e < |name| ==> GoodLabels(name, e + 1))
  }

  /** The fixed end of a question: the root label, type and class. */
  function Tail(ipv6: bool): (s: seq<Byte>)
    ensures |s| == 5 && s[0] == 0
  {
    [0, 0, if ipv6 then 28 else 1, 0, 1]
  }

  lemma {:induction false} LabelEndAt(name: Text, n: nat, e: nat)
    requires n <= e <= |name| && DOT !in name[n..e] && (e < |name| ==> name[e] == DOT)
    ensures LabelEnd(name, n) == e
    decreases e - n
  {
    if n < e {
      assert name[n] == name[n..e][0];
      assert name[n + 1..e] == name[n..e][1..];
      LabelEndAt(name, n + 1, e);
    }
  }

  /** No dot up to `i`: the label ends there or later. */
  lemma {:induction false} LabelGoesOn(name: Text, n: nat, i: nat)
    requires n <= i <= |name| && DOT !in name[n..i]
    ensures LabelEnd(name, n) >= i
    decreases i - n
  {
    if n < i {
      assert name[n] == name[n..i][0];
      assert name[n + 1..i] == name[n..i][1..];
      LabelGoesOn(name, n + 1, i);
    }
  }

  /** The data part of the packet that `dns_send` builds; `n` is the start of the current label. */
  method Question(name: Text, ipv6: bool) returns (question: Text)
    ensures question == Pack(name, 0) + Tail(ipv6)
  {
    hide Tail, Pack, LabelEnd;
    var data := new Byte[DATA_LEN](_ => 0);
    var i: nat, n: nat := 0, 0;
    while i < DATA_LEN - 5 && n <= |name|
      invariant n <= i + 1 <= DATA_LEN - 4 && n <= DATA_LEN - 5 && n <= |name| + 1 && i <= |name|
      invariant n <= |name| ==> n <= i && DOT !in name[n..i]
      invariant data[..n] + Pack(name, n) == Pack(name, 0)
      decreases DATA_LEN - i, |name| + 1 - n
    {
      if i >= |name| || name[i] == DOT {
        LabelEndAt(name, n, i);
        PackLabel(data, n, name[n..i], name, i);
        n := i + 1;
      }
      if i < |name| {
        i := i + 1;
        assert n < i ==> name[n..i] == name[n..i - 1] + [name[i - 1]];
      }
    }
    NothingMore(name, n, i);
    assert data[..n] == Pack(name, 0);
    var tail := Tail(ipv6);
    question := AddTail(data, n, tail);
  }

  lemma NothingMore(name: Text, n: nat, i: nat)
    requires n <= |name| + 1 && i <= |name| && (n <= |name| ==> n <= i && DOT !in name[n..i] && i >= DATA_LEN - 5)
    ensures Pack(name, n) == []
  {
    if n <= |name| {
      LabelGoesOn(name, n, i);
    }
  }

  method AddTail(data: array<Byte>, n: nat, tail: Text) returns (question: Text)
    requires |tail| == 5 && n + 5 <= data.Length
    modifies data
    ensures question == old(data[..n]) + tail
  {
    forall k | 0 <= k < 5 {
      data[n + k] := tail[k];
    }
    question := data[..n + 5];
    assert data[..n + 5] == data[..n] + data[n..n + 5] && data[n..n + 5] == tail;
  }

  method PackLabel(data: array<Byte>, n: nat, part: Text, ghost name: Text, ghost e: nat)
    requires n <= e <= |name| && e == LabelEnd(name, n) && e < DATA_LEN - 5 && data.Length == DATA_LEN
    requires part == name[n..e]
    modifies data
    ensures data[..e + 1] == old(data[..n]) + ([e - n] + part)
    ensures data[..e + 1] + Pack(name, e + 1) == old(data[..n]) + Pack(name, n)
  {
    hide LabelEnd;
    ghost var before := data[..n];
    data[n] := |part|;
    forall k | 0 <= k < |part| {
      data[n + 1 + k] := part[k];
    }
    assert data[..e + 1] == data[..n] + [data[n]] + data[n + 1..e + 1];
    assert data[n + 1..e + 1] == part;
    PackedOnce(name, n);
    Regroup(before, [e - n], part, Pack(name, e + 1));
    hide Pack;
    assert data[..e + 1] == before + ([e - n] + part);
  }

  // ----- the question is decoded to the name

  function Upto(name: Text, n: nat): Text
    requires n <= |name| + 1
  {
    if n == 0 then [] else name[..n - 1]
  }

  /** Labels found at `ofs + i`, followed by the root label and at least one byte, are decoded. */
  lemma {:induction false} Unpacked(s: Text, ofs: nat, i: nat, name: Text, n: nat, more: Text, depth: nat)
    requires n <= |name| + 1 && (n <= |name| ==> GoodLabels(name, n))
             && (n > 0 ==> n >= 2 && (n <= |name| ==> name[n - 1] == DOT))
    requires |more| >= 1 && ofs + i <= |s| && s[ofs + i..] == Pack(name, n) + ([0] + more)
    ensures ParseName(s, ofs, i, Upto(name, n), depth) == (i + |Pack(name, n)| + 1, Upto(name, Left(name, n)))
    decreases |name| + 1 - n
  {
    hide ParseName, Labelled, Upto, Pack, Left, LabelEnd, GoodLabels;
    var rest, text := s[ofs + i..], Upto(name, n);
    PackedOnce(name, n);
    if Pack(name, n) == [] {
      assert rest == [0] + more && s[ofs + i] == rest[0];
      LastStep(s, ofs, i, text, depth);
    } else {
      var e := LabelEnd(name, n);
      GoodHead(name, n);
      var part := name[n..e];
      var after := Pack(name, e + 1) + ([0] + more);
      Regroup([e - n], part, Pack(name, e + 1), [0] + more);
      PartAt(s, ofs + i, part, after);
      LabelStep(s, ofs, i, text, depth);
      LabelledUpto(name, n, e);
      Unpacked(s, ofs, i + (e - n) + 1, name, e + 1, more, depth);
    }
  }

  lemma GoodHead(name: Text, n: nat)
    requires n <= |name| && GoodLabels(name, n)
    ensures var e := LabelEnd(name, n); n < e < n + 64 && (e + 1 <= |name| ==> GoodLabels(name, e + 1))
  {
    hide LabelEnd;
  }

  lemma Regroup(a: Text, b: Text, c: Text, d: Text)
    ensures (a + (b + c)) + d == a + (b + (c + d))
  {
  }

  lemma PackedOnce(name: Text, n: nat)
    requires n <= |name| + 1
    ensures if n > |name| || LabelEnd(name, n) >= DATA_LEN - 5 then Pack(name, n) == [] && Left(name, n) == n
            else
              var e := LabelEnd(name, n);
              && Pack(name, n) == [e - n] + (name[n..e] + Pack(name, e + 1)) && Left(name, n) == Left(name, e + 1)
  {
    hide LabelEnd;
  }

  lemma LabelledUpto(name: Text, n: nat, e: nat)
    requires n < e <= |name| && (n > 0 ==> n >= 2 && name[n - 1] == DOT)
    ensures Labelled(Upto(name, n), name[n..e]) == Upto(name, e + 1)
  {
    hide Labelled;
    LabelledIs(Upto(name, n), name[n..e]);
    if n > 0 {
      assert name[..n - 1] + ([DOT] + name[n..e]) == name[..e];
    } else {
      assert [] + ([] + name[0..e]) == name[..e];
    }
  }

  lemma PartAt(s: Text, p: nat, part: Text, after: Text)
    requires p <= |s| && |part| < 256 && s[p..] == [|part|] + (part + after)
    ensures p + 1 + |part| <= |s| && s[p] == |part| && s[p + 1..p + 1 + |part|] == part
    ensures s[p + 1 + |part|..] == after
  {
    var r := s[p..];
    assert s[p] == r[0];
    assert s[p + 1..] == r[1..] == part + after;
    assert s[p + 1..p + 1 + |part|] == s[p + 1..][..|part|];
    assert s[p + 1 + |part|..] == s[p + 1..][|part|..];
  }

  predicate GoodName(name: Text) { GoodLabels(name, 0) }

  /** The packet: twelve bytes of header, then the question. */
  function Packet(header: Text, name: Text, ipv6: bool): Text {
    header + (Pack(name, 0) + Tail(ipv6))
  }

  lemma QuestionDecoded(header: Text, name: Text, ipv6: bool)
    requires |header| == HEADER_LEN && GoodName(name)
    ensures ParseName(Packet(header, name, ipv6), HEADER_LEN, 0, [], 0) ==
            (|Pack(name, 0)| + 1, Upto(name, Left(name, 0)))
  {
    var s, tail := Packet(header, name, ipv6), Tail(ipv6);
    assert tail == [0] + tail[1..];
    assert s[HEADER_LEN..] == Pack(name, 0) + tail;
    Unpacked(s, HEADER_LEN, 0, name, 0, tail[1..], 0);
  }

  /** The question asks for the name it was given exactly when the name has at most 250 bytes. */
  lemma QuestionAsksIff(header: Text, name: Text, ipv6: bool)
    requires |header| == HEADER_LEN && GoodName(name)
    ensures ParseName(Packet(header, name, ipv6), HEADER_LEN, 0, [], 0).1 == name <==> |name| <= 250
    ensures |name| <= 250 ==> ParseName(Packet(header, name, ipv6), HEADER_LEN, 0, [], 0).0 == |name| + 2
  {
    QuestionDecoded(header, name, ipv6);
    hide ParseName, Tail, GoodName, LabelEnd;
    var m := Left(name, 0);
    if |name| <= 250 {
      assert name[..|name|] == name;
    }
  }
}
