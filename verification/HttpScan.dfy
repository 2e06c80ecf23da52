/** The loops of `http_parse`, `http_parse_headers`, `http_get_header` and `to_size_t`. */
module HttpScan {
  import opened Wrappers
  import opened HttpParse

  method PassToken(b: Text, s0: nat, end: nat, colon: bool) returns (s: nat)
    requires s0 <= end <= |b|
    ensures s == TokenEnd(b, s0, end, colon)
  {
    hide CharLen;
    s := s0;
    while s < end && !(colon && b[s] == COLON) && CharLen(b, s, end) > 0
      invariant s0 <= s <= end && TokenEnd(b, s0, end, colon) == TokenEnd(b, s, end, colon)
      decreases end - s
    {
      s := s + CharLen(b, s, end);
    }
  }

  method PassSpaces(b: Text, s0: nat, end: nat, tabs: bool) returns (s: nat)
    requires s0 <= end <= |b|
    ensures s == SkipSpaces(b, s0, end, tabs)
  {
    s := s0;
    while s < end && (b[s] == SPACE || (tabs && b[s] == TAB))
      invariant s0 <= s <= end && SkipSpaces(b, s0, end, tabs) == SkipSpaces(b, s, end, tabs)
    {
      s := s + 1;
    }
  }

  /** `skiptorn`: the end of the text of the line, and where the next line starts. */
  method PassLine(b: Text, s0: nat, end: nat) returns (line: Option<(nat, nat)>)
    requires s0 <= end && Headed(b, end)
    ensures line == SkipLine(b, s0, end)
  {
    var s := s0;
    while s < end && b[s] != LF && b[s] != CR
      invariant s0 <= s <= end && LineEnd(b, s0, end) == LineEnd(b, s, end)
    {
      s := s + 1;
    }
    var e := s;
    if s >= end || (b[s] == CR && b[s + 1] != LF) {
      return None;
    }
    if b[s] == CR {
      s := s + 1;
    }
    return Some((e, s + 1));
  }

  method PassTrail(b: Text, s: nat, e0: nat) returns (e: nat)
    requires s <= e0 <= |b|
    ensures e == TrimEnd(b, s, e0)
  {
    e := e0;
    while s < e && (b[e - 1] == SPACE || b[e - 1] == TAB)
      invariant s <= e <= e0 && TrimEnd(b, s, e0) == TrimEnd(b, s, e)
    {
      e := e - 1;
    }
  }

  // ----- the counters for headers that may come only once

  function Count(hs: seq<Header>, name: Text): nat {
    if hs == [] then 0 else Count(hs[..|hs| - 1], name) + if Same(hs[|hs| - 1].name, name) then 1 else 0
  }

  predicate Present(hs: seq<Header>, name: Text) { exists i :: 0 <= i < |hs| && Same(hs[i].name, name) }

  lemma {:induction false} CountPresent(hs: seq<Header>, name: Text)
    ensures Count(hs, name) > 0 <==> Present(hs, name)
    decreases |hs|
  {
    hide Same;
    if hs != [] {
      var before, last := hs[..|hs| - 1], |hs| - 1;
      CountPresent(before, name);
      if Present(before, name) {
        var i :| 0 <= i < |before| && Same(before[i].name, name);
        assert hs[i] == before[i];
      }
      if Present(hs, name) {
        var i :| 0 <= i < |hs| && Same(hs[i].name, name);
        assert i == last || before[i] == hs[i];
      }
    }
  }

  lemma CountMore(hs: seq<Header>, h: Header, name: Text)
    ensures Count(hs + [h], name) == Count(hs, name) + if Same(h.name, name) then 1 else 0
  {
    assert (hs + [h])[..|hs|] == hs;
  }

  lemma SameMeets(a: Text, b: Text, c: Text)
    requires Same(a, c)
    ensures Same(b, a) == Same(b, c) && |a| == |c|
  {
  }

  /** `str_casecmp(k, name) == 0 && ++count > 1` */
  method CountName(hs: seq<Header>, h: Header, name: Text, count0: nat) returns (count: nat, again: bool)
    requires count0 == Count(hs, name)
    ensures count == Count(hs + [h], name)
    ensures again <==> Same(h.name, name) && Present(hs, h.name)
  {
    CountMore(hs, h, name);
    CountPresent(hs, name);
    if Same(h.name, name) {
      PresentAs(hs, h.name, name);
    }
    hide *;
    count, again := count0, false;
    if Same(h.name, name) {
      count := count + 1;
      again := count > 1;
    }
  }

  lemma PresentAs(hs: seq<Header>, a: Text, c: Text)
    requires Same(a, c)
    ensures Present(hs, a) == Present(hs, c)
  {
    forall i | 0 <= i < |hs|
      ensures Same(hs[i].name, a) == Same(hs[i].name, c)
    {
      SameMeets(a, hs[i].name, c);
    }
  }

  /** `cl_count`, `te_count`, `auth_count`, `cookie_count` and `conn_count`. */
  datatype Counts = Counts(length: nat, coding: nat, auth: nat, cookie: nat, conn: nat)

  predicate Counted(hs: seq<Header>, n: Counts) {
    && n.length == Count(hs, Ascii("Content-Length")) && n.coding == Count(hs, Ascii("Transfer-Encoding"))
    && n.auth == Count(hs, Ascii("Authorization")) && n.cookie == Count(hs, Ascii("Cookie"))
    && n.conn == Count(hs, Ascii("Connection"))
  }

  /** The test for a header given again. */
  method CountAll(hs: seq<Header>, h: Header, n0: Counts) returns (n: Counts, again: bool)
    requires Counted(hs, n0)
    ensures Counted(hs + [h], n) && again == Repeats(hs, h.name)
  {
    RepeatsIs(hs, h.name);
    hide Count, Ascii, Same, Repeats, AtMostOnce, Present;
    var a1, a2, a3, a4, a5;
    n := n0;
    var k;
    k, a1 := CountName(hs, h, Ascii("Content-Length"), n0.length);
    n := n.(length := k);
    k, a2 := CountName(hs, h, Ascii("Transfer-Encoding"), n0.coding);
    n := n.(coding := k);
    k, a3 := CountName(hs, h, Ascii("Authorization"), n0.auth);
    n := n.(auth := k);
    k, a4 := CountName(hs, h, Ascii("Cookie"), n0.cookie);
    n := n.(cookie := k);
    k, a5 := CountName(hs, h, Ascii("Connection"), n0.conn);
    n := n.(conn := k);
    again := a1 || a2 || a3 || a4 || a5;
  }

  lemma RepeatsIs(hs: seq<Header>, name: Text)
    ensures Repeats(hs, name) <==>
            Present(hs, name) &&
            (Same(name, Ascii("Content-Length")) || Same(name, Ascii("Transfer-Encoding"))
             || Same(name, Ascii("Authorization")) || Same(name, Ascii("Cookie")) || Same(name, Ascii("Connection")))
  {
    hide Same, Ascii;
  }

  lemma NothingCounted()
    ensures Counted([], Counts(0, 0, 0, 0, 0))
  {
  }

  /** One line of the loop in `http_parse_headers`. */
  method ParseLine(b: Text, s: nat, end: nat) returns (line: Option<(Header, nat)>)
    requires s < end && Headed(b, end)
    ensures line == HeaderLine(b, s, end)
  {
    hide TokenEnd, SkipSpaces, SkipLine, TrimEnd, CharLen;
    var e := PassToken(b, s, end, true);
    if e == s || e >= end || CharLen(b, e, end) == 0 || b[e] != COLON {
      return None;
    }
    var v := PassSpaces(b, e + 1, end, true);
    var rest := PassLine(b, v, end);
    if rest.None? {
      return None;
    }
    var ve := PassTrail(b, v, rest.value.0);
    return Some((Header(b[s..e], b[v..ve]), rest.value.1));
  }

  /** `http_parse_headers`. */
  method ParseHeaders(b: Text, s0: nat, end: nat) returns (r: Headers)
    requires s0 <= end && Headed(b, end)
    ensures r == ReadHeaders(b, s0, end, [])
  {
    hide HeaderLine, Repeats, BlankLine, Counted;
    var s: nat, hs, n := s0, [], Counts(0, 0, 0, 0, 0);
    NothingCounted();
    while |hs| < MAX_HEADERS
      invariant s <= end && |hs| <= MAX_HEADERS && Counted(hs, n)
      invariant ReadHeaders(b, s0, end, []) == ReadHeaders(b, s, end, hs)
    {
      if s >= end {
        return BadHeaders;
      }
      if BlankLine(b, s, end) {
        break;
      }
      var line := ParseLine(b, s, end);
      if line.None? {
        return BadHeaders;
      }
      var again;
      n, again := CountAll(hs, line.value.0, n);
      if again {
        return BadHeaders;
      }
      hs, s := hs + [line.value.0], line.value.1;
    }
    if |hs| == MAX_HEADERS && s < end && !BlankLine(b, s, end) {
      return Overflow;
    }
    return Headers(hs);
  }

  /** `http_get_header`. */
  method FindHeader(hs: seq<Header>, name: Text) returns (v: Option<Text>)
    ensures v == GetHeader(hs, name)
  {
    hide Same;
    var i := 0;
    assert hs[0..] == hs;
    while i < |hs|
      invariant i <= |hs| && GetHeader(hs, name) == GetHeader(hs[i..], name)
    {
      if Same(hs[i].name, name) {
        return Some(hs[i].value);
      }
      assert hs[i..][1..] == hs[i + 1..];
      i := i + 1;
    }
    return None;
  }

  /** `to_size_t`. */
  method ReadSize(v: Text) returns (r: Option<nat>)
    ensures r == ToSize(v)
  {
    hide BlankEnd, Digits;
    var i := PassBlanks(v, 0);
    if i < |v| && v[i] == 45 {
      return None;
    }
    var d := PassDigits(v, i);
    if d.None? {
      return None;
    }
    var end := PassBlanks(v, d.value.1);
    if d.value.1 == i || end != |v| {
      return None;
    }
    return Some(d.value.0);
  }

  method PassBlanks(v: Text, i0: nat) returns (i: nat)
    requires i0 <= |v|
    ensures i == BlankEnd(v, i0)
  {
    i := i0;
    while i < |v| && (v[i] == SPACE || v[i] == TAB)
      invariant i <= |v| && BlankEnd(v, i0) == BlankEnd(v, i)
    {
      i := i + 1;
    }
  }

  method PassDigits(v: Text, i0: nat) returns (d: Option<(nat, nat)>)
    requires i0 <= |v|
    ensures d == Digits(v, i0, 0)
  {
    var i, result: nat := i0, 0;
    while i < |v| && 48 <= v[i] <= 57
      invariant i <= |v| && result <= SIZE_MAX && Digits(v, i0, 0) == Digits(v, i, result)
    {
      var digit := v[i] - 48;
      if result > SIZE_MAX / 10 || result * 10 > SIZE_MAX - digit {
        return None;
      }
      result := result * 10 + digit;
      i := i + 1;
    }
    return Some((result, i));
  }

  /** What follows in `http_parse` once the headers are there: the length of the body. */
  method FindLength(n: nat, isResponse: bool, uri: Text, hs: seq<Header>) returns (len: Option<nat>)
    ensures len == BodyLen(n, isResponse, uri, hs)
  {
    hide GetHeader, ToSize, Same;
    var bodyLen, declared := SIZE_MAX, false;
    var cl := FindHeader(hs, Ascii("Content-Length"));
    if cl.Some? {
      var size := ReadSize(cl.value);
      if size.None? {
        return None;
      }
      bodyLen, declared := size.value, true;
    }
    if bodyLen == SIZE_MAX && !isResponse {
      bodyLen, declared := 0, false;
    }
    if bodyLen == SIZE_MAX && isResponse && Same(uri, Ascii("204")) {
      bodyLen, declared := 0, false;
    }
    if declared && n + bodyLen > SIZE_MAX {
      return None;
    }
    return Some(bodyLen);
  }

  /** `http_parse`. */
  method ParseMessage(b: Text) returns (p: Parsed)
    ensures p == Parse(b)
  {
    var n := RequestLength(b);
    if n < 0 {
      return Malformed;
    }
    if n == 0 {
      return NotYet;
    }
    p := ParseLines(b, n);
  }

  method ParseLines(b: Text, n: nat) returns (parsed: Parsed)
    requires Headed(b, n)
    ensures parsed == ParseHead(b, n)
  {
    hide TokenEnd, SkipSpaces, SkipLine, ReadHeaders, Judged;
    var m := PassToken(b, 0, n, false);
    var u := PassSpaces(b, m, n, false);
    var ue := PassToken(b, u, n, false);
    var p := PassSpaces(b, ue, n, false);
    var line := PassLine(b, p, n);
    if line.None? {
      return NotYet;
    }
    parsed := ParseRest(b, n, b[..m], b[u..ue], b[p..line.value.0], line.value.1);
  }

  /** The tests on the parts of the first line, and the fields after it. */
  method ParseRest(b: Text, n: nat, name: Text, target: Text, proto: Text, s: nat) returns (parsed: Parsed)
    requires Headed(b, n) && s <= n
    ensures parsed == Judged(n, name, target, proto, ReadHeaders(b, s, n, []))
  {
    hide GoodVersion, Begins, Ascii, IndexOf, ReadHeaders, BodyLen;
    var isResponse := |name| > 5 && Begins(name, Ascii("HTTP/"));
    if !isResponse && !GoodVersion(proto) {
      return Malformed;
    }
    var q := IndexOf(target, 63);
    var uri := target[..q];
    var query := if q < |target| then target[q + 1..] else [];
    if name == [] || uri == [] {
      return Malformed;
    }
    var hs := ParseHeaders(b, s, n);
    match hs
    case BadHeaders => return Malformed;
    case Overflow => return TooManyHeaders;
    case Headers(list) =>
      var len := FindLength(n, isResponse, uri, list);
      if len.None? {
        return Malformed;
      }
      return Parsed(Head(n, name, uri, query, proto, list, len.value, isResponse));
  }
}
