/** The head of an HTTP message as `http_get_request_len`, `http_parse` and `http_parse_headers` read
    it: byte by byte from the buffer, never past the end of the head. */
module HttpParse {
  import opened Wrappers
  import opened Bytes

  const CR: Byte := 13
  const LF: Byte := 10
  const TAB: Byte := 9
  const SPACE: Byte := 32
  const COLON: Byte := 58
  const MAX_HEADERS: nat := 30
  const SIZE_MAX: nat := 0xffff_ffff_ffff_ffff

  type Text = seq<Byte>

  /** A string literal as bytes; only its ASCII characters matter. */
  function Ascii(s: string): (t: Text)
    ensures |t| == |s|
  {
    seq(|s|, i requires 0 <= i < |s| => (s[i] as int) % 256)
  }

  datatype Header = Header(name: Text, value: Text)

  /** `headLen` bytes of head; `bodyLen` is SIZE_MAX when a response runs until the connection closes. */
  datatype Head = Head(headLen: nat, method_: Text, uri: Text, query: Text, proto: Text, headers: seq<Header>,
                       bodyLen: nat, isResponse: bool)

  datatype Parsed = NotYet | Malformed | TooManyHeaders | Parsed(head: Head)

  // ----- the end of the head

  predicate IsOk(c: Byte) { c == LF || c == CR || c == TAB || c >= SPACE }

  predicate EndsHead(b: Text, i: nat)
    requires i < |b|
  {
    (i > 0 && b[i] == LF && b[i - 1] == LF) || (i > 3 && b[i] == LF && b[i - 1] == CR && b[i - 2] == LF)
  }

  /** `http_get_request_len` from index `i` on: -1 for a byte that cannot be, 0 when not yet there. */
  function RequestLen(b: Text, i: nat): (n: int)
    requires i <= |b|
    ensures -1 <= n <= |b| && (n > 0 ==> n > i && b[n - 1] == LF)
    decreases |b| - i
  {
    if i == |b| then 0
    else if !IsOk(b[i]) then -1
    else if EndsHead(b, i) then i + 1
    else RequestLen(b, i + 1)
  }

  method RequestLength(b: Text) returns (n: int)
    ensures n == RequestLen(b, 0)
  {
    var i := 0;
    while i < |b|
      invariant i <= |b| && RequestLen(b, 0) == RequestLen(b, i)
    {
      if !IsOk(b[i]) {
        return -1;
      }
      if (i > 0 && b[i] == LF && b[i - 1] == LF) || (i > 3 && b[i] == LF && b[i - 1] == CR && b[i - 2] == LF) {
        return i + 1;
      }
      i := i + 1;
    }
    return 0;
  }

  // ----- scanning between `s` and `end`

  /** The head, which ends with a line feed. */
  predicate Headed(b: Text, end: nat) {
    0 < end <= |b| && b[end - 1] == LF
  }

  predicate Continues(c: Byte) { 128 <= c < 192 }

  /** `clen`: the length of the printable character at `s`, 0 if there is none. */
  function CharLen(b: Text, s: nat, end: nat): (n: nat)
    requires s < end <= |b|
    ensures s + n <= end
  {
    var c := b[s];
    if SPACE < c <= 126 then 1
    else if 192 <= c < 224 && s + 1 < end && Continues(b[s + 1]) then 2
    else if 224 <= c < 240 && s + 2 < end && Continues(b[s + 1]) && Continues(b[s + 2]) then 3
    else if 240 <= c < 248 && s + 3 < end && Continues(b[s + 1]) && Continues(b[s + 2]) && Continues(b[s + 3]) then 4
    else 0
  }

  /** The end of the characters from `s` on; of a header name, if `colon`. */
  function TokenEnd(b: Text, s: nat, end: nat, colon: bool): (e: nat)
    requires s <= end <= |b|
    ensures s <= e <= end
    decreases end - s
  {
    if s < end && !(colon && b[s] == COLON) && CharLen(b, s, end) > 0
    then TokenEnd(b, s + CharLen(b, s, end), end, colon) else s
  }

  function SkipSpaces(b: Text, s: nat, end: nat, tabs: bool): (e: nat)
    requires s <= end <= |b|
    ensures s <= e <= end
    decreases end - s
  {
    if s < end && (b[s] == SPACE || (tabs && b[s] == TAB)) then SkipSpaces(b, s + 1, end, tabs) else s
  }

  function LineEnd(b: Text, s: nat, end: nat): (e: nat)
    requires s <= end <= |b|
    ensures s <= e <= end && (e < end ==> b[e] == LF || b[e] == CR)
    decreases end - s
  {
    if s < end && b[s] != LF && b[s] != CR then LineEnd(b, s + 1, end) else s
  }

  /** `skiptorn`: the end of the line's text and the start of the next line. */
  function SkipLine(b: Text, s: nat, end: nat): (r: Option<(nat, nat)>)
    requires s <= end && Headed(b, end)
    ensures r.Some? ==> s <= r.value.0 < r.value.1 <= end
  {
    var e := LineEnd(b, s, end);
    if e >= end then None
    else if b[e] == LF then Some((e, e + 1))
    else if b[e + 1] == LF then Some((e, e + 2))
    else None
  }

  function TrimEnd(b: Text, s: nat, e: nat): (r: nat)
    requires s <= e <= |b|
    ensures s <= r <= e
    decreases e - s
  {
    if s < e && (b[e - 1] == SPACE || b[e - 1] == TAB) then TrimEnd(b, s, e - 1) else e
  }

  predicate BlankLine(b: Text, s: nat, end: nat)
    requires s < end && Headed(b, end)
  {
    b[s] == LF || (b[s] == CR && b[s + 1] == LF)
  }

  // ----- headers

  function Lower(c: Byte): Byte { if 65 <= c <= 90 then c + 32 else c }

  predicate Same(a: Text, b: Text) {
    |a| == |b| && forall i :: 0 <= i < |a| ==> Lower(a[i]) == Lower(b[i])
  }

  predicate Begins(a: Text, prefix: Text) {
    |prefix| <= |a| && Same(a[..|prefix|], prefix)
  }

  predicate AtMostOnce(name: Text) {
    Same(name, Ascii("Content-Length")) || Same(name, Ascii("Transfer-Encoding")) || Same(name, Ascii("Authorization"))
    || Same(name, Ascii("Cookie")) || Same(name, Ascii("Connection"))
  }

  predicate Repeats(hs: seq<Header>, name: Text) {
    AtMostOnce(name) && exists i :: 0 <= i < |hs| && Same(hs[i].name, name)
  }

  datatype Headers = BadHeaders | Overflow | Headers(list: seq<Header>)

  /** One line of `http_parse_headers`: the header and the start of the next line. */
  function HeaderLine(b: Text, s: nat, end: nat): (r: Option<(Header, nat)>)
    requires s < end && Headed(b, end)
    ensures r.Some? ==> s < r.value.1 <= end && r.value.0.name != []
  {
    var e := TokenEnd(b, s, end, true);
    if e == s || e >= end || CharLen(b, e, end) == 0 || b[e] != COLON then None
    else
      var v := SkipSpaces(b, e + 1, end, true);
      match SkipLine(b, v, end)
      case None => None
      case Some(line) => Some((Header(b[s..e], b[v..TrimEnd(b, v, line.0)]), line.1))
  }

  /** `http_parse_headers`. */
  function ReadHeaders(b: Text, s: nat, end: nat, hs: seq<Header>): Headers
    requires s <= end && Headed(b, end) && |hs| <= MAX_HEADERS
    decreases end - s
  {
    if |hs| == MAX_HEADERS then if s < end && !BlankLine(b, s, end) then Overflow else Headers(hs)
    else if s >= end then BadHeaders
    else if BlankLine(b, s, end) then Headers(hs)
    else
      match HeaderLine(b, s, end)
      case None => BadHeaders
      case Some(line) =>
        if Repeats(hs, line.0.name) then BadHeaders else ReadHeaders(b, line.1, end, hs + [line.0])
  }

  /** `http_get_header`. */
  function GetHeader(hs: seq<Header>, name: Text): Option<Text> {
    if hs == [] then None else if Same(hs[0].name, name) then Some(hs[0].value) else GetHeader(hs[1..], name)
  }

  // ----- the body length

  function BlankEnd(v: Text, i: nat): (e: nat)
    requires i <= |v|
    ensures i <= e <= |v|
    decreases |v| - i
  {
    if i < |v| && (v[i] == SPACE || v[i] == TAB) then BlankEnd(v, i + 1) else i
  }

  /** Digits from `i` on: the number and the place after them, or None on overflow. */
  function Digits(v: Text, i: nat, result: nat): (r: Option<(nat, nat)>)
    requires i <= |v| && result <= SIZE_MAX
    ensures r.Some? ==> r.value.0 <= SIZE_MAX && i <= r.value.1 <= |v|
    decreases |v| - i
  {
    if i < |v| && 48 <= v[i] <= 57 then
      if result > SIZE_MAX / 10 || result * 10 > SIZE_MAX - (v[i] - 48) then None
      else Digits(v, i + 1, result * 10 + (v[i] - 48))
    else Some((result, i))
  }

  /** `to_size_t`. */
  function ToSize(v: Text): (r: Option<nat>)
    ensures r.Some? ==> r.value <= SIZE_MAX
  {
    var i := BlankEnd(v, 0);
    if i < |v| && v[i] == 45 then None
    else
      match Digits(v, i, 0)
      case None => None
      case Some(d) => if d.1 == i || BlankEnd(v, d.1) != |v| then None else Some(d.0)
  }

  // ----- the whole head

  predicate IsDigit(c: Byte) { 48 <= c <= 57 }

  /** `HTTP/x.x`, digits for x. */
  predicate GoodVersion(proto: Text) {
    |proto| == 8 && Begins(proto, Ascii("HTTP/")) && IsDigit(proto[5]) && proto[6] == 46 && IsDigit(proto[7])
  }

  function IndexOf(t: Text, c: Byte): (i: nat)
    ensures i <= |t| && (i < |t| ==> t[i] == c)
  {
    if t == [] || t[0] == c then 0 else 1 + IndexOf(t[1..], c)
  }

  /** What `http_parse` makes of the length of the body. */
  function BodyLen(n: nat, isResponse: bool, uri: Text, hs: seq<Header>): Option<nat> {
    match GetHeader(hs, Ascii("Content-Length"))
    case Some(v) =>
      (match ToSize(v)
       case None => None
       case Some(len) =>
         if len == SIZE_MAX && !isResponse then Some(0)
         else if len == SIZE_MAX && Same(uri, Ascii("204")) then Some(0)
         else if n + len > SIZE_MAX then None
         else Some(len))
    case None =>
      if !isResponse || Same(uri, Ascii("204")) then Some(0) else Some(SIZE_MAX)
  }

  /** What the parts of a head amount to. */
  function Judged(n: nat, method_: Text, target: Text, proto: Text, hs: Headers): Parsed {
    var isResponse := |method_| > 5 && Begins(method_, Ascii("HTTP/"));
    var q := IndexOf(target, 63);
    var query := if q < |target| then target[q + 1..] else [];
    if !isResponse && !GoodVersion(proto) then Malformed
    else if method_ == [] || target[..q] == [] then Malformed
    else
      match hs
      case BadHeaders => Malformed
      case Overflow => TooManyHeaders
      case Headers(list) =>
        match BodyLen(n, isResponse, target[..q], list)
        case None => Malformed
        case Some(len) => Parsed(Head(n, method_, target[..q], query, proto, list, len, isResponse))
  }

  /** `http_parse` on a head of `n` bytes. */
  function ParseHead(b: Text, n: nat): Parsed
    requires Headed(b, n)
  {
    var m := TokenEnd(b, 0, n, false);
    var u := SkipSpaces(b, m, n, false);
    var ue := TokenEnd(b, u, n, false);
    var p := SkipSpaces(b, ue, n, false);
    match SkipLine(b, p, n)
    case None => NotYet
    case Some(line) => Judged(n, b[..m], b[u..ue], b[p..line.0], ReadHeaders(b, line.1, n, []))
  }

  function Parse(b: Text): (r: Parsed)
    ensures r.Parsed? ==> 0 < r.head.headLen <= |b| && r.head.headLen == RequestLen(b, 0)
  {
    var n := RequestLen(b, 0);
    if n < 0 then Malformed else if n == 0 then NotYet else ParseHead(b, n)
  }

  // ----- bytes after the head do not matter

  lemma {:induction false} LengthStays(b: Text, t: Text, i: nat)
    requires i <= |b| && RequestLen(b, i) != 0
    ensures RequestLen(b + t, i) == RequestLen(b, i)
    decreases |b| - i
  {
    var c := b + t;
    assert forall k :: 0 <= k <= i && k < |b| ==> c[k] == b[k];
    if IsOk(b[i]) && !EndsHead(b, i) {
      LengthStays(b, t, i + 1);
    }
  }

  /** No end of the head in `b`: none in a part of it. */
  lemma {:induction false} LengthOfPrefix(b: Text, k: nat, i: nat)
    requires i <= k <= |b| && RequestLen(b, i) > 0 && k < RequestLen(b, i)
    ensures RequestLen(b[..k], i) == 0
    decreases k - i
  {
    if i < k {
      assert b[..k][i] == b[i] && EndsHead(b[..k], i) == EndsHead(b, i);
      LengthOfPrefix(b, k, i + 1);
    }
  }

  predicate Agree(b: Text, c: Text, end: nat) {
    end <= |b| && end <= |c| && b[..end] == c[..end]
  }

  lemma SameByte(b: Text, c: Text, end: nat, i: nat)
    requires Agree(b, c, end) && i < end
    ensures b[i] == c[i]
  {
    assert b[..end][i] == c[..end][i];
  }

  lemma SameChar(b: Text, c: Text, s: nat, end: nat)
    requires Agree(b, c, end) && s < end
    ensures b[s] == c[s] && CharLen(b, s, end) == CharLen(c, s, end)
  {
    forall i | s <= i < end
      ensures b[i] == c[i]
    {
      SameByte(b, c, end, i);
    }
  }

  lemma {:induction false} SameToken(b: Text, c: Text, s: nat, end: nat, colon: bool)
    requires Agree(b, c, end) && s <= end
    ensures TokenEnd(b, s, end, colon) == TokenEnd(c, s, end, colon)
    decreases end - s
  {
    if s < end {
      hide CharLen, Agree;
      SameChar(b, c, s, end);
      if CharLen(b, s, end) > 0 {
        SameToken(b, c, s + CharLen(b, s, end), end, colon);
      }
    }
  }

  lemma {:induction false} SameSpaces(b: Text, c: Text, s: nat, end: nat, tabs: bool)
    requires Agree(b, c, end) && s <= end
    ensures SkipSpaces(b, s, end, tabs) == SkipSpaces(c, s, end, tabs)
    decreases end - s
  {
    if s < end {
      SameByte(b, c, end, s);
      SameSpaces(b, c, s + 1, end, tabs);
    }
  }

  lemma {:induction false} SameLineEnd(b: Text, c: Text, s: nat, end: nat)
    requires Agree(b, c, end) && s <= end
    ensures LineEnd(b, s, end) == LineEnd(c, s, end)
    decreases end - s
  {
    if s < end {
      SameByte(b, c, end, s);
      SameLineEnd(b, c, s + 1, end);
    }
  }

  lemma SameLine(b: Text, c: Text, s: nat, end: nat)
    requires Agree(b, c, end) && s <= end && Headed(b, end)
    ensures Headed(c, end) && SkipLine(b, s, end) == SkipLine(c, s, end)
  {
    SameByte(b, c, end, end - 1);
    SameLineEnd(b, c, s, end);
    var e := LineEnd(b, s, end);
    if e < end {
      SameByte(b, c, end, e);
      if e + 1 < end {
        SameByte(b, c, end, e + 1);
      }
    }
  }

  lemma {:induction false} SameTrim(b: Text, c: Text, s: nat, e: nat, end: nat)
    requires Agree(b, c, end) && s <= e <= end
    ensures TrimEnd(b, s, e) == TrimEnd(c, s, e)
    decreases e - s
  {
    if s < e {
      SameByte(b, c, end, e - 1);
      SameTrim(b, c, s, e - 1, end);
    }
  }

  lemma SamePart(b: Text, c: Text, end: nat, i: nat, j: nat)
    requires Agree(b, c, end) && i <= j <= end
    ensures b[i..j] == c[i..j]
  {
    assert b[i..j] == b[..end][i..j] && c[i..j] == c[..end][i..j];
  }

  lemma SameBlank(b: Text, c: Text, s: nat, end: nat)
    requires Agree(b, c, end) && s < end && Headed(b, end)
    ensures Headed(c, end) && BlankLine(b, s, end) == BlankLine(c, s, end)
  {
    SameByte(b, c, end, end - 1);
    SameByte(b, c, end, s);
    if s + 1 < end {
      SameByte(b, c, end, s + 1);
    }
  }

  lemma SameHeaderLine(b: Text, c: Text, s: nat, end: nat)
    requires Agree(b, c, end) && s < end && Headed(b, end)
    ensures Headed(c, end) && HeaderLine(b, s, end) == HeaderLine(c, s, end)
  {
    hide TokenEnd, SkipSpaces, SkipLine, TrimEnd, CharLen, Agree;
    SameLine(b, c, s, end);
    SameToken(b, c, s, end, true);
    var e := TokenEnd(b, s, end, true);
    if e < end {
      SameChar(b, c, e, end);
      SamePart(b, c, end, s, e);
      SameSpaces(b, c, e + 1, end, true);
      var v := SkipSpaces(b, e + 1, end, true);
      SameLine(b, c, v, end);
      if SkipLine(b, v, end).Some? {
        var ve := SkipLine(b, v, end).value.0;
        SameTrim(b, c, v, ve, end);
        SamePart(b, c, end, v, TrimEnd(b, v, ve));
      }
    }
  }

  lemma {:induction false} SameHeaders(b: Text, c: Text, s: nat, end: nat, hs: seq<Header>)
    requires Agree(b, c, end) && s <= end && Headed(b, end) && |hs| <= MAX_HEADERS
    ensures Headed(c, end) && ReadHeaders(b, s, end, hs) == ReadHeaders(c, s, end, hs)
    decreases end - s
  {
    hide Agree, HeaderLine, BlankLine, Repeats;
    SameLine(b, c, s, end);
    if s < end {
      SameBlank(b, c, s, end);
      SameHeaderLine(b, c, s, end);
      match HeaderLine(b, s, end)
      case None =>
      case Some(line) =>
        if |hs| < MAX_HEADERS {
          SameHeaders(b, c, line.1, end, hs + [line.0]);
        }
    }
  }

  /** The parts of the first line. */
  lemma SameParts(b: Text, c: Text, n: nat)
    requires Agree(b, c, n) && Headed(b, n)
    ensures Headed(c, n)
    ensures var m := TokenEnd(b, 0, n, false);
            var u := SkipSpaces(b, m, n, false);
            var ue := TokenEnd(b, u, n, false);
            var p := SkipSpaces(b, ue, n, false);
            && m == TokenEnd(c, 0, n, false) && u == SkipSpaces(c, m, n, false)
            && ue == TokenEnd(c, u, n, false) && p == SkipSpaces(c, ue, n, false)
            && SkipLine(b, p, n) == SkipLine(c, p, n) && b[..m] == c[..m] && b[u..ue] == c[u..ue]
  {
    hide TokenEnd, SkipSpaces, SkipLine, Agree;
    SameLine(b, c, 0, n);
    var m := TokenEnd(b, 0, n, false);
    SameToken(b, c, 0, n, false);
    SamePart(b, c, n, 0, m);
    assert b[..m] == b[0..m] && c[..m] == c[0..m];
    var u := SkipSpaces(b, m, n, false);
    SameSpaces(b, c, m, n, false);
    var ue := TokenEnd(b, u, n, false);
    SameToken(b, c, u, n, false);
    SamePart(b, c, n, u, ue);
    var p := SkipSpaces(b, ue, n, false);
    SameSpaces(b, c, ue, n, false);
    SameLine(b, c, p, n);
  }

  lemma SameHead(b: Text, c: Text, n: nat)
    requires Agree(b, c, n) && Headed(b, n)
    ensures Headed(c, n) && ParseHead(b, n) == ParseHead(c, n)
  {
    hide Agree, TokenEnd, SkipSpaces, SkipLine, ReadHeaders, Judged;
    SameParts(b, c, n);
    var u := SkipSpaces(b, TokenEnd(b, 0, n, false), n, false);
    var p := SkipSpaces(b, TokenEnd(b, u, n, false), n, false);
    match SkipLine(b, p, n)
    case None =>
    case Some(line) =>
      SamePart(b, c, n, p, line.0);
      SameHeaders(b, c, line.1, n, []);
  }

  /** Once the head is complete, what is parsed does not change with the bytes that arrive later. */
  lemma ParseStays(b: Text, t: Text)
    requires RequestLen(b, 0) != 0
    ensures Parse(b + t) == Parse(b)
  {
    hide ParseHead;
    LengthStays(b, t, 0);
    var n := RequestLen(b, 0);
    if n > 0 {
      assert (b + t)[..n] == b[..n];
      SameHead(b, b + t, n);
    }
  }

  /** Before the end of the head there is nothing to parse. */
  lemma ParseWaits(b: Text, k: nat)
    requires Parse(b).Parsed? && k < Parse(b).head.headLen
    ensures Parse(b[..k]) == NotYet
  {
    hide ParseHead;
    LengthOfPrefix(b, k, 0);
  }

  // ----- a carriage return in the request line

  lemma {:induction false} TokenInLine(b: Text, s: nat, end: nat, colon: bool)
    requires s <= end <= |b|
    ensures LineEnd(b, TokenEnd(b, s, end, colon), end) == LineEnd(b, s, end)
    decreases end - s
  {
    if s < end && !(colon && b[s] == COLON) && CharLen(b, s, end) > 0 {
      var k := CharLen(b, s, end);
      CharInLine(b, s, end, k);
      TokenInLine(b, s + k, end, colon);
    }
  }

  /** No byte of a character ends the line. */
  lemma {:induction false} CharInLine(b: Text, s: nat, end: nat, k: nat)
    requires s < end <= |b| && k <= CharLen(b, s, end)
    ensures LineEnd(b, s, end) == LineEnd(b, s + k, end)
    decreases k
  {
    if k > 0 {
      CharInLine(b, s, end, k - 1);
      assert b[s + k - 1] != LF && b[s + k - 1] != CR;
    }
  }

  lemma {:induction false} SpacesInLine(b: Text, s: nat, end: nat, tabs: bool)
    requires s <= end <= |b|
    ensures LineEnd(b, SkipSpaces(b, s, end, tabs), end) == LineEnd(b, s, end)
    decreases end - s
  {
    if s < end && (b[s] == SPACE || (tabs && b[s] == TAB)) {
      SpacesInLine(b, s + 1, end, tabs);
    }
  }

  /** The line feed at the end of the head ends the line at the latest. */
  lemma {:induction false} LineEnds(b: Text, s: nat, end: nat)
    requires Headed(b, end) && s < end
    ensures LineEnd(b, s, end) < end
    decreases end - s
  {
    if b[s] != LF && b[s] != CR {
      LineEnds(b, s + 1, end);
    }
  }

  /** Where the parts of the first line end, the line goes on to the same place. */
  lemma WaitsAtEnd(b: Text, n: nat)
    requires Headed(b, n)
    ensures LineEnd(b, 0, n) < n
    ensures var u := SkipSpaces(b, TokenEnd(b, 0, n, false), n, false);
            var p := SkipSpaces(b, TokenEnd(b, u, n, false), n, false);
            var e := LineEnd(b, 0, n);
            SkipLine(b, p, n).None? <==> b[e] == CR && b[e + 1] != LF
  {
    hide TokenEnd, SkipSpaces;
    var m := TokenEnd(b, 0, n, false);
    var u := SkipSpaces(b, m, n, false);
    var ue := TokenEnd(b, u, n, false);
    var p := SkipSpaces(b, ue, n, false);
    TokenInLine(b, 0, n, false);
    SpacesInLine(b, m, n, false);
    TokenInLine(b, u, n, false);
    SpacesInLine(b, ue, n, false);
    LineEnds(b, 0, n);
  }

  lemma HeadWaitsIff(b: Text, n: nat)
    requires Headed(b, n)
    ensures LineEnd(b, 0, n) < n
    ensures var e := LineEnd(b, 0, n); ParseHead(b, n) == NotYet <==> b[e] == CR && b[e + 1] != LF
  {
    hide TokenEnd, SkipSpaces, SkipLine, LineEnd, Begins, Ascii, GoodVersion, IndexOf, ReadHeaders, BodyLen;
    WaitsAtEnd(b, n);
  }

  /** A complete head is taken for an incomplete one exactly when a carriage return stands alone in its
      first line. */
  lemma StrayCrIff(b: Text)
    requires RequestLen(b, 0) > 0
    ensures var n := RequestLen(b, 0);
            var e := LineEnd(b, 0, n);
            e < n && (Parse(b) == NotYet <==> b[e] == CR && b[e + 1] != LF)
  {
    hide RequestLen, ParseHead, LineEnd;
    HeadWaitsIff(b, RequestLen(b, 0));
  }

  /** `G / `, a carriage return, `H` and two line feeds. */
  lemma StrayCrHead()
    ensures var b := [71, 32, 47, 32, 13, 72, 10, 10];
            RequestLen(b, 0) == |b| && Parse(b) == NotYet
  {
    var b: Text := [71, 32, 47, 32, 13, 72, 10, 10];
    assert RequestLen(b, 4) == 8;
    assert LineEnd(b, 0, 8) == LineEnd(b, 3, 8) == 4;
    hide RequestLen, LineEnd, Parse;
    StrayCrIff(b);
  }
}
