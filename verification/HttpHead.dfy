/** Request heads as RFC 9112 writes them (sections 2.1, 3 and 5), and what `http_parse` reads in them. */
module HttpHead {
  import opened Wrappers
  import opened Bytes
  import opened Fmt
  import opened Sequences
  import opened HttpParse
  import Http
  import HttpChunk

  const CRLF: Text := [CR, LF]
  const SLASH: Byte := 47
  const QUESTION_MARK: Byte := 63

  /** `name: value`, with the blanks around the value. */
  datatype Field = Field(name: Text, lead: Text, value: Text, trail: Text)

  datatype Request = Request(method_: Text, target: Text, version: Text, fields: seq<Field>)

  predicate IsBlank(c: Byte) { c == SPACE || c == TAB }

  predicate Visible(t: Text) { forall k :: 0 <= k < |t| ==> SPACE < t[k] <= 126 }

  predicate Blanks(t: Text) { forall k :: 0 <= k < |t| ==> IsBlank(t[k]) }

  /** Text of one line. */
  predicate Printable(t: Text) { forall k :: 0 <= k < |t| ==> t[k] == TAB || t[k] >= SPACE }

  predicate ValidField(f: Field) {
    && f.name != [] && Visible(f.name) && COLON !in f.name && Blanks(f.lead) && Printable(f.value) && Blanks(f.trail)
    && if f.value == [] then f.trail == [] else !IsBlank(f.value[0]) && !IsBlank(f.value[|f.value| - 1])
  }

  predicate ValidFields(fs: seq<Field>) { forall k :: 0 <= k < |fs| ==> ValidField(fs[k]) }

  predicate ValidRequest(r: Request) {
    && r.method_ != [] && Visible(r.method_) && SLASH !in r.method_
    && r.target != [] && Visible(r.target) && r.target[0] != QUESTION_MARK
    && Visible(r.version) && GoodVersion(r.version) && ValidFields(r.fields)
  }

  // ----- printed form

  function FieldLine(f: Field): Text {
    f.name + ([COLON] + (f.lead + (f.value + f.trail)))
  }

  function RequestLine(r: Request): Text {
    r.method_ + ([SPACE] + (r.target + ([SPACE] + r.version)))
  }

  /** The field lines and the empty line. */
  function FieldsText(fs: seq<Field>): (t: Text)
    ensures |t| >= 2
  {
    if fs == [] then CRLF else FieldLine(fs[0]) + (CRLF + FieldsText(fs[1..]))
  }

  function HeadText(r: Request): Text {
    RequestLine(r) + (CRLF + FieldsText(r.fields))
  }

  // ----- the scanners on printed text

  lemma {:induction false} TokenRead(b: Text, s: nat, end: nat, colon: bool, t: Text)
    requires At(b, s, t) && Visible(t) && (colon ==> COLON !in t) && s + |t| < end <= |b|
    requires b[s + |t|] == SPACE || (colon && b[s + |t|] == COLON)
    ensures TokenEnd(b, s, end, colon) == s + |t|
    decreases |t|
  {
    if t != [] {
      AtIndex(b, s, t, 0);
      assert t == t[..1] + t[1..];
      AtSplit(b, s, t[..1], t[1..]);
      assert CharLen(b, s, end) == 1;
      TokenRead(b, s + 1, end, colon, t[1..]);
    }
  }

  lemma {:induction false} BlanksSkipped(b: Text, s: nat, end: nat, t: Text)
    requires At(b, s, t) && Blanks(t) && s + |t| < end <= |b| && !IsBlank(b[s + |t|])
    ensures SkipSpaces(b, s, end, true) == s + |t|
    decreases |t|
  {
    if t != [] {
      AtIndex(b, s, t, 0);
      assert t == t[..1] + t[1..];
      AtSplit(b, s, t[..1], t[1..]);
      BlanksSkipped(b, s + 1, end, t[1..]);
    }
  }

  lemma {:induction false} LineRead(b: Text, s: nat, end: nat, t: Text)
    requires At(b, s, t) && Printable(t) && s + |t| < end <= |b| && b[s + |t|] == CR
    ensures LineEnd(b, s, end) == s + |t|
    decreases |t|
  {
    if t != [] {
      AtIndex(b, s, t, 0);
      assert t == t[..1] + t[1..];
      AtSplit(b, s, t[..1], t[1..]);
      LineRead(b, s + 1, end, t[1..]);
    }
  }

  lemma {:induction false} TrailTrimmed(b: Text, s: nat, e: nat, trail: Text)
    requires s <= e && At(b, e, trail) && Blanks(trail) && (e == s || !IsBlank(b[e - 1]))
    requires e == s ==> trail == []
    ensures TrimEnd(b, s, e + |trail|) == e
    decreases |trail|
  {
    if trail != [] {
      var k := |trail| - 1;
      AtIndex(b, e, trail, k);
      assert trail == trail[..k] + trail[k..];
      AtSplit(b, e, trail[..k], trail[k..]);
      TrailTrimmed(b, s, e, trail[..k]);
    }
  }

  lemma EndOfLine()
    ensures |CRLF| == 2 && CRLF[0] == CR && CRLF[1] == LF
  {
  }

  /** Where the parts of a field line stand. */
  lemma FieldPlaces(b: Text, s: nat, f: Field)
    requires At(b, s, FieldLine(f) + CRLF)
    ensures var c := s + |f.name|;
            var v := c + 1 + |f.lead|;
            var e := v + |f.value|;
            var le := e + |f.trail|;
            && s + |FieldLine(f)| == le && le + 2 <= |b|
            && At(b, s, f.name) && b[c] == COLON && At(b, c + 1, f.lead) && At(b, v, f.value + f.trail)
            && At(b, v, f.value) && At(b, e, f.trail) && b[le] == CR && b[le + 1] == LF
            && b[s..c] == f.name && b[v..e] == f.value
  {
    hide *;
    FieldParts(f);
    EndOfLine();
    var content := f.value + f.trail;
    var c := s + |f.name|;
    var v := c + 1 + |f.lead|;
    var le := v + |content|;
    AtSplit(b, s, FieldLine(f), CRLF);
    AtIndex(b, le, CRLF, 0);
    AtIndex(b, le, CRLF, 1);
    AtSplit(b, s, f.name, [COLON] + (f.lead + content));
    AtSplit(b, c, [COLON], f.lead + content);
    AtIndex(b, c, [COLON], 0);
    AtSplit(b, c + 1, f.lead, content);
    AtSplit(b, v, f.value, f.trail);
    AtSlice(b, s, f.name);
    AtSlice(b, v, f.value);
  }

  lemma FieldParts(f: Field)
    ensures FieldLine(f) == f.name + ([COLON] + (f.lead + (f.value + f.trail)))
    ensures |FieldLine(f)| == |f.name| + 1 + |f.lead| + |f.value| + |f.trail|
  {
  }

  lemma LineSkipped(b: Text, s: nat, end: nat, t: Text)
    requires At(b, s, t) && Printable(t) && s + |t| + 2 <= end && Headed(b, end)
    requires b[s + |t|] == CR && b[s + |t| + 1] == LF
    ensures SkipLine(b, s, end) == Some((s + |t|, s + |t| + 2))
  {
    LineRead(b, s, end, t);
  }

  lemma ValueStarts(b: Text, v: nat, f: Field)
    requires ValidField(f) && v + |f.value| + |f.trail| < |b| && At(b, v, f.value) && b[v + |f.value| + |f.trail|] == CR
    ensures !IsBlank(b[v]) && (f.value != [] ==> !IsBlank(b[v + |f.value| - 1])) && Printable(f.value + f.trail)
  {
    if f.value != [] {
      AtIndex(b, v, f.value, 0);
      AtIndex(b, v, f.value, |f.value| - 1);
    }
  }

  lemma FieldRead(b: Text, s: nat, end: nat, f: Field)
    requires ValidField(f) && At(b, s, FieldLine(f) + CRLF) && s + |FieldLine(f)| + 2 <= end && Headed(b, end)
    ensures HeaderLine(b, s, end) == Some((Header(f.name, f.value), s + |FieldLine(f)| + 2))
  {
    hide At, TokenEnd, SkipSpaces, SkipLine, TrimEnd, Visible, Blanks, Printable, FieldLine;
    var c := s + |f.name|;
    var v := c + 1 + |f.lead|;
    var e := v + |f.value|;
    FieldPlaces(b, s, f);
    TokenRead(b, s, end, true, f.name);
    assert CharLen(b, c, end) == 1;
    ValueStarts(b, v, f);
    BlanksSkipped(b, c + 1, end, f.lead);
    LineSkipped(b, v, end, f.value + f.trail);
    TrailTrimmed(b, v, e, f.trail);
  }

  // ----- all field lines

  function HeaderOf(f: Field): Header { Header(f.name, f.value) }

  /** What becomes of the fields after the headers `hs`: one too many of some name, or more than fit. */
  function Collected(fs: seq<Field>, hs: seq<Header>): Headers
    decreases |fs|
  {
    if fs == [] then Headers(hs)
    else if |hs| >= MAX_HEADERS then Overflow
    else if Repeats(hs, fs[0].name) then BadHeaders
    else Collected(fs[1..], hs + [HeaderOf(fs[0])])
  }

  lemma FieldsSplit(b: Text, s: nat, fs: seq<Field>)
    requires At(b, s, FieldsText(fs))
    ensures fs == [] ==> s + 2 <= |b| && b[s] == CR && b[s + 1] == LF
    ensures fs != [] ==>
              var n := |FieldLine(fs[0])|;
              && At(b, s, FieldLine(fs[0]) + CRLF) && At(b, s + n + 2, FieldsText(fs[1..]))
              && |FieldsText(fs)| == n + 2 + |FieldsText(fs[1..])| && s + |FieldsText(fs)| <= |b|
  {
    if fs == [] {
      AtIndex(b, s, CRLF, 0);
      AtIndex(b, s, CRLF, 1);
    } else {
      var line, more := FieldLine(fs[0]), FieldsText(fs[1..]);
      assert FieldsText(fs) == (line + CRLF) + more;
      hide At, FieldLine, FieldsText;
      AtSplit(b, s, line + CRLF, more);
    }
  }

  lemma {:induction false} FieldsRead(b: Text, s: nat, fs: seq<Field>, hs: seq<Header>)
    requires ValidFields(fs) && At(b, s, FieldsText(fs)) && |hs| <= MAX_HEADERS
    requires Headed(b, s + |FieldsText(fs)|)
    ensures ReadHeaders(b, s, s + |FieldsText(fs)|, hs) == Collected(fs, hs)
    decreases |fs|
  {
    hide *;
    var end := s + |FieldsText(fs)|;
    EndsWithHead(b, end);
    FieldsSplit(b, s, fs);
    CollectedStep(fs, hs);
    FieldsStart(b, s, fs);
    if fs == [] || |hs| == MAX_HEADERS {
      NoMoreFields(b, s, end, hs);
    } else {
      FieldRead(b, s, end, fs[0]);
      OneMoreField(b, s, end, hs);
      if !Repeats(hs, fs[0].name) {
        FieldsRead(b, s + |FieldLine(fs[0])| + 2, fs[1..], hs + [HeaderOf(fs[0])]);
      }
    }
  }

  lemma EndsWithHead(b: Text, end: nat)
    requires Headed(b, end)
    ensures 0 < end <= |b|
  {
  }

  /** An empty line stands where the fields end, and nowhere before. */
  lemma FieldsStart(b: Text, s: nat, fs: seq<Field>)
    requires ValidFields(fs) && At(b, s, FieldsText(fs)) && Headed(b, s + |FieldsText(fs)|)
    ensures fs != [] ==> ValidField(fs[0]) && ValidFields(fs[1..]) && HeaderOf(fs[0]) == Header(fs[0].name, fs[0].value)
    ensures BlankLine(b, s, s + |FieldsText(fs)|) <==> fs == []
  {
    FieldsSplit(b, s, fs);
    hide At, FieldsText, FieldLine, ValidField;
    if fs != [] {
      FieldStarts(b, s, fs[0]);
    }
  }

  lemma CollectedStep(fs: seq<Field>, hs: seq<Header>)
    ensures Collected(fs, hs) ==
            if fs == [] then Headers(hs)
            else if |hs| >= MAX_HEADERS then Overflow
            else if Repeats(hs, fs[0].name) then BadHeaders
            else Collected(fs[1..], hs + [HeaderOf(fs[0])])
  {
    hide Repeats;
  }

  lemma NoMoreFields(b: Text, s: nat, end: nat, hs: seq<Header>)
    requires s < end && Headed(b, end) && |hs| <= MAX_HEADERS && (|hs| < MAX_HEADERS ==> BlankLine(b, s, end))
    ensures ReadHeaders(b, s, end, hs) == if BlankLine(b, s, end) then Headers(hs) else Overflow
  {
    hide HeaderLine, Repeats, BlankLine;
  }

  lemma OneMoreField(b: Text, s: nat, end: nat, hs: seq<Header>)
    requires s < end && Headed(b, end) && |hs| < MAX_HEADERS && !BlankLine(b, s, end) && HeaderLine(b, s, end).Some?
    ensures var line := HeaderLine(b, s, end).value;
            ReadHeaders(b, s, end, hs) ==
            if Repeats(hs, line.0.name) then BadHeaders else ReadHeaders(b, line.1, end, hs + [line.0])
  {
    hide HeaderLine, Repeats, BlankLine;
  }

  lemma FieldStarts(b: Text, s: nat, f: Field)
    requires ValidField(f) && At(b, s, FieldLine(f) + CRLF)
    ensures s < |b| && b[s] != LF && b[s] != CR
  {
    hide FieldLine;
    FieldPlaces(b, s, f);
    AtIndex(b, s, f.name, 0);
  }

  // ----- the end of the head

  /** Within and up to the end of a line that is not empty no head ends. */
  lemma {:induction false} LinePassed(b: Text, i: nat, t: Text, k: nat)
    requires At(b, i, t + CRLF) && Printable(t) && t != [] && k <= |t|
    ensures i + |t| + 2 <= |b| && RequestLen(b, i + k) == RequestLen(b, i + |t| + 2)
    decreases |t| - k
  {
    AtSplit(b, i, t, CRLF);
    AtIndex(b, i + |t|, CRLF, 0);
    AtIndex(b, i + |t|, CRLF, 1);
    AtIndex(b, i, t, |t| - 1);
    if k < |t| {
      AtIndex(b, i, t, k);
      LinePassed(b, i, t, k + 1);
    } else {
      assert RequestLen(b, i + |t|) == RequestLen(b, i + |t| + 1);
    }
  }

  lemma FieldPrintable(f: Field)
    requires ValidField(f)
    ensures Printable(FieldLine(f)) && FieldLine(f) != []
  {
    FieldParts(f);
  }

  lemma RequestPrintable(r: Request)
    requires ValidRequest(r)
    ensures Printable(RequestLine(r)) && RequestLine(r) != []
  {
    assert |RequestLine(r)| >= |r.method_|;
  }

  /** The head ends with the first empty line. */
  lemma {:induction false} FieldsPassed(b: Text, s: nat, fs: seq<Field>)
    requires ValidFields(fs) && At(b, s, FieldsText(fs)) && s >= 3 && b[s - 1] == LF
    ensures RequestLen(b, s) == s + |FieldsText(fs)| <= |b| && b[s + |FieldsText(fs)| - 1] == LF
    decreases |fs|
  {
    hide *;
    FieldsSplit(b, s, fs);
    SomeFields(fs);
    if fs == [] {
      EmptyLineEnds(b, s);
    } else {
      var n := |FieldLine(fs[0])|;
      FieldPrintable(fs[0]);
      LinePassed(b, s, FieldLine(fs[0]), 0);
      FieldPlaces(b, s, fs[0]);
      FieldsPassed(b, s + n + 2, fs[1..]);
    }
  }

  lemma SomeFields(fs: seq<Field>)
    ensures fs == [] ==> |FieldsText(fs)| == 2
    ensures ValidFields(fs) && fs != [] ==> ValidField(fs[0]) && ValidFields(fs[1..])
  {
    hide ValidField, FieldLine;
  }

  lemma EmptyLineEnds(b: Text, s: nat)
    requires 3 <= s && s + 2 <= |b| && b[s - 1] == LF && b[s] == CR && b[s + 1] == LF
    ensures RequestLen(b, s) == s + 2
  {
    assert RequestLen(b, s) == RequestLen(b, s + 1);
  }

  lemma HeadSplit(b: Text, r: Request)
    requires At(b, 0, HeadText(r))
    ensures var n := |RequestLine(r)|;
            && |HeadText(r)| == n + 2 + |FieldsText(r.fields)| <= |b|
            && At(b, 0, RequestLine(r) + CRLF) && At(b, n + 2, FieldsText(r.fields))
            && At(b, 0, RequestLine(r)) && b[n] == CR && b[n + 1] == LF
  {
    hide *;
    HeadParts(r);
    EndOfLine();
    var line, more := RequestLine(r), FieldsText(r.fields);
    AtSplit(b, 0, line + CRLF, more);
    AtSplit(b, 0, line, CRLF);
    AtIndex(b, |line|, CRLF, 0);
    AtIndex(b, |line|, CRLF, 1);
  }

  lemma HeadParts(r: Request)
    ensures HeadText(r) == (RequestLine(r) + CRLF) + FieldsText(r.fields)
  {
    hide RequestLine, FieldsText;
  }

  lemma HeadLength(b: Text, r: Request)
    requires ValidRequest(r) && At(b, 0, HeadText(r))
    ensures RequestLen(b, 0) == |HeadText(r)| <= |b| && Headed(b, |HeadText(r)|)
  {
    hide At, RequestLine, FieldsText, HeadText, RequestLen;
    HeadSplit(b, r);
    RequestPrintable(r);
    LinePassed(b, 0, RequestLine(r), 0);
    FieldsPassed(b, |RequestLine(r)| + 2, r.fields);
  }

  // ----- the request line

  lemma NotResponse(m: Text)
    requires SLASH !in m
    ensures !Begins(m, Ascii("HTTP/"))
  {
    var prefix := Ascii("HTTP/");
    assert prefix[4] == SLASH;
    if |m| >= 5 {
      assert m[4] in m && m[..5][4] == m[4];
    }
  }

  function Uri(target: Text): Text { target[..IndexOf(target, QUESTION_MARK)] }

  function Query(target: Text): Text {
    var q := IndexOf(target, QUESTION_MARK);
    if q < |target| then target[q + 1..] else []
  }

  lemma {:induction false} FirstPlace(t: Text, c: Byte)
    ensures c !in t[..IndexOf(t, c)] && (IndexOf(t, c) < |t| <==> c in t)
  {
    if t != [] && t[0] != c {
      FirstPlace(t[1..], c);
      var q := IndexOf(t[1..], c);
      assert IndexOf(t, c) == 1 + q;
      hide IndexOf;
      assert t[..1 + q] == [t[0]] + t[1..][..q];
      assert t == [t[0]] + t[1..];
    }
  }

  /** The target is cut at its first question mark. */
  lemma TargetCut(target: Text)
    ensures QUESTION_MARK !in Uri(target)
    ensures target == if QUESTION_MARK in target then Uri(target) + [QUESTION_MARK] + Query(target) else Uri(target)
  {
    FirstPlace(target, QUESTION_MARK);
    hide IndexOf;
    var q := IndexOf(target, QUESTION_MARK);
    if q < |target| {
      assert target == target[..q] + [target[q]] + target[q + 1..];
    }
  }

  /** Where the parts of the request line stand. */
  lemma RequestPlaces(b: Text, r: Request)
    requires At(b, 0, RequestLine(r))
    ensures var u := |r.method_| + 1;
            var ue := u + |r.target|;
            && ue + 1 + |r.version| == |RequestLine(r)| <= |b|
            && At(b, 0, r.method_) && b[u - 1] == SPACE && At(b, u, r.target) && b[ue] == SPACE
            && At(b, ue + 1, r.version)
  {
    hide *;
    RequestParts(r);
    var u := |r.method_| + 1;
    var ue := u + |r.target|;
    var space := [SPACE];
    var last := space + r.version;
    var more := space + (r.target + last);
    AtSplit(b, 0, r.method_, more);
    AtSplit(b, u - 1, space, r.target + last);
    AtIndex(b, u - 1, space, 0);
    AtSplit(b, u, r.target, last);
    AtSplit(b, ue, space, r.version);
    AtIndex(b, ue, space, 0);
  }

  lemma AtSliceFirst(b: Text, i: nat, t: Text)
    requires At(b, i, t)
    ensures i + |t| <= |b| && b[i..i + |t|] == t && (t != [] ==> b[i] == t[0])
  {
    if t != [] {
      AtIndex(b, i, t, 0);
    }
  }

  lemma RequestParts(r: Request)
    ensures RequestLine(r) == r.method_ + ([SPACE] + (r.target + ([SPACE] + r.version)))
    ensures |RequestLine(r)| == |r.method_| + 1 + |r.target| + 1 + |r.version|
  {
  }

  lemma OneSpace(b: Text, s: nat, end: nat)
    requires s + 1 < end <= |b| && b[s] == SPACE && b[s + 1] != SPACE
    ensures SkipSpaces(b, s, end, false) == s + 1
  {
    assert SkipSpaces(b, s + 1, end, false) == s + 1;
  }

  /** The places that `http_parse` finds in the request line. */
  lemma RequestScanned(b: Text, n: nat, r: Request)
    requires ValidRequest(r) && At(b, 0, RequestLine(r)) && |RequestLine(r)| + 2 <= n && Headed(b, n)
    requires b[|RequestLine(r)|] == CR && b[|RequestLine(r)| + 1] == LF
    ensures var m := |r.method_|;
            var u := m + 1;
            var ue := u + |r.target|;
            var p := ue + 1;
            var le := p + |r.version|;
            && le == |RequestLine(r)|
            && TokenEnd(b, 0, n, false) == m && SkipSpaces(b, m, n, false) == u
            && TokenEnd(b, u, n, false) == ue && SkipSpaces(b, ue, n, false) == p
            && SkipLine(b, p, n) == Some((le, le + 2))
            && b[..m] == r.method_ && b[u..ue] == r.target && b[p..le] == r.version
  {
    hide At, RequestLine, TokenEnd, SkipSpaces, SkipLine, GoodVersion;
    RequestPlaces(b, r);
    var u := |r.method_| + 1;
    var ue := u + |r.target|;
    AtSliceFirst(b, 0, r.method_);
    AtSliceFirst(b, u, r.target);
    AtSliceFirst(b, ue + 1, r.version);
    TokenRead(b, 0, n, false, r.method_);
    OneSpace(b, u - 1, n);
    TokenRead(b, u, n, false, r.target);
    VersionLength(r.version);
    OneSpace(b, ue, n);
    LineSkipped(b, ue + 1, n, r.version);
  }

  lemma VersionLength(v: Text)
    requires GoodVersion(v)
    ensures |v| == 8
  {
  }

  // ----- the whole head

  /** What a head of `n` bytes should be read as, given its headers. */
  function ReadAs(r: Request, n: nat, hs: Headers): Parsed {
    match hs
    case BadHeaders => Malformed
    case Overflow => TooManyHeaders
    case Headers(list) =>
      match BodyLen(n, false, Uri(r.target), list)
      case None => Malformed
      case Some(len) => Parsed(Head(n, r.method_, Uri(r.target), Query(r.target), r.version, list, len, false))
  }

  lemma TargetNotEmpty(target: Text)
    requires target != [] && target[0] != QUESTION_MARK
    ensures Uri(target) != []
  {
    assert IndexOf(target, QUESTION_MARK) >= 1;
  }

  /** `http_parse` on a head whose request line has been scanned. */
  lemma PartsParsed(b: Text, n: nat, r: Request, m: nat, u: nat, ue: nat, p: nat, le: nat)
    requires Headed(b, n) && m <= u <= ue <= p <= le && le + 2 <= n
    requires TokenEnd(b, 0, n, false) == m && SkipSpaces(b, m, n, false) == u
    requires TokenEnd(b, u, n, false) == ue && SkipSpaces(b, ue, n, false) == p
    requires SkipLine(b, p, n) == Some((le, le + 2))
    requires b[..m] == r.method_ && b[u..ue] == r.target && b[p..le] == r.version
    requires r.method_ != [] && !Begins(r.method_, Ascii("HTTP/")) && Uri(r.target) != [] && GoodVersion(r.version)
    ensures ParseHead(b, n) == ReadAs(r, n, ReadHeaders(b, le + 2, n, []))
  {
    hide TokenEnd, SkipSpaces, SkipLine, GoodVersion, Begins, Ascii, IndexOf, ReadHeaders, BodyLen;
    assert |r.method_| == m;
  }

  lemma ParseOfHead(b: Text, n: nat)
    requires RequestLen(b, 0) == n > 0 && Headed(b, n)
    ensures Parse(b) == ParseHead(b, n)
  {
    hide RequestLen, ParseHead;
  }

  lemma RequestLineParsed(b: Text, n: nat, r: Request)
    requires ValidRequest(r) && At(b, 0, RequestLine(r)) && |RequestLine(r)| + 2 <= n && Headed(b, n)
    requires b[|RequestLine(r)|] == CR && b[|RequestLine(r)| + 1] == LF
    ensures ParseHead(b, n) == ReadAs(r, n, ReadHeaders(b, |RequestLine(r)| + 2, n, []))
  {
    hide *;
    ValidParts(r);
    RequestScanned(b, n, r);
    EndsWithHead(b, n);
    var m, le := |r.method_|, |RequestLine(r)|;
    var u := m + 1;
    var ue := u + |r.target|;
    NotResponse(r.method_);
    TargetNotEmpty(r.target);
    PartsParsed(b, n, r, m, u, ue, ue + 1, le);
  }

  lemma RequestLineRead(b: Text, r: Request)
    requires ValidRequest(r) && At(b, 0, HeadText(r)) && Headed(b, |HeadText(r)|)
    ensures |RequestLine(r)| + 2 <= |HeadText(r)| <= |b|
    ensures ParseHead(b, |HeadText(r)|) ==
            ReadAs(r, |HeadText(r)|, ReadHeaders(b, |RequestLine(r)| + 2, |HeadText(r)|, []))
  {
    hide *;
    HeadSplit(b, r);
    RequestLineParsed(b, |HeadText(r)|, r);
  }

  lemma AllFieldsRead(b: Text, r: Request)
    requires ValidRequest(r) && At(b, 0, HeadText(r)) && Headed(b, |HeadText(r)|)
    requires |RequestLine(r)| + 2 <= |HeadText(r)|
    ensures ReadHeaders(b, |RequestLine(r)| + 2, |HeadText(r)|, []) == Collected(r.fields, [])
  {
    hide *;
    ValidParts(r);
    HeadSplit(b, r);
    FieldsRead(b, |RequestLine(r)| + 2, r.fields, []);
  }

  /** A printed head, whatever follows it, is read as the parts it was printed from. */
  lemma HeadRead(b: Text, r: Request)
    requires ValidRequest(r) && At(b, 0, HeadText(r))
    ensures RequestLen(b, 0) == |HeadText(r)| <= |b|
    ensures Parse(b) == ReadAs(r, |HeadText(r)|, Collected(r.fields, []))
  {
    hide *;
    HeadLength(b, r);
    RequestLineRead(b, r);
    AllFieldsRead(b, r);
    ParseOfHead(b, |HeadText(r)|);
  }

  lemma ValidParts(r: Request)
    requires ValidRequest(r)
    ensures r.method_ != [] && SLASH !in r.method_ && r.target != [] && r.target[0] != QUESTION_MARK
    ensures GoodVersion(r.version) && ValidFields(r.fields)
  {
  }

  // ----- which heads are accepted

  function HeadersOf(fs: seq<Field>): (hs: seq<Header>)
    ensures |hs| == |fs|
  {
    seq(|fs|, k requires 0 <= k < |fs| => HeaderOf(fs[k]))
  }

  /** No header twice that may come only once. */
  predicate NoRepeats(hs: seq<Header>) {
    forall i, j :: 0 <= i < j < |hs| && AtMostOnce(hs[j].name) ==> !Same(hs[i].name, hs[j].name)
  }

  predicate Fitting(hs: seq<Header>) { |hs| <= MAX_HEADERS && NoRepeats(hs) }

  lemma RepeatFound(hs: seq<Header>, h: Header, more: seq<Header>)
    ensures Repeats(hs, h.name) ==> !NoRepeats(hs + [h] + more)
    ensures NoRepeats(hs) && !Repeats(hs, h.name) ==> NoRepeats(hs + [h])
  {
    hide AtMostOnce, Same;
    var all := hs + [h] + more;
    if Repeats(hs, h.name) {
      var i :| 0 <= i < |hs| && Same(hs[i].name, h.name);
      assert all[i] == hs[i] && all[|hs|] == h;
    }
  }

  /** All fields are kept, in order, exactly when they fit; otherwise none of them counts. */
  lemma {:induction false} CollectedIff(fs: seq<Field>, hs: seq<Header>)
    requires Fitting(hs)
    ensures if Fitting(hs + HeadersOf(fs)) then Collected(fs, hs) == Headers(hs + HeadersOf(fs))
            else !Collected(fs, hs).Headers?
    decreases |fs|
  {
    hide NoRepeats, Repeats;
    CollectedStep(fs, hs);
    if fs == [] {
      assert hs + HeadersOf(fs) == hs;
    } else {
      var h, more := HeaderOf(fs[0]), HeadersOf(fs[1..]);
      assert hs + HeadersOf(fs) == hs + [h] + more;
      RepeatFound(hs, h, more);
      if |hs| < MAX_HEADERS && !Repeats(hs, h.name) {
        CollectedIff(fs[1..], hs + [h]);
      }
    }
  }

  /** A request is accepted exactly when its headers fit and the length it declares, if any, is a number
      that can be added to the length of the head. */
  lemma AcceptedIff(b: Text, r: Request)
    requires ValidRequest(r) && At(b, 0, HeadText(r))
    ensures var hs := HeadersOf(r.fields);
            Parse(b).Parsed? <==> Fitting(hs) && BodyLen(|HeadText(r)|, false, Uri(r.target), hs).Some?
  {
    hide *;
    HeadRead(b, r);
    AllCollected(r.fields);
    ReadAsWhat(r, |HeadText(r)|, Collected(r.fields, []));
  }

  lemma AllCollected(fs: seq<Field>)
    ensures if Fitting(HeadersOf(fs)) then Collected(fs, []) == Headers(HeadersOf(fs)) else !Collected(fs, []).Headers?
  {
    CollectedIff(fs, []);
    assert [] + HeadersOf(fs) == HeadersOf(fs);
  }

  lemma ReadAsWhat(r: Request, n: nat, hs: Headers)
    ensures ReadAs(r, n, hs).Parsed? <==> hs.Headers? && BodyLen(n, false, Uri(r.target), hs.list).Some?
    ensures hs.Headers? && BodyLen(n, false, Uri(r.target), hs.list).Some? ==>
              ReadAs(r, n, hs) ==
              Parsed(Head(n, r.method_, Uri(r.target), Query(r.target), r.version, hs.list,
                          BodyLen(n, false, Uri(r.target), hs.list).value, false))
  {
    hide BodyLen, Uri, Query;
  }

  // ----- the declared length

  /** Decimal digits are read back, or refused when they spell too large a number. */
  lemma {:induction false} DigitsRead(v: Text, i: nat, n: nat)
    requires At(v, i, Decimal(n))
    ensures i + |Decimal(n)| <= |v| && 48 <= v[i] <= 57
    ensures Digits(v, i, 0) == if n <= SIZE_MAX then Digits(v, i + |Decimal(n)|, n) else None
    decreases n
  {
    if n < 10 {
      AtIndex(v, i, Decimal(n), 0);
    } else {
      AtSplit(v, i, Decimal(n / 10), [48 + n % 10]);
      DigitsRead(v, i, n / 10);
      AtIndex(v, i + |Decimal(n / 10)|, [48 + n % 10], 0);
    }
  }

  lemma SizeRead(n: nat)
    ensures ToSize(Decimal(n)) == if n <= SIZE_MAX then Some(n) else None
  {
    var v := Decimal(n);
    AtWhole(v);
    DigitsRead(v, 0, n);
    hide Decimal;
    assert BlankEnd(v, 0) == 0 && BlankEnd(v, |v|) == |v|;
    if n <= SIZE_MAX {
      assert Digits(v, |v|, n) == Some((n, |v|));
    }
  }

  predicate Declares(hs: seq<Header>, n: nat) {
    match GetHeader(hs, Ascii("Content-Length"))
    case None => n == 0
    case Some(v) => v == Decimal(n)
  }

  lemma LengthRead(headLen: nat, uri: Text, hs: seq<Header>, n: nat)
    requires Declares(hs, n) && n < SIZE_MAX && headLen + n <= SIZE_MAX
    ensures BodyLen(headLen, false, uri, hs) == Some(n)
  {
    hide GetHeader, Ascii, ToSize, Decimal;
    SizeRead(n);
  }

  // ----- messages on the wire

  /** A request with a body of declared length, or with a chunked body. */
  datatype Message = Plain(request: Request, body: Text) | Chunked(request: Request, chunks: seq<Text>)

  predicate SaysClose(hs: seq<Header>) {
    var v := GetHeader(hs, Ascii("Connection"));
    v.Some? && Same(v.value, Ascii("close"))
  }

  predicate SaysChunked(hs: seq<Header>) {
    var v := GetHeader(hs, Ascii("Transfer-Encoding"));
    v.Some? && Same(v.value, Ascii("chunked"))
  }

  predicate Sound(r: Request, declared: nat) {
    var hs := HeadersOf(r.fields);
    ValidRequest(r) && Fitting(hs) && Declares(hs, declared) && |HeadText(r)| + declared < SIZE_MAX
  }

  predicate ValidMessage(m: Message) {
    match m
    case Plain(r, body) => Sound(r, |body|) && GetHeader(HeadersOf(r.fields), Ascii("Transfer-Encoding")).None?
    case Chunked(r, chunks) =>
      Sound(r, 0) && SaysChunked(HeadersOf(r.fields)) && HttpChunk.Writable(chunks)
  }

  function Wire(m: Message): Text {
    match m
    case Plain(r, body) => HeadText(r) + body
    case Chunked(r, chunks) => HeadText(r) + HttpChunk.Written(chunks)
  }

  function Meant(m: Message): Http.Delivered {
    match m
    case Plain(r, body) => Http.Delivered(HeadText(r), body)
    case Chunked(r, chunks) => Http.Delivered(HeadText(r), HttpChunk.Join(chunks))
  }

  function RequestOf(m: Message): Http.Request {
    Http.Request(Wire(m), Meant(m), SaysClose(HeadersOf(m.request.fields)))
  }

  function HeadOf(r: Request, declared: nat): Head {
    Head(|HeadText(r)|, r.method_, Uri(r.target), Query(r.target), r.version, HeadersOf(r.fields), declared, false)
  }

  /** What follows the head does not matter; all of it is read as it was written. */
  lemma SoundRead(r: Request, declared: nat, t: Text)
    requires Sound(r, declared)
    ensures Parse(HeadText(r) + t) == Parsed(HeadOf(r, declared))
  {
    AtStart(HeadText(r), t);
    HeadRead(HeadText(r) + t, r);
    AllCollected(r.fields);
    LengthRead(|HeadText(r)|, Uri(r.target), HeadersOf(r.fields), declared);
    hide ValidRequest, HeadText, Collected, BodyLen, HeadersOf, Uri, Query, Declares, Fitting, Parse;
  }

  lemma HeadFlags(r: Request, declared: nat)
    requires Sound(r, declared)
    ensures Http.Closes(HeadOf(r, declared)) == SaysClose(HeadersOf(r.fields))
    ensures Http.Coding(HeadOf(r, declared)) == GetHeader(HeadersOf(r.fields), Ascii("Transfer-Encoding"))
  {
    hide HeadText, HeadersOf, Uri, Query, Declares, Fitting, GetHeader, Ascii, Same, Begins;
    VersionLength(r.version);
  }

  lemma PlainClear(r: Request, body: Text)
    requires ValidMessage(Plain(r, body))
    ensures Http.Clear(RequestOf(Plain(r, body)))
  {
    var b := HeadText(r) + body;
    SoundRead(r, |body|, body);
    HeadFlags(r, |body|);
    hide HeadText, HeadersOf, Uri, Query, Sound, GetHeader, Ascii, Parse, Http.Clear, Http.Coding, Http.Closes;
    Http.LengthRequestClear(b);
    assert b[..|HeadText(r)|] == HeadText(r) && b[|HeadText(r)|..] == body;
  }

  lemma ChunkedHeadThere(r: Request, chunks: seq<Text>)
    requires ValidMessage(Chunked(r, chunks))
    ensures Http.ChunkedHead(HeadText(r))
    ensures Http.ChunkedRequest(HeadText(r), chunks) == RequestOf(Chunked(r, chunks))
  {
    SoundRead(r, 0, []);
    assert HeadText(r) + [] == HeadText(r);
    HeadFlags(r, 0);
    hide HeadText, HeadersOf, Uri, Query, Sound, GetHeader, Ascii, Same, Parse, Http.Coding, Http.Closes, SaysClose;
  }

  /** Every chunked message can be read; it can be cut anywhere exactly when its chunks are short. */
  lemma ChunkedClear(r: Request, chunks: seq<Text>)
    requires ValidMessage(Chunked(r, chunks))
    ensures Http.Readable(RequestOf(Chunked(r, chunks)))
    ensures Http.Clear(RequestOf(Chunked(r, chunks))) <==> Http.ShortChunks(chunks)
  {
    ChunkedHeadThere(r, chunks);
    hide *;
    ChunkedParts(r, chunks);
    Http.ChunkedReadable(HeadText(r), chunks);
    Http.ChunkedClearIff(HeadText(r), chunks);
  }

  lemma ChunkedParts(r: Request, chunks: seq<Text>)
    requires ValidMessage(Chunked(r, chunks))
    ensures HttpChunk.Writable(chunks)
  {
  }

  /** The first `n` bytes of these messages end inside a size line of a chunked one, with three bytes or more
      of it there; just before its LF that counts unless the byte that happens to follow is one. */
  predicate InSizeLine(ms: seq<Message>, n: nat, beyond: Byte) {
    exists j :: 0 <= j < |ms| && MessageCut(ms, j, n, beyond)
  }

  predicate MessageCut(ms: seq<Message>, j: nat, n: nat, beyond: Byte)
    requires j < |ms|
  {
    var start := |Http.Stream(Requests(ms[..j]))|;
    && ms[j].Chunked? && start + |HeadText(ms[j].request)| <= n < start + |Wire(ms[j])|
    && HttpChunk.BodyCutInSizeLine(ms[j].chunks, n - start - |HeadText(ms[j].request)|, beyond)
  }

  function Requests(ms: seq<Message>): (rs: seq<Http.Request>)
    ensures |rs| == |ms|
  {
    seq(|ms|, i requires 0 <= i < |ms| => RequestOf(ms[i]))
  }

  function AllMeant(ms: seq<Message>): seq<Http.Delivered> {
    seq(|ms|, i requires 0 <= i < |ms| => Meant(ms[i]))
  }

  lemma MessageReadable(m: Message)
    requires ValidMessage(m)
    ensures Http.Readable(RequestOf(m))
  {
    hide ValidMessage, RequestOf;
    match m
    case Plain(r, body) => PlainClear(r, body);
    case Chunked(r, chunks) => ChunkedClear(r, chunks);
  }

  /** Only there `skip_chunk` fails. */
  lemma BreaksInSizeLine(ms: seq<Message>, n: nat, beyond: Byte)
    requires (forall i :: 0 <= i < |ms| ==> ValidMessage(ms[i])) && Http.Breaks(Requests(ms), n, beyond)
    ensures InSizeLine(ms, n, beyond)
  {
    hide ValidMessage, Http.BreaksIn, Http.Readable, RequestOf, MessageCut;
    var rs := Requests(ms);
    var j :| 0 <= j < |rs| && Http.BreaksIn(rs, j, n, beyond);
    assert rs[..j] == Requests(ms[..j]);
    BreakInMessage(ms, j, n, beyond);
  }

  lemma BreakInMessage(ms: seq<Message>, j: nat, n: nat, beyond: Byte)
    requires j < |ms| && ValidMessage(ms[j]) && Requests(ms)[..j] == Requests(ms[..j])
    requires Http.BreaksIn(Requests(ms), j, n, beyond)
    ensures MessageCut(ms, j, n, beyond)
  {
    hide ValidMessage, Http.Stream, HeadText, HttpChunk.Written, HttpChunk.BodyCutInSizeLine, Http.Next,
         Http.ChunkedHead;
    var m, start := ms[j], |Http.Stream(Requests(ms[..j]))|;
    match m
    case Plain(r, body) =>
      PlainClear(r, body);
    case Chunked(r, chunks) =>
      ChunkedHeadThere(r, chunks);
      ChunkedValid(r, chunks);
      Http.ChunkedRequestPart(HeadText(r), chunks, n - start, beyond);
  }

  lemma ChunkedValid(r: Request, chunks: seq<Text>)
    requires ValidMessage(Chunked(r, chunks))
    ensures HttpChunk.Writable(chunks)
  {
  }

  /** Any printed messages, sent one after the other, come out of `http_cb` as they were meant: once each, in
      order, whatever READ and POLL events their bytes arrive in and whenever answers are finished. The
      connection drains exactly when a delivered message that says close has been answered at once, and fails
      only when the bytes of some event end inside a size line. */
  lemma MessagesDelivered(handler: Http.Handler, es: seq<Http.Event>, ms: seq<Message>) returns (k: nat)
    requires (forall i :: 0 <= i < |ms| ==> ValidMessage(ms[i])) && Http.Received(es) <= Http.Stream(Requests(ms))
    ensures k <= |ms|
    ensures var c := Http.Run(Http.NEW, handler, es);
            && c.log == AllMeant(ms[..k]) && Http.Stream(Requests(ms[..k])) + c.recv == Http.Received(es)
            && (c.busy || c.draining || k == |ms| || |c.recv| < |Wire(ms[k])|)
            && (c.draining <==> exists i :: 0 <= i < k && SaysClose(HeadersOf(ms[i].request.fields)) && handler(i))
            && (c.failed ==> exists i :: 0 <= i < |es| && InSizeLine(ms, |Http.Received(es[..i + 1])|, es[i].beyond))
  {
    hide ValidMessage, Wire, Meant, Http.Stream, Http.Received, Http.Run, Http.Readable, Http.Breaks, InSizeLine,
         HeadersOf, SaysClose;
    var rs := Requests(ms);
    forall i | 0 <= i < |rs|
      ensures Http.Readable(rs[i])
    {
      MessageReadable(ms[i]);
    }
    k := Http.Pipelined(handler, es, rs);
    assert rs[..k] == Requests(ms[..k]) && Http.Expected(rs[..k]) == AllMeant(ms[..k]);
    assert forall i :: 0 <= i < k ==> rs[i].close == SaysClose(HeadersOf(ms[i].request.fields));
    if Http.Run(Http.NEW, handler, es).failed {
      var i :| 0 <= i < |es| && Http.Breaks(rs, |Http.Received(es[..i + 1])|, es[i].beyond);
      BreaksInSizeLine(ms, |Http.Received(es[..i + 1])|, es[i].beyond);
    }
  }

  // ----- an answer that comes late

  /** `GET / HTTP/1.1` with the only field `Connection: close`. */
  function LastWish(): Message {
    var field := Field(Ascii("Connection"), [SPACE], Ascii("close"), []);
    Plain(Request(Ascii("GET"), [SLASH], Ascii("HTTP/1.1"), [field]), [])
  }

  lemma Plainly(s: string, t: Text)
    requires t == Ascii(s) && forall i :: 0 <= i < |s| ==> '!' <= s[i] <= '~' && s[i] !in {'/', ':', '?'}
    ensures Visible(t) && Printable(t) && SLASH !in t && COLON !in t && QUESTION_MARK !in t
    ensures forall i :: 0 <= i < |t| ==> t[i] == s[i] as int && !IsBlank(t[i])
  {
  }

  lemma LastWishValid()
    ensures ValidMessage(LastWish()) && SaysClose(HeadersOf(LastWish().request.fields))
  {
    var r := LastWish().request;
    LastWishRequest();
    LastWishHeaders();
    hide ValidRequest, Fitting, Declares, GetHeader, SaysClose, Ascii;
    assert |HeadText(r)| < SIZE_MAX;
  }

  lemma LastWishRequest()
    ensures ValidRequest(LastWish().request)
  {
    hide GoodVersion, ValidField, Ascii;
    var r := LastWish().request;
    LastWishField(r.fields[0]);
    LastWishVersion(r.version);
    assert r.method_ == Ascii("GET") && r.target == [SLASH];
    Plainly("GET", r.method_);
  }

  lemma LastWishField(f: Field)
    requires f == Field(Ascii("Connection"), [SPACE], Ascii("close"), [])
    ensures ValidField(f)
  {
    hide Ascii;
    Plainly("Connection", f.name);
    Plainly("close", f.value);
  }

  lemma LastWishVersion(v: Text)
    requires v == Ascii("HTTP/1.1")
    ensures Visible(v) && GoodVersion(v)
  {
    assert v[..5] == Ascii("HTTP/");
  }

  lemma LastWishHeaders()
    ensures var hs := HeadersOf(LastWish().request.fields);
            && Fitting(hs) && Declares(hs, 0) && SaysClose(hs)
            && GetHeader(hs, Ascii("Transfer-Encoding")).None?
  {
    var hs := HeadersOf(LastWish().request.fields);
    assert hs == [Header(Ascii("Connection"), Ascii("close"))] && hs[1..] == [];
  }

  /** Sent twice in one go and answered late, it is delivered twice, although it says close. */
  lemma LateAnswerToClose(handler: Http.Handler, x: Byte)
    requires !handler(0)
    ensures var m := LastWish();
            var c := Http.Run(Http.NEW, handler, [Http.Arrives(Wire(m) + Wire(m), x), Http.Answered(x)]);
            c.log == [Meant(m), Meant(m)] && SaysClose(HeadersOf(m.request.fields))
  {
    LastWishValid();
    MessageReadable(LastWish());
    hide ValidMessage, Http.Readable, Http.Run, SaysClose, LastWish, Wire, Meant;
    var r := RequestOf(LastWish());
    Http.AnsweredLater(handler, r, r, x);
  }
}
