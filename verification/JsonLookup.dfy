/** `json_get` finds what member and index lookup selects. */
module JsonLookup {
  import opened Sequences
  import opened Wrappers
  import opened Json
  import opened JsonDoc
  import opened JsonTokens
  import opened JsonTraversal

  /** The rest of the path, from `pos` to its end, is the text of `segs`. */
  predicate RestOfPath(path: string, pos: nat, segs: seq<Segment>) {
    At(path, pos, PrintSegments(segs)) && pos + |PrintSegments(segs)| == |path|
  }

  /** A value starts that the path reaches with `segs` still to go. */
  predicate OnPath(path: string, st: State, segs: seq<Segment>) {
    st.Ok() && st.mode.ExpectValue? && st.AtDepth() && st.ci == st.ei && ValidPath(segs)
    && RestOfPath(path, st.pos, segs)
  }

  /** The path right after a `.`: the name of a member, then `rest`. */
  predicate AtName(path: string, pos: nat, name: string, rest: seq<Segment>) {
    && At(path, pos, name) && RestOfPath(path, pos + |name|, rest)
    && ValidSegment(Member(name)) && ValidPath(rest)
  }

  lemma PathHead(path: string, pos: nat, segs: seq<Segment>)
    requires RestOfPath(path, pos, segs) && ValidPath(segs)
    ensures PathAt(path, pos) == if segs == [] then '\0' else if segs[0].Member? then '.' else '['
    ensures segs != [] && segs[0].Member? ==> AtName(path, pos + 1, segs[0].name, segs[1..])
    ensures segs != [] && segs[0].Index? ==>
              && At(path, pos + 1, Decimal(segs[0].n) + "]")
              && RestOfPath(path, pos + 1 + |Decimal(segs[0].n)| + 1, segs[1..])
  {
    hide At, Decimal, PrintSegment;
    if segs != [] {
      var rest := PrintSegments(segs[1..]);
      hide PrintSegments;
      AtSplit(path, pos, PrintSegment(segs[0]), rest);
      assert ValidSegment(segs[0]);
      SegmentHead(path, pos, segs[0]);
    }
  }

  lemma SegmentHead(path: string, pos: nat, seg: Segment)
    requires At(path, pos, PrintSegment(seg))
    ensures PathAt(path, pos) == if seg.Member? then '.' else '['
    ensures seg.Member? ==> At(path, pos + 1, seg.name) && |PrintSegment(seg)| == 1 + |seg.name|
    ensures seg.Index? ==> At(path, pos + 1, Decimal(seg.n) + "]") && |PrintSegment(seg)| == 2 + |Decimal(seg.n)|
  {
    hide At, Decimal;
    match seg
    case Member(name) =>
      AtSplit(path, pos, ".", name);
      AtIndex(path, pos, ".", 0);
    case Index(n) =>
      assert PrintSegment(seg) == "[" + (Decimal(n) + "]");
      AtSplit(path, pos, "[", Decimal(n) + "]");
      AtIndex(path, pos, "[", 0);
  }

  lemma NameHead(path: string, pos: nat, name: string, rest: seq<Segment>)
    requires AtName(path, pos, name, rest)
    requires name != ""
    ensures PathAt(path, pos) !in {'\0', '.', '['}
    ensures PathAt(path, pos + |name|) in {'\0', '.', '['}
    ensures PathAt(path, pos + |name| - 1) !in {'\0', '.', '['}
  {
    hide At, RestOfPath;
    AtIndex(path, pos, name, 0);
    AtIndex(path, pos, name, |name| - 1);
    PathHead(path, pos + |name|, rest);
  }

  /** A key of the document is recognized exactly when it is the name the path asks for. */
  lemma KeyDecides(s: string, path: string, st: State, k: nat, key: seq<Unit>, name: string, rest: seq<Segment>)
    requires st.Ok() && st.AtDepth() && PathAt(path, st.pos - 1) == '.' && AtName(path, st.pos, name, rest)
    requires ValidRaw(key) && (PlainKey(key) || rest == []) && At(s, k, PrintRaw(key))
    requires name != ""
    ensures KeyOnPath(s, path, st, k, k + |PrintRaw(key)|) <==> PrintRaw(key) == name
  {
    hide RestOfPath, PrintRaw, At, ValidRaw, PlainKey;
    var raw := PrintRaw(key);
    NameHead(path, st.pos, name, rest);
    SpelledAt(s, k, raw);
    SpelledAt(path, st.pos, name);
    if |raw| > |name| && rest == [] {
      assert |path| == st.pos + |name| by { NothingBehind(path, st.pos + |name|); }
    } else if |raw| > |name| {
      PlainKeyChars(key, |name|);
      LongerDiffers(path, st.pos, raw, |name|);
    } else if |raw| < |name| {
      AtIndex(path, st.pos, name, |raw|);
    }
  }

  lemma NothingBehind(path: string, pos: nat)
    requires RestOfPath(path, pos, [])
    ensures |path| == pos
  {
  }

  lemma LongerDiffers(path: string, pos: nat, raw: string, n: nat)
    requires n < |raw| && PathAt(path, pos + n) != raw[n]
    ensures pos + |raw| <= |path| ==> path[pos..pos + |raw|] != raw
  {
    if pos + |raw| <= |path| {
      assert path[pos..pos + |raw|][n] == path[pos + n];
    }
  }

  lemma SpelledAt(s: string, k: nat, t: string)
    requires At(s, k, t)
    ensures k + |t| <= |s| && s[k..k + |t|] == t
  {
  }

  /** Entering an object or an array that the path goes through. */
  lemma OpenMember(s: string, path: string, i: nat, st: State, name: string, rest: seq<Segment>) returns (st': State)
    requires OnPath(path, st, [Member(name)] + rest) && |st.nesting| < MAX_DEPTH && i < |s| && s[i] == '{'
    ensures st'.Ok() && st'.mode.ExpectKey? && st'.nesting == st.nesting + ['{'] && st'.ed == st.ed + 1
    ensures st'.ci == st'.ei == -1 && PathAt(path, st'.pos - 1) == '.' && AtName(path, st'.pos, name, rest)
    ensures Run(s, path, i, st) == Run(s, path, i + 1, st')
  {
    PathHead(path, st.pos, [Member(name)] + rest);
    assert ([Member(name)] + rest)[1..] == rest;
    st' := State(ExpectKey, st.nesting + ['{'], i, st.ed + 1, st.pos + 1, -1, -1);
    assert Step(s, path, i, st) == Next(i + 1, st');
  }

  lemma OpenIndex(s: string, path: string, i: nat, st: State, n: nat, rest: seq<Segment>) returns (st': State)
    requires OnPath(path, st, [Index(n)] + rest) && |st.nesting| < MAX_DEPTH && i < |s| && s[i] == '['
    ensures st'.Ok() && st'.mode.ExpectValue? && st'.nesting == st.nesting + ['['] && st'.ed == st.ed + 1
    ensures st'.ci == 0 && st'.ei == n && RestOfPath(path, st'.pos, rest) && ValidPath(rest)
    ensures PathAt(path, st'.pos - 1) == ']'
    ensures Run(s, path, i, st) == Run(s, path, i + 1, st')
  {
    hide Run, RestOfPath;
    var close := IndexText(path, st.pos, n, rest);
    st' := State(ExpectValue, st.nesting + ['['], i, st.ed + 1, close + 1, 0, n);
    OpenIndexStep(s, path, i, st, n, close);
  }

  lemma IndexText(path: string, pos: nat, n: nat, rest: seq<Segment>) returns (close: nat)
    requires RestOfPath(path, pos, [Index(n)] + rest) && ValidPath([Index(n)] + rest)
    ensures PathAt(path, pos) == '[' && PathAt(path, close) == ']' && ReadIndex(path, pos + 1, 0) == (n, close)
    ensures RestOfPath(path, close + 1, rest) && ValidPath(rest)
  {
    hide At, RestOfPath, Decimal, ReadIndex;
    var segs := [Index(n)] + rest;
    PathHead(path, pos, segs);
    assert segs[1..] == rest;
    assert forall k :: 0 <= k < |rest| ==> rest[k] == segs[k + 1];
    IndexReadBack(path, pos + 1, n);
    AtSplit(path, pos + 1, Decimal(n), "]");
    close := pos + 1 + |Decimal(n)|;
    AtIndex(path, close, "]", 0);
  }

  lemma OpenIndexStep(s: string, path: string, i: nat, st: State, n: nat, close: nat)
    requires st.Ok() && st.mode.ExpectValue? && st.AtDepth() && st.ci == st.ei
    requires |st.nesting| < MAX_DEPTH && i < |s| && s[i] == '['
    requires PathAt(path, st.pos) == '[' && ReadIndex(path, st.pos + 1, 0) == (n, close) && PathAt(path, close) == ']'
    ensures var st' := State(ExpectValue, st.nesting + ['['], i, st.ed + 1, close + 1, 0, n);
            st'.Ok() && Run(s, path, i, st) == Run(s, path, i + 1, st')
  {
    assert Step(s, path, i, st) == Next(i + 1, State(ExpectValue, st.nesting + ['['], i, st.ed + 1, close + 1, 0, n));
  }

  /** Reading on after a value that was not the answer. */
  function Passed(st: State, i: nat): State {
    Entered(st, i).(mode := ExpectCommaOrEnd, ci := if st.AtDepth() && st.ei >= 0 then st.ci + 1 else st.ci)
  }

  lemma ValuePassed(s: string, path: string, i: nat, st: State, v: Value)
    requires st.Ok() && st.mode.ExpectValue? && Valid(v) && |st.nesting| + Height(v) <= MAX_DEPTH
    requires st.AtDepth() && !Opens(path, st, v) && (st.ci != st.ei || PathAt(path, st.pos) != '\0')
    requires At(s, i, Print(v)) && Ends(s, i + |Print(v)|)
    ensures Run(s, path, i, st) == Run(s, path, i + |Print(v)|, Passed(st, i))
  {
    hide Run, At;
    ValueTraversed(s, path, i, st, v);
  }

  lemma ItemsSplit(s: string, i: nat, items: Items)
    requires items.Items? && ValidItems(items)
    requires At(s, i, PrintItems(items)) && At(s, i + |PrintItems(items)|, "]")
    ensures At(s, i, items.before)
    ensures var v := i + |items.before|;
            var e := v + |Print(items.value)|;
            var k := e + |items.after|;
            && At(s, v, Print(items.value)) && Ends(s, e) && At(s, e, items.after)
            && (items.rest.Items? ==>
                  && k < |s| && s[k] == ',' && At(s, k + 1, PrintItems(items.rest))
                  && k + 1 + |PrintItems(items.rest)| == i + |PrintItems(items)|)
            && (items.rest.NoItems? ==> k == i + |PrintItems(items)| && At(s, k, "]"))
  {
    hide *;
    ItemParts(items);
    PrintedItems(items);
    var more := MoreItems(items.rest);
    AtSplit(s, i, items.before, Print(items.value) + (items.after + more));
    AtSplit(s, i + |items.before|, Print(items.value), items.after + more);
    ItemAfter(s, i + |items.before| + |Print(items.value)|, items);
  }

  lemma MembersSplit(s: string, i: nat, ms: Members)
    requires ms.Members? && ValidMembers(ms)
    requires At(s, i, PrintMembers(ms)) && At(s, i + |PrintMembers(ms)|, "}")
    ensures At(s, i, HeadText(ms))
    ensures var v := i + |HeadText(ms)|;
            var e := v + |Print(ms.value)|;
            var k := e + |ms.after|;
            && At(s, v, Print(ms.value)) && Ends(s, e) && At(s, e, ms.after)
            && (ms.rest.Members? ==>
                  && k < |s| && s[k] == ',' && At(s, k + 1, PrintMembers(ms.rest))
                  && k + 1 + |PrintMembers(ms.rest)| == i + |PrintMembers(ms)|)
            && (ms.rest.NoMembers? ==> k == i + |PrintMembers(ms)| && At(s, k, "}"))
  {
    hide *;
    MemberParts(ms);
    PrintedMembers(ms);
    var more := MoreMembers(ms.rest);
    AtSplit(s, i, HeadText(ms), Print(ms.value) + (ms.after + more));
    AtSplit(s, i + |HeadText(ms)|, Print(ms.value), ms.after + more);
    MemberAfter(s, i + |HeadText(ms)| + |Print(ms.value)|, ms);
  }

  /** An object with members, in the text. */
  lemma ObjectText(s: string, i: nat, v: Value)
    requires v.Object? && v.members.Members? && Valid(v) && At(s, i, Print(v))
    ensures i < |s| && s[i] == '{'
    ensures At(s, i + 1, PrintMembers(v.members)) && At(s, i + 1 + |PrintMembers(v.members)|, "}")
    ensures ValidMembers(v.members) && Height(v) == 1 + HeightMembers(v.members)
  {
    hide At, Body, Print, PrintMembers, ValidMembers, HeightMembers;
    BodySplit(s, i, v);
    Printed(v);
  }

  /** An array with items, in the text. */
  lemma ArrayText(s: string, i: nat, v: Value)
    requires v.Array? && v.items.Items? && Valid(v) && At(s, i, Print(v))
    ensures i < |s| && s[i] == '['
    ensures At(s, i + 1, PrintItems(v.items)) && At(s, i + 1 + |PrintItems(v.items)|, "]")
    ensures ValidItems(v.items) && Height(v) == 1 + HeightItems(v.items)
  {
    hide At, Body, Print, PrintItems, ValidItems, HeightItems;
    BodySplit(s, i, v);
    Printed(v);
  }

  lemma NamedTail(seg: Segment, rest: seq<Segment>)
    requires AllNamed([seg] + rest)
    ensures AllNamed(rest) && (seg.Member? ==> seg.name != "")
  {
    var segs := [seg] + rest;
    assert segs[0] == seg;
    assert forall k :: 0 <= k < |rest| ==> rest[k] == segs[k + 1];
  }

  lemma MemberTail(seg: Segment, rest: seq<Segment>)
    requires MemberOnlyLast([seg] + rest)
    ensures MemberOnlyLast(rest) && (seg.Member? ==> rest == [])
  {
    var segs := [seg] + rest;
    assert segs[0] == seg;
    assert forall k :: 0 <= k < |rest| ==> rest[k] == segs[k + 1];
  }

  lemma TellableInside(v: Value, seg: Segment, rest: seq<Segment>)
    requires Tellable(v, [seg] + rest)
    ensures v.Object? && seg.Member? ==> PlainMembers(v.members) || rest == []
    ensures v.Array? && seg.Index? ==> PlainItems(v.items) || MemberOnlyLast(rest)
  {
    if MemberOnlyLast([seg] + rest) {
      MemberTail(seg, rest);
    }
  }

  lemma NothingElse(segs: seq<Segment>)
    ensures |segs| <= 1 ==> MemberOnlyLast(segs)
  {
  }

  /** Found, with the offset and the length of the selected value. */
  lemma {:induction false} ValueFound(s: string, path: string, i: nat, st: State, v: Value, segs: seq<Segment>)
    requires OnPath(path, st, segs) && Valid(v) && |st.nesting| + Height(v) <= MAX_DEPTH
    requires Select(v, segs).Some? && At(s, i, Print(v)) && Ends(s, i + |Print(v)|)
    requires AllNamed(segs) && Tellable(v, segs)
    ensures Run(s, path, i, st) == Found(i + Offset(v, segs), |Print(Select(v, segs).value)|)
    decreases |segs|, 1
  {
    hide Run, At, Print, Body, RestOfPath, AtName;
    PathHead(path, st.pos, segs);
    if segs == [] {
      ValueTraversed(s, path, i, st, v);
    } else if segs[0].Member? {
      assert segs == [segs[0]] + segs[1..];
      FoundInObject(s, path, i, st, v, segs[0].name, segs[1..]);
    } else {
      assert segs == [segs[0]] + segs[1..];
      FoundInArray(s, path, i, st, v, segs[0].n, segs[1..]);
    }
  }

  lemma SelectHead(v: Value, seg: Segment, rest: seq<Segment>)
    requires Select(v, [seg] + rest).Some?
    ensures Child(v, seg).Some? && Select(Child(v, seg).value, rest) == Select(v, [seg] + rest)
    ensures Offset(v, [seg] + rest) == ChildOffset(v, seg) + Offset(Child(v, seg).value, rest)
  {
    assert ([seg] + rest)[1..] == rest;
  }

  lemma {:induction false} FoundInObject(s: string, path: string, i: nat, st: State, v: Value, name: string,
                                         rest: seq<Segment>)
    requires OnPath(path, st, [Member(name)] + rest) && Valid(v) && |st.nesting| + Height(v) <= MAX_DEPTH
    requires Select(v, [Member(name)] + rest).Some? && At(s, i, Print(v))
    requires AllNamed([Member(name)] + rest) && Tellable(v, [Member(name)] + rest)
    ensures var segs := [Member(name)] + rest;
            Run(s, path, i, st) == Found(i + Offset(v, segs), |Print(Select(v, segs).value)|)
    decreases |rest| + 1, 0
  {
    hide Run, At, Print, PrintMembers, RestOfPath, AtName, Select, Offset, Valid, Height, ValidMembers, HeightMembers;
    hide PlainMembers, MemberOnlyLast, Tellable;
    SelectHead(v, Member(name), rest);
    NamedTail(Member(name), rest);
    TellableInside(v, Member(name), rest);
    ObjectText(s, i, v);
    var st' := OpenMember(s, path, i, st, name, rest);
    MemberFound(s, path, i + 1, st', v.members, name, rest);
  }

  lemma {:induction false} FoundInArray(s: string, path: string, i: nat, st: State, v: Value, n: nat,
                                        rest: seq<Segment>)
    requires OnPath(path, st, [Index(n)] + rest) && Valid(v) && |st.nesting| + Height(v) <= MAX_DEPTH
    requires Select(v, [Index(n)] + rest).Some? && At(s, i, Print(v))
    requires AllNamed([Index(n)] + rest) && Tellable(v, [Index(n)] + rest)
    ensures var segs := [Index(n)] + rest;
            Run(s, path, i, st) == Found(i + Offset(v, segs), |Print(Select(v, segs).value)|)
    decreases |rest| + 1, 0
  {
    hide Run, At, Print, PrintItems, RestOfPath, Select, Offset, Valid, Height, ValidItems, HeightItems;
    hide PlainItems, MemberOnlyLast, Tellable;
    SelectHead(v, Index(n), rest);
    NamedTail(Index(n), rest);
    TellableInside(v, Index(n), rest);
    ArrayText(s, i, v);
    var st' := OpenIndex(s, path, i, st, n, rest);
    ItemFound(s, path, i + 1, st', v.items, n, rest);
  }

  lemma {:induction false} MemberFound(s: string, path: string, i: nat, st: State, ms: Members, name: string,
                                       rest: seq<Segment>)
    requires st.Ok() && st.mode.ExpectKey? && st.AtDepth() && st.ci == st.ei == -1
    requires st.nesting[|st.nesting| - 1] == '{'
    requires PathAt(path, st.pos - 1) == '.' && AtName(path, st.pos, name, rest)
    requires ValidMembers(ms) && |st.nesting| + HeightMembers(ms) <= MAX_DEPTH
    requires FindMember(ms, name).Some? && Select(FindMember(ms, name).value, rest).Some?
    requires At(s, i, PrintMembers(ms)) && At(s, i + |PrintMembers(ms)|, "}")
    requires name != "" && AllNamed(rest) && (PlainMembers(ms) || rest == [])
    ensures var u := FindMember(ms, name).value;
            Run(s, path, i, st) == Found(i + MemberOffset(ms, name) + Offset(u, rest), |Print(Select(u, rest).value)|)
    decreases |rest|, 2, ms
  {
    hide Run, At, Print, PrintMembers, HeadText, ValidMembers, HeightMembers, FindMember, MemberOffset, Offset, Select,
         AtName;
    hide Valid, Height, PrintRaw, ValidPath, RestOfPath, MoreMembers, PathAt, PlainKeys, PlainKey, MemberOnlyLast;
    MemberFacts(ms, name);
    NothingElse(rest);
    NameThenRest(path, st.pos, name, rest);
    var st' := NextMember(s, path, i, st, ms, name, rest);
    MembersSplit(s, i, ms);
    var v := i + |HeadText(ms)|;
    if PrintRaw(ms.key) == name {
      ValueFound(s, path, v, st', ms.value, rest);
    } else {
      NameHead(path, st.pos, name, rest);
      var st2 := MemberPassed(s, path, v, st', ms);
      MemberFound(s, path, v + |Print(ms.value)| + |ms.after| + 1, st2, ms.rest, name, rest);
    }
  }

  lemma NameThenRest(path: string, pos: nat, name: string, rest: seq<Segment>)
    requires AtName(path, pos, name, rest)
    ensures ValidPath(rest)
  {
  }

  lemma MemberFacts(ms: Members, name: string)
    requires ValidMembers(ms) && FindMember(ms, name).Some?
    ensures ms.Members? && Valid(ms.value) && ValidMembers(ms.rest)
    ensures Height(ms.value) <= HeightMembers(ms) && HeightMembers(ms.rest) <= HeightMembers(ms)
    ensures if PrintRaw(ms.key) == name
            then FindMember(ms, name) == Some(ms.value) && MemberOffset(ms, name) == |HeadText(ms)|
            else
              && ms.rest.Members? && FindMember(ms, name) == FindMember(ms.rest, name)
              && FindMember(ms.rest, name).Some?
              && MemberOffset(ms, name) ==
                 |HeadText(ms)| + |Print(ms.value)| + |ms.after| + 1 + MemberOffset(ms.rest, name)
  {
    hide HeadText, Print, Valid, Height;
  }

  /** The value of a member that is not the wanted one, up to the next key. */
  lemma MemberPassed(s: string, path: string, v: nat, st: State, ms: Members) returns (st2: State)
    requires st.Ok() && st.mode.ExpectValue? && st.AtDepth() && st.ci == st.ei == -1
    requires |st.nesting| > 0 && st.nesting[|st.nesting| - 1] == '{' && PathAt(path, st.pos) !in {'\0', '.', '['}
    requires ms.Members? && ms.rest.Members? && ValidMembers(ms) && |st.nesting| + HeightMembers(ms) <= MAX_DEPTH
    requires var e := v + |Print(ms.value)|;
             && At(s, v, Print(ms.value)) && Ends(s, e) && At(s, e, ms.after)
             && e + |ms.after| < |s| && s[e + |ms.after|] == ','
    ensures st2 == st.(mode := ExpectKey, j := st2.j) && st2.Ok()
    ensures Run(s, path, v, st) == Run(s, path, v + |Print(ms.value)| + |ms.after| + 1, st2)
  {
    hide Run, At, Print, Ends;
    var e := v + |Print(ms.value)|;
    ValuePassed(s, path, v, st, ms.value);
    var passed := Passed(st, v);
    BlankSkipped(s, path, e, passed, ms.after);
    CommaStep(s, path, e + |ms.after|, passed);
    st2 := passed.(mode := ExpectKey);
  }

  /** The state at the value of a member: on the path when the key is the wanted name. */
  lemma NextMember(s: string, path: string, i: nat, st: State, ms: Members, name: string, rest: seq<Segment>)
    returns (st': State)
    requires st.Ok() && st.mode.ExpectKey? && st.AtDepth()
    requires PathAt(path, st.pos - 1) == '.' && AtName(path, st.pos, name, rest)
    requires ms.Members? && ValidMembers(ms) && At(s, i, PrintMembers(ms)) && (PlainMembers(ms) || rest == [])
    requires name != ""
    ensures st'.Ok() && st' == st.(mode := ExpectValue, pos := st'.pos)
    ensures st'.pos == if PrintRaw(ms.key) == name then st.pos + |name| else st.pos
    ensures PrintRaw(ms.key) == name ==>
              RestOfPath(path, st'.pos, rest) && PathAt(path, st'.pos - 1) !in {'\0', '.', '['}
    ensures i + |HeadText(ms)| <= |s|
    ensures Run(s, path, i, st) == Run(s, path, i + |HeadText(ms)|, st')
  {
    hide Run, At, Print, PrintMembers, HeadText, RestOfPath, KeyOnPath, PlainKey, PlainKeys;
    PrintedMembers(ms);
    AtSplit(s, i, HeadText(ms), Print(ms.value) + (ms.after + MoreMembers(ms.rest)));
    HeadTraversed(s, path, i, st, ms);
    var k := i + |ms.before| + 1;
    AtSplit(s, k - 1, "\"", PrintRaw(ms.key) + "\"");
    AtSplit(s, k, PrintRaw(ms.key), "\"");
    KeyDecides(s, path, st, k, ms.key, name, rest);
    NameHead(path, st.pos, name, rest);
    st' := Named(s, path, st, k, k + |PrintRaw(ms.key)|).(mode := ExpectValue);
  }

  lemma {:induction false} ItemFound(s: string, path: string, i: nat, st: State, items: Items, n: nat,
                                     rest: seq<Segment>)
    requires st.Ok() && st.mode.ExpectValue? && st.AtDepth() && st.ci >= 0 && st.ei == st.ci + n
    requires |st.nesting| > 0 && st.nesting[|st.nesting| - 1] == '['
    requires RestOfPath(path, st.pos, rest) && ValidPath(rest)
    requires ValidItems(items) && |st.nesting| + HeightItems(items) <= MAX_DEPTH
    requires FindItem(items, n).Some? && Select(FindItem(items, n).value, rest).Some?
    requires At(s, i, PrintItems(items)) && At(s, i + |PrintItems(items)|, "]")
    requires AllNamed(rest) && (PlainItems(items) || MemberOnlyLast(rest))
    ensures var u := FindItem(items, n).value;
            Run(s, path, i, st) == Found(i + ItemOffset(items, n) + Offset(u, rest), |Print(Select(u, rest).value)|)
    decreases |rest|, 2, items
  {
    hide Run, At, Print, PrintItems, PlainKeys, MemberOnlyLast;
    ItemsSplit(s, i, items);
    BlankSkipped(s, path, i, st, items.before);
    var v := i + |items.before|;
    if n == 0 {
      ValueFound(s, path, v, st, items.value, rest);
    } else {
      var e := v + |Print(items.value)|;
      var k := e + |items.after|;
      ValuePassed(s, path, v, st, items.value);
      var st' := Passed(st, v);
      BlankSkipped(s, path, e, st', items.after);
      CommaStep(s, path, k, st');
      ItemFound(s, path, k + 1, st'.(mode := ExpectValue), items.rest, n - 1, rest);
    }
  }
}
