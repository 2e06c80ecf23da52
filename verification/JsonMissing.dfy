/** What `json_get` answers when lookup fails, for paths whose only index is the last segment. */
module JsonMissing {
  import opened Sequences
  import opened Json
  import opened JsonDoc
  import opened JsonTokens
  import opened JsonTraversal
  import opened JsonLookup

  /** The path can no longer be followed in the objects that are still open. */
  predicate Spent(path: string, st: State) {
    st.Ok() && st.mode.ExpectCommaOrEnd? && |st.nesting| <= st.ed
    && (st.AtDepth() ==> PathAt(path, st.pos - 1) != '.')
  }

  predicate InObject(st: State) {
    |st.nesting| > 0 && st.nesting[|st.nesting| - 1] == '{'
  }

  lemma SpentComma(s: string, path: string, i: nat, st: State, ms: Members)
    requires Spent(path, st) && InObject(st) && i < |s| && s[i] == ','
    requires ms.Members? && ValidMembers(ms) && At(s, i + 1, PrintMembers(ms))
    ensures Run(s, path, i, st) == NotFound
  {
    hide Run, At, PrintMembers, HeadText;
    var st' := st.(mode := ExpectKey);
    CommaStep(s, path, i, st);
    KeyPlace(s, i + 1, ms);
    BlankSkipped(s, path, i + 1, st', ms.before);
    KeyRefused(s, path, i + 1 + |ms.before|, st', ms.key);
  }

  lemma KeyPlace(s: string, i: nat, ms: Members)
    requires ms.Members? && At(s, i, PrintMembers(ms))
    ensures At(s, i, ms.before) && At(s, i + |ms.before|, Quoted(ms.key))
  {
    hide At, Quoted, Print;
    AtSplit(s, i, HeadText(ms), Print(ms.value) + (ms.after + MoreMembers(ms.rest)));
    AtSplit(s, i, ms.before, Quoted(ms.key) + (ms.beforeColon + (":" + ms.afterColon)));
    AtSplit(s, i + |ms.before|, Quoted(ms.key), ms.beforeColon + (":" + ms.afterColon));
  }

  lemma KeyRefused(s: string, path: string, i: nat, st: State, key: seq<Unit>)
    requires st.Ok() && st.mode.ExpectKey? && ValidRaw(key) && At(s, i, Quoted(key))
    requires |st.nesting| <= st.ed && (st.AtDepth() ==> PathAt(path, st.pos - 1) != '.')
    ensures Run(s, path, i, st) == NotFound
  {
    AtSplit(s, i, "\"", PrintRaw(key) + "\"");
    AtIndex(s, i, "\"", 0);
    StringConsumed(s, i + 1, key);
    assert Step(s, path, i, st) == Return(NotFound);
  }

  /** Leaving a container whose path segment is not matched: refused, or spent one level up. */
  lemma SpentClose(s: string, path: string, i: nat, st: State) returns (st': State)
    requires Spent(path, st) && InObject(st) && i < |s| && s[i] == '}'
    ensures Spent(path, st') && st'.nesting == st.nesting[..|st.nesting| - 1]
    ensures Run(s, path, i, st) == NotFound || Run(s, path, i, st) == Run(s, path, i + 1, st')
  {
    st' := st.(nesting := st.nesting[..|st.nesting| - 1]);
    assert Step(s, path, i, st) in {Return(NotFound), Next(i + 1, st')};
  }

  /** Reading a value in which lookup fails. */
  lemma {:induction false} ValueMissing(s: string, path: string, i: nat, st: State, v: Value, segs: seq<Segment>)
    returns (st': State)
    requires OnPath(path, st, segs) && st.ei == -1 && PathAt(path, st.pos - 1) != '.' && IndexOnlyLast(segs)
    requires Valid(v) && |st.nesting| + Height(v) <= MAX_DEPTH && Select(v, segs).None?
    requires At(s, i, Print(v)) && Ends(s, i + |Print(v)|)
    requires AllNamed(segs) && Tellable(v, segs)
    ensures Spent(path, st') && st'.nesting == st.nesting
    ensures Run(s, path, i, st) == NotFound || Run(s, path, i, st) == Run(s, path, i + |Print(v)|, st')
    decreases |segs|, 1
  {
    hide Run, At, Print, Body, RestOfPath, AtName;
    PathHead(path, st.pos, segs);
    if !Opens(path, st, v) {
      ValuePassed(s, path, i, st, v);
      st' := Passed(st, i);
    } else if segs[0].Member? {
      assert segs == [segs[0]] + segs[1..];
      st' := MissingInObject(s, path, i, st, v, segs[0].name, segs[1..]);
    } else {
      assert |segs| == 1;
      assert segs == [segs[0]] + [];
      st' := MissingInArray(s, path, i, st, v, segs[0].n);
    }
  }

  lemma EmptyClose(s: string, path: string, i: nat, st: State, c: char) returns (st': State)
    requires st.Ok() && |st.nesting| > 0 && st.AtDepth() && i < |s| && s[i] == c
    requires c as int == st.nesting[|st.nesting| - 1] as int + 2
    requires (st.mode.ExpectKey? && c == '}') || (st.mode.ExpectValue? && c == ']')
    ensures Spent(path, st')
    ensures st' == st.(nesting := st.nesting[..|st.nesting| - 1], mode := ExpectCommaOrEnd, j := st'.j)
    ensures Run(s, path, i, st) == if st.ci == st.ei then Run(s, path, i + 1, st') else NotFound
  {
    var j := if st.mode.ExpectValue? then i else st.j;
    st' := st.(nesting := st.nesting[..|st.nesting| - 1], mode := ExpectCommaOrEnd, j := j);
    assert Step(s, path, i, st) == if st.ci == st.ei then Next(i + 1, st') else Return(NotFound);
  }

  lemma EmptyBody(s: string, path: string, i: nat, st: State, v: Value) returns (st': State)
    requires st.Ok() && |st.nesting| > 0 && st.AtDepth() && Valid(v)
    requires if v.Object? then v.members.NoMembers? && st.mode.ExpectKey? && st.nesting[|st.nesting| - 1] == '{'
             else v.Array? && v.items.NoItems? && st.mode.ExpectValue? && st.nesting[|st.nesting| - 1] == '['
    requires At(s, i, Body(v)) && At(s, i + |Body(v)|, if v.Array? then "]" else "}")
    ensures Spent(path, st')
    ensures st' == st.(nesting := st.nesting[..|st.nesting| - 1], mode := ExpectCommaOrEnd, j := st'.j)
    ensures Run(s, path, i, st) == if st.ci == st.ei then Run(s, path, i + |Body(v)| + 1, st') else NotFound
  {
    hide Run, At;
    BlankSkipped(s, path, i, st, v.inner);
    AtIndex(s, i + |Body(v)|, if v.Array? then "]" else "}", 0);
    st' := EmptyClose(s, path, i + |Body(v)|, st, if v.Array? then ']' else '}');
  }

  lemma {:induction false} MissingInObject(s: string, path: string, i: nat, st: State, v: Value, name: string,
                                           rest: seq<Segment>) returns (st': State)
    requires OnPath(path, st, [Member(name)] + rest) && IndexOnlyLast([Member(name)] + rest)
    requires v.Object? && Valid(v) && |st.nesting| + Height(v) <= MAX_DEPTH
    requires Select(v, [Member(name)] + rest).None? && At(s, i, Print(v))
    requires AllNamed([Member(name)] + rest) && Tellable(v, [Member(name)] + rest)
    ensures Spent(path, st') && st'.nesting == st.nesting
    ensures Run(s, path, i, st) == NotFound || Run(s, path, i, st) == Run(s, path, i + |Print(v)|, st')
    decreases |rest| + 1, 0
  {
    hide *;
    TellableInside(v, Member(name), rest);
    HeightInside(v);
    var st1 := ObjectEntered(s, path, i, st, v, name, rest);
    NamedTail(Member(name), rest);
    InObjectIs(st1);
    if v.members.NoMembers? {
      st' := EmptyBody(s, path, i + 1, st1, v);
    } else {
      st' := MemberMissing(s, path, i + 1, st1, v.members, name, rest);
    }
  }

  lemma InObjectIs(st: State)
    requires InObject(st)
    ensures |st.nesting| > 0 && st.nesting[|st.nesting| - 1] == '{'
  {
  }

  lemma ObjectEntered(s: string, path: string, i: nat, st: State, v: Value, name: string, rest: seq<Segment>)
    returns (st1: State)
    requires OnPath(path, st, [Member(name)] + rest) && IndexOnlyLast([Member(name)] + rest)
    requires v.Object? && Valid(v) && |st.nesting| + Height(v) <= MAX_DEPTH
    requires Select(v, [Member(name)] + rest).None? && At(s, i, Print(v))
    ensures IndexOnlyLast(rest)
    ensures FindMember(v.members, name).Some? ==> Select(FindMember(v.members, name).value, rest).None?
    ensures At(s, i + 1, Body(v)) && At(s, i + 1 + |Body(v)|, "}") && |Print(v)| == |Body(v)| + 2
    ensures Body(v) == if v.members.NoMembers? then v.inner else PrintMembers(v.members)
    ensures st1.Ok() && st1.mode.ExpectKey? && st1.AtDepth() && st1.ci == st1.ei == -1 && InObject(st1)
    ensures st1.nesting[..|st1.nesting| - 1] == st.nesting && |st1.nesting| == |st.nesting| + 1 && i + 1 <= |s|
    ensures PathAt(path, st1.pos - 1) == '.' && AtName(path, st1.pos, name, rest)
    ensures Run(s, path, i, st) == Run(s, path, i + 1, st1)
  {
    SelectTail(v, Member(name), rest);
    IndexOnlyLastTail(Member(name), rest);
    hide Run, At, Print, Body, RestOfPath, AtName, IndexOnlyLast, Select;
    BodySplit(s, i, v);
    Printed(v);
    st1 := OpenMember(s, path, i, st, name, rest);
  }

  lemma SelectTail(v: Value, seg: Segment, rest: seq<Segment>)
    ensures Child(v, seg).Some? ==> Select(v, [seg] + rest) == Select(Child(v, seg).value, rest)
    ensures Child(v, seg).Some? && rest == [] ==> Select(v, [seg] + rest).Some?
  {
    assert ([seg] + rest)[1..] == rest;
  }

  lemma IndexOnlyLastTail(seg: Segment, rest: seq<Segment>)
    requires IndexOnlyLast([seg] + rest)
    ensures IndexOnlyLast(rest) && (seg.Index? ==> rest == [])
  {
    var segs := [seg] + rest;
    assert segs[0] == seg;
    assert forall k :: 0 <= k < |rest| ==> rest[k] == segs[k + 1];
  }

  lemma {:induction false} MemberMissing(s: string, path: string, i: nat, st: State, ms: Members, name: string,
                                         rest: seq<Segment>) returns (st': State)
    requires st.Ok() && st.mode.ExpectKey? && st.AtDepth() && st.ci == st.ei == -1 && InObject(st)
    requires PathAt(path, st.pos - 1) == '.' && AtName(path, st.pos, name, rest) && IndexOnlyLast(rest)
    requires ms.Members? && ValidMembers(ms) && |st.nesting| + HeightMembers(ms) <= MAX_DEPTH
    requires FindMember(ms, name).Some? ==> Select(FindMember(ms, name).value, rest).None?
    requires At(s, i, PrintMembers(ms)) && At(s, i + |PrintMembers(ms)|, "}")
    requires name != "" && AllNamed(rest) && (PlainMembers(ms) || rest == [])
    ensures Spent(path, st') && st'.nesting == st.nesting[..|st.nesting| - 1]
    ensures Run(s, path, i, st) == NotFound || Run(s, path, i, st) == Run(s, path, i + |PrintMembers(ms)| + 1, st')
    decreases |rest|, 2, ms
  {
    hide Run, At, Print, PrintMembers, HeadText, RestOfPath, Select, PlainKeys, PlainKey, MemberOnlyLast;
    NothingElse(rest);
    var st1 := NextMember(s, path, i, st, ms, name, rest);
    MembersSplit(s, i, ms);
    var v := i + |HeadText(ms)|;
    var e := v + |Print(ms.value)|;
    var k := e + |ms.after|;
    st' := st.(mode := ExpectCommaOrEnd, nesting := st.nesting[..|st.nesting| - 1]);
    if PrintRaw(ms.key) == name {
      var st2 := ValueMissing(s, path, v, st1, ms.value, rest);
      BlankSkipped(s, path, e, st2, ms.after);
      if ms.rest.Members? {
        SpentComma(s, path, k, st2, ms.rest);
      } else {
        AtIndex(s, k, "}", 0);
        st' := SpentClose(s, path, k, st2);
      }
    } else {
      NameHead(path, st.pos, name, rest);
      ValuePassed(s, path, v, st1, ms.value);
      var st2 := Passed(st1, v);
      BlankSkipped(s, path, e, st2, ms.after);
      if ms.rest.Members? {
        CommaStep(s, path, k, st2);
        st' := MemberMissing(s, path, k + 1, st2.(mode := ExpectKey), ms.rest, name, rest);
      } else {
        AtIndex(s, k, "}", 0);
        NameNotFound(s, path, k, st2);
      }
    }
  }

  lemma NameNotFound(s: string, path: string, i: nat, st: State)
    requires st.Ok() && st.mode.ExpectCommaOrEnd? && st.AtDepth() && |st.nesting| > 0 && i < |s| && s[i] == '}'
    requires PathAt(path, st.pos - 1) == '.'
    ensures Run(s, path, i, st) == NotFound
  {
    assert Step(s, path, i, st) == Return(NotFound);
  }

  lemma {:induction false} MissingInArray(s: string, path: string, i: nat, st: State, v: Value, n: nat)
    returns (st': State)
    requires OnPath(path, st, [Index(n)] + []) && v.Array? && Valid(v) && |st.nesting| + Height(v) <= MAX_DEPTH
    requires Select(v, [Index(n)] + []).None? && At(s, i, Print(v))
    ensures Spent(path, st') && st'.nesting == st.nesting
    ensures Run(s, path, i, st) == NotFound || Run(s, path, i, st) == Run(s, path, i + |Print(v)|, st')
  {
    hide Run, At, Print, Body, RestOfPath, Select, OnPath;
    var st1 := ArrayEntered(s, path, i, st, v, n, []);
    if v.items.NoItems? {
      st' := EmptyBody(s, path, i + 1, st1, v);
    } else {
      assert FindItem(v.items, n).None? by { SelectTail(v, Index(n), []); }
      st' := ItemMissing(s, path, i + 1, st1, v.items, n);
    }
  }

  lemma ArrayEntered(s: string, path: string, i: nat, st: State, v: Value, n: nat, rest: seq<Segment>)
    returns (st1: State)
    requires OnPath(path, st, [Index(n)] + rest) && v.Array? && |st.nesting| < MAX_DEPTH && At(s, i, Print(v))
    ensures At(s, i + 1, Body(v)) && At(s, i + 1 + |Body(v)|, "]") && |Print(v)| == |Body(v)| + 2
    ensures Body(v) == if v.items.NoItems? then v.inner else PrintItems(v.items)
    ensures st1.Ok() && st1.mode.ExpectValue? && st1.AtDepth() && st1.ci == 0 && st1.ei == n
    ensures st1.nesting == st.nesting + ['['] && st1.nesting[..|st1.nesting| - 1] == st.nesting && i + 1 <= |s|
    ensures PathAt(path, st1.pos - 1) == ']' && RestOfPath(path, st1.pos, rest) && ValidPath(rest)
    ensures st1.ed == st.ed + 1
    ensures Run(s, path, i, st) == Run(s, path, i + 1, st1)
  {
    hide Run, At, Print, Body, RestOfPath;
    BodySplit(s, i, v);
    Printed(v);
    st1 := OpenIndex(s, path, i, st, n, rest);
  }

  /** At the closing bracket the index is beyond the last item: refused, unless it equals the length. */
  lemma ArrayClose(s: string, path: string, i: nat, st: State) returns (st': State)
    requires st.Ok() && st.mode.ExpectCommaOrEnd? && st.AtDepth() && i < |s| && s[i] == ']'
    requires |st.nesting| > 0 && st.nesting[|st.nesting| - 1] == '[' && PathAt(path, st.pos - 1) == ']'
    ensures Spent(path, st')
    ensures st' == st.(nesting := st.nesting[..|st.nesting| - 1])
    ensures Run(s, path, i, st) == if st.ci == st.ei then Run(s, path, i + 1, st') else NotFound
  {
    st' := st.(nesting := st.nesting[..|st.nesting| - 1]);
    assert Step(s, path, i, st) == if st.ci == st.ei then Next(i + 1, st') else Return(NotFound);
  }

  function Count(items: Items): nat {
    if items.NoItems? then 0 else 1 + Count(items.rest)
  }

  /** An index beyond the last item is refused at the closing bracket, unless it equals the length. */
  lemma {:induction false} ItemMissing(s: string, path: string, i: nat, st: State, items: Items, n: nat)
    returns (st': State)
    requires st.Ok() && st.mode.ExpectValue? && st.AtDepth() && st.ci >= 0 && st.ei == st.ci + n
    requires |st.nesting| > 0 && st.nesting[|st.nesting| - 1] == '[' && PathAt(path, st.pos - 1) == ']'
    requires items.Items? && ValidItems(items) && |st.nesting| + HeightItems(items) <= MAX_DEPTH
    requires FindItem(items, n).None?
    requires At(s, i, PrintItems(items)) && At(s, i + |PrintItems(items)|, "]")
    ensures Spent(path, st') && st'.ci == st.ci + Count(items)
    ensures st' == st.(nesting := st.nesting[..|st.nesting| - 1], mode := ExpectCommaOrEnd, ci := st'.ci, j := st'.j)
    ensures Run(s, path, i, st) ==
            if Count(items) == n then Run(s, path, i + |PrintItems(items)| + 1, st') else NotFound
    decreases items
  {
    hide Run, At, Print, PrintItems;
    ItemsSplit(s, i, items);
    BlankSkipped(s, path, i, st, items.before);
    var v := i + |items.before|;
    var e := v + |Print(items.value)|;
    var k := e + |items.after|;
    ValuePassed(s, path, v, st, items.value);
    var st1 := Passed(st, v);
    BlankSkipped(s, path, e, st1, items.after);
    if items.rest.Items? {
      CommaStep(s, path, k, st1);
      st' := ItemMissing(s, path, k + 1, st1.(mode := ExpectValue), items.rest, n - 1);
    } else {
      AtIndex(s, k, "]", 0);
      st' := ArrayClose(s, path, k, st1);
    }
  }
}
