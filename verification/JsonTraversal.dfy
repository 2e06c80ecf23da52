/** The automaton of `json_get` over values that the path does not enter. */
module JsonTraversal {
  import opened Sequences
  import opened Json
  import opened JsonDoc
  import opened JsonTokens

  function Continue(s: string, path: string, o: Outcome): Reply
    requires o.Next? ==> o.i <= |s| && o.st.Ok()
  {
    match o
    case Next(k, st) => Run(s, path, k, st)
    case Return(r) => r
  }

  /** A value starts at index `i`. */
  function Entered(st: State, i: nat): State {
    if st.AtDepth() then st.(j := i) else st
  }

  /** The path goes on inside `v`. */
  predicate Opens(path: string, st: State, v: Value) {
    st.AtDepth() && st.ci == st.ei &&
    ((v.Object? && PathAt(path, st.pos) == '.') || (v.Array? && PathAt(path, st.pos) == '['))
  }

  lemma {:induction false} BlankSkipped(s: string, path: string, i: nat, st: State, ws: string)
    requires st.Ok() && BlankText(ws) && At(s, i, ws)
    ensures Run(s, path, i, st) == Run(s, path, i + |ws|, st)
    decreases |ws|
  {
    if ws != "" {
      AtIndex(s, i, ws, 0);
      assert ws == ws[..1] + ws[1..];
      AtSplit(s, i, ws[..1], ws[1..]);
      BlankSkipped(s, path, i + 1, st, ws[1..]);
    }
  }

  lemma LiteralStep(s: string, path: string, i: nat, st: State, word: string)
    requires st.Ok() && st.mode.ExpectValue? && word in {"true", "false", "null"} && At(s, i, word)
    ensures Run(s, path, i, st) == Continue(s, path, EndValue(path, Entered(st, i), i + |word|))
  {
    AtIndex(s, i, word, 0);
    if word == "true" {
      assert Spells(s, i, "true");
    } else if word == "null" {
      assert Spells(s, i, "null");
    } else {
      assert Spells(s, i, "false");
    }
    assert Step(s, path, i, st) == EndValue(path, Entered(st, i), i + |word|);
  }

  lemma ScalarStep(s: string, path: string, i: nat, st: State, v: Value)
    requires st.Ok() && st.mode.ExpectValue? && Valid(v) && !v.Array? && !v.Object?
    requires At(s, i, Print(v)) && Ends(s, i + |Print(v)|)
    ensures Run(s, path, i, st) == Continue(s, path, EndValue(path, Entered(st, i), i + |Print(v)|))
  {
    hide ShortExponent, NumberText, NumberEnd, ValidRaw, PrintRaw, EndValue, Spells, Ends, ReadIndex, CloseContainer;
    match v
    case Literal(word) =>
      LiteralStep(s, path, i, st, word);
    case Numeral(number) =>
      NumberConsumedIff(s, i, number);
      assert Step(s, path, i, st) == EndValue(path, Entered(st, i), i + |Print(v)|);
    case Text(raw) =>
      AtSplit(s, i, "\"", PrintRaw(raw) + "\"");
      AtIndex(s, i, "\"", 0);
      StringConsumed(s, i + 1, raw);
      assert Step(s, path, i, st) == EndValue(path, Entered(st, i), i + |Print(v)|);
  }

  /** The state inside a bracket that the path does not follow. */
  function Inside(st: State, i: nat, open: char): State {
    Entered(st, i).(nesting := st.nesting + [open], mode := if open == '{' then ExpectKey else ExpectValue)
  }

  lemma OpenStep(s: string, path: string, i: nat, st: State, open: char, v: Value)
    requires st.Ok() && st.mode.ExpectValue? && |st.nesting| < MAX_DEPTH && !Opens(path, st, v)
    requires (v.Array? && open == '[') || (v.Object? && open == '{')
    requires i < |s| && s[i] == open
    ensures Inside(st, i, open).Ok()
    ensures Run(s, path, i, st) == Run(s, path, i + 1, Inside(st, i, open))
  {
    assert Step(s, path, i, st) == Next(i + 1, Inside(st, i, open));
  }

  /** A closing bracket deeper than the path. */
  lemma CloseStep(s: string, path: string, i: nat, st: State, open: char, k: nat, inner: State)
    requires st.Ok() && st.mode.ExpectValue? && |st.nesting| >= st.ed && open in {'[', '{'}
    requires inner.Ok() && inner == Inside(st, i, open).(mode := inner.mode)
    requires k < |s| && s[k] as int == open as int + 2
    requires inner.mode.ExpectCommaOrEnd? || inner.mode == Inside(st, i, open).mode
    ensures Run(s, path, k, inner) == Continue(s, path, EndValue(path, Entered(st, i), k + 1))
  {
    assert inner.nesting[..|inner.nesting| - 1] == st.nesting;
    assert !inner.AtDepth();
    assert Step(s, path, k, inner) == EndValue(path, Entered(st, i), k + 1);
  }

  function Named(s: string, path: string, st: State, k: nat, e: nat): State
    requires k <= e <= |s| && st.Ok()
  {
    st.(pos := if KeyOnPath(s, path, st, k, e) then st.pos + (e - k) else st.pos, mode := ExpectColon)
  }

  lemma KeyStep(s: string, path: string, q: nat, st: State, key: seq<Unit>)
    requires st.Ok() && st.mode.ExpectKey? && ValidRaw(key)
    requires |st.nesting| >= st.ed && (st.AtDepth() ==> PathAt(path, st.pos - 1) == '.')
    requires At(s, q, Quoted(key))
    ensures var e := q + 1 + |PrintRaw(key)|;
            e < |s| && Run(s, path, q, st) == Run(s, path, e + 1, Named(s, path, st, q + 1, e))
  {
    AtSplit(s, q, "\"", PrintRaw(key) + "\"");
    AtIndex(s, q, "\"", 0);
    StringConsumed(s, q + 1, key);
    var e := q + 1 + |PrintRaw(key)|;
    assert Step(s, path, q, st) == Next(e + 1, Named(s, path, st, q + 1, e));
  }

  /** The text of a key, white space and colon. */
  lemma HeadTraversed(s: string, path: string, i: nat, st: State, ms: Members)
    requires st.Ok() && st.mode.ExpectKey? && ms.Members? && ValidMembers(ms)
    requires |st.nesting| >= st.ed && (st.AtDepth() ==> PathAt(path, st.pos - 1) == '.')
    requires At(s, i, HeadText(ms))
    ensures
      var k := i + |ms.before| + 1;
      var e := k + |PrintRaw(ms.key)|;
      At(s, k - 1, Quoted(ms.key)) &&
      Run(s, path, i, st) == Run(s, path, i + |HeadText(ms)|, Named(s, path, st, k, e).(mode := ExpectValue))
  {
    hide Run, Step, Named;
    var q := i + |ms.before|;
    AtSplit(s, i, ms.before, Quoted(ms.key) + (ms.beforeColon + (":" + ms.afterColon)));
    BlankSkipped(s, path, i, st, ms.before);
    AtSplit(s, q, Quoted(ms.key), ms.beforeColon + (":" + ms.afterColon));
    KeyStep(s, path, q, st, ms.key);
    var e := q + 1 + |PrintRaw(ms.key)|;
    var named := Named(s, path, st, q + 1, e);
    assert named.Ok() && named.mode.ExpectColon? by { NamedOk(s, path, st, q + 1, e); }
    ColonTraversed(s, path, e + 1, named, ms);
  }

  lemma NamedOk(s: string, path: string, st: State, k: nat, e: nat)
    requires k <= e <= |s| && st.Ok()
    ensures Named(s, path, st, k, e).Ok() && Named(s, path, st, k, e).mode.ExpectColon?
  {
  }

  lemma ColonStep(s: string, path: string, i: nat, st: State)
    requires st.Ok() && st.mode.ExpectColon? && i < |s| && s[i] == ':'
    ensures Run(s, path, i, st) == Run(s, path, i + 1, st.(mode := ExpectValue))
  {
    assert Step(s, path, i, st) == Next(i + 1, st.(mode := ExpectValue));
  }

  lemma ColonTraversed(s: string, path: string, i: nat, st: State, ms: Members)
    requires st.Ok() && st.mode.ExpectColon? && ms.Members? && ValidMembers(ms)
    requires At(s, i, ms.beforeColon + (":" + ms.afterColon))
    ensures Run(s, path, i, st) ==
            Run(s, path, i + |ms.beforeColon| + 1 + |ms.afterColon|, st.(mode := ExpectValue))
  {
    hide Run, Step, At;
    AtSplit(s, i, ms.beforeColon, ":" + ms.afterColon);
    BlankSkipped(s, path, i, st, ms.beforeColon);
    var c := i + |ms.beforeColon|;
    AtSplit(s, c, ":", ms.afterColon);
    AtIndex(s, c, ":", 0);
    ColonStep(s, path, c, st);
    BlankSkipped(s, path, c + 1, st.(mode := ExpectValue), ms.afterColon);
  }

  /** A value that the path does not enter is read to its end; it is then the answer or not. */
  lemma {:induction false} ValueTraversed(s: string, path: string, i: nat, st: State, v: Value)
    requires st.Ok() && st.mode.ExpectValue? && Valid(v) && |st.nesting| + Height(v) <= MAX_DEPTH
    requires |st.nesting| >= st.ed && !Opens(path, st, v)
    requires At(s, i, Print(v)) && Ends(s, i + |Print(v)|)
    ensures Run(s, path, i, st) == Continue(s, path, EndValue(path, Entered(st, i), i + |Print(v)|))
    decreases v, 2
  {
    hide Run, Step, At;
    if v.Array? {
      ArrayTraversed(s, path, i, st, v);
    } else if v.Object? {
      ObjectTraversed(s, path, i, st, v);
    } else {
      ScalarStep(s, path, i, st, v);
    }
  }

  lemma Printed(v: Value)
    requires v.Array? || v.Object?
    ensures Print(v) == if v.Array? then "[" + (Body(v) + "]") else "{" + (Body(v) + "}")
    ensures v.Array? ==> Body(v) == if v.items.NoItems? then v.inner else PrintItems(v.items)
    ensures v.Object? ==> Body(v) == if v.members.NoMembers? then v.inner else PrintMembers(v.members)
  {
  }

  lemma HeightInside(v: Value)
    requires (v.Array? || v.Object?) && Valid(v)
    ensures Height(v) > 0 && BlankText(v.inner)
    ensures v.Array? ==> ValidItems(v.items) && Height(v) == 1 + HeightItems(v.items)
    ensures v.Object? ==> ValidMembers(v.members) && Height(v) == 1 + HeightMembers(v.members)
  {
  }

  lemma BodySplit(s: string, i: nat, v: Value)
    requires (v.Array? || v.Object?) && At(s, i, Print(v))
    ensures i < |s| && s[i] == (if v.Array? then '[' else '{')
    ensures At(s, i + 1, Body(v)) && At(s, i + 1 + |Body(v)|, if v.Array? then "]" else "}")
    ensures |Print(v)| == |Body(v)| + 2
  {
    hide At, Body;
    var open, close := if v.Array? then "[" else "{", if v.Array? then "]" else "}";
    AtSplit(s, i, open, Body(v) + close);
    AtIndex(s, i, open, 0);
    AtSplit(s, i + 1, Body(v), close);
  }

  /** The brackets of a container, in the text. */
  lemma BracketPlaces(s: string, i: nat, v: Value)
    requires (v.Array? || v.Object?) && At(s, i, Print(v))
    ensures i < |s| && s[i] == (if v.Array? then '[' else '{')
    ensures At(s, i + 1, Body(v)) && |Print(v)| == |Body(v)| + 2
    ensures var k := i + 1 + |Body(v)|;
            k < |s| && (v.Array? ==> At(s, k, "]") && s[k] == ']') && (v.Object? ==> At(s, k, "}") && s[k] == '}')
  {
    hide At, Body, Print;
    BodySplit(s, i, v);
    AtIndex(s, i + 1 + |Body(v)|, if v.Array? then "]" else "}", 0);
  }

  lemma BodyOf(v: Value)
    ensures v.Array? ==> Body(v) == if v.items.NoItems? then v.inner else PrintItems(v.items)
    ensures v.Object? ==> Body(v) == if v.members.NoMembers? then v.inner else PrintMembers(v.members)
  {
  }

  lemma InsideIs(st: State, i: nat, open: char)
    requires open in {'[', '{'}
    ensures var st' := Inside(st, i, open);
            && |st'.nesting| == |st.nesting| + 1 && st'.nesting[|st.nesting|] == open && st'.ed == st.ed
            && st'.mode == if open == '{' then ExpectKey else ExpectValue
  {
  }

  lemma {:induction false} ArrayTraversed(s: string, path: string, i: nat, st: State, v: Value)
    requires st.Ok() && st.mode.ExpectValue? && v.Array? && Valid(v) && |st.nesting| + Height(v) <= MAX_DEPTH
    requires |st.nesting| >= st.ed && !Opens(path, st, v) && At(s, i, Print(v))
    ensures Run(s, path, i, st) == Continue(s, path, EndValue(path, Entered(st, i), i + |Print(v)|))
    decreases v, 1
  {
    hide *;
    HeightInside(v);
    BodyOf(v);
    BracketPlaces(s, i, v);
    var st', k := Inside(st, i, '['), i + 1 + |Body(v)|;
    InsideIs(st, i, '[');
    OpenStep(s, path, i, st, '[', v);
    if v.items.NoItems? {
      BlankSkipped(s, path, i + 1, st', v.inner);
      CloseStep(s, path, i, st, '[', k, st');
    } else {
      ItemsTraversed(s, path, i + 1, st', v.items);
      ModesOk(st');
      CloseStep(s, path, i, st, '[', k, st'.(mode := ExpectCommaOrEnd));
    }
  }

  lemma {:induction false} ObjectTraversed(s: string, path: string, i: nat, st: State, v: Value)
    requires st.Ok() && st.mode.ExpectValue? && v.Object? && Valid(v) && |st.nesting| + Height(v) <= MAX_DEPTH
    requires |st.nesting| >= st.ed && !Opens(path, st, v) && At(s, i, Print(v))
    ensures Run(s, path, i, st) == Continue(s, path, EndValue(path, Entered(st, i), i + |Print(v)|))
    decreases v, 1
  {
    hide *;
    HeightInside(v);
    BodyOf(v);
    BracketPlaces(s, i, v);
    var st', k := Inside(st, i, '{'), i + 1 + |Body(v)|;
    InsideIs(st, i, '{');
    OpenStep(s, path, i, st, '{', v);
    if v.members.NoMembers? {
      BlankSkipped(s, path, i + 1, st', v.inner);
      CloseStep(s, path, i, st, '{', k, st');
    } else {
      MembersTraversed(s, path, i + 1, st', v.members);
      ModesOk(st');
      CloseStep(s, path, i, st, '{', k, st'.(mode := ExpectCommaOrEnd));
    }
  }

  lemma PrintedItems(items: Items)
    requires items.Items?
    ensures PrintItems(items) == items.before + (Print(items.value) + (items.after + MoreItems(items.rest)))
    ensures MoreItems(items.rest) == if items.rest.NoItems? then "" else "," + PrintItems(items.rest)
  {
  }

  lemma PrintedMembers(ms: Members)
    requires ms.Members?
    ensures PrintMembers(ms) == HeadText(ms) + (Print(ms.value) + (ms.after + MoreMembers(ms.rest)))
    ensures MoreMembers(ms.rest) == if ms.rest.NoMembers? then "" else "," + PrintMembers(ms.rest)
  {
  }

  lemma CommaStep(s: string, path: string, i: nat, st: State)
    requires st.Ok() && st.mode.ExpectCommaOrEnd? && |st.nesting| > 0 && i < |s| && s[i] == ','
    ensures Run(s, path, i, st) ==
            Run(s, path, i + 1, st.(mode := if st.nesting[|st.nesting| - 1] == '{' then ExpectKey else ExpectValue))
  {
    assert Step(s, path, i, st).Next?;
  }

  /** What can follow a value. */
  lemma AfterText(s: string, i: nat, after: string, more: string, close: string)
    requires BlankText(after) && At(s, i, after + more)
    requires At(s, i + |after| + |more|, close) && close in {"]", "}"}
    requires more != "" ==> more[0] == ','
    ensures Ends(s, i) && At(s, i, after) && At(s, i + |after|, more)
  {
    AtSplit(s, i, after, more);
    if after != "" {
      AtIndex(s, i, after, 0);
    } else if more != "" {
      AtIndex(s, i, more, 0);
    } else {
      AtIndex(s, i, close, 0);
    }
  }

  lemma ModesOk(st: State)
    requires st.Ok() && |st.nesting| > 0
    ensures st.(mode := ExpectCommaOrEnd).Ok() && st.(mode := ExpectValue).Ok() && st.(mode := ExpectKey).Ok()
  {
  }

  lemma ItemParts(items: Items)
    requires items.Items? && ValidItems(items)
    ensures BlankText(items.before) && Valid(items.value) && BlankText(items.after) && ValidItems(items.rest)
    ensures Height(items.value) <= HeightItems(items) && HeightItems(items.rest) <= HeightItems(items)
  {
  }

  lemma MemberParts(ms: Members)
    requires ms.Members? && ValidMembers(ms)
    ensures BlankText(ms.after) && Valid(ms.value) && ValidMembers(ms.rest)
    ensures Height(ms.value) <= HeightMembers(ms) && HeightMembers(ms.rest) <= HeightMembers(ms)
  {
  }

  /** The comma and the members after it. */
  lemma MoreText(s: string, k: nat, rest: Members)
    requires At(s, k, MoreMembers(rest))
    ensures rest.Members? ==>
              && k < |s| && s[k] == ',' && At(s, k + 1, PrintMembers(rest))
              && |MoreMembers(rest)| == 1 + |PrintMembers(rest)|
    ensures rest.NoMembers? ==> |MoreMembers(rest)| == 0
  {
    hide At, PrintMembers;
    if rest.Members? {
      AtSplit(s, k, ",", PrintMembers(rest));
      AtIndex(s, k, ",", 0);
    }
  }

  /** The comma and the items after it. */
  lemma MoreItemsText(s: string, k: nat, rest: Items)
    requires At(s, k, MoreItems(rest))
    ensures rest.Items? ==>
              && k < |s| && s[k] == ',' && At(s, k + 1, PrintItems(rest))
              && |MoreItems(rest)| == 1 + |PrintItems(rest)|
    ensures rest.NoItems? ==> |MoreItems(rest)| == 0
  {
    hide At, PrintItems;
    if rest.Items? {
      AtSplit(s, k, ",", PrintItems(rest));
      AtIndex(s, k, ",", 0);
    }
  }

  lemma {:induction false} ItemsTraversed(s: string, path: string, i: nat, st: State, items: Items)
    requires st.Ok() && st.mode.ExpectValue? && items.Items? && ValidItems(items)
    requires |st.nesting| + HeightItems(items) <= MAX_DEPTH
    requires |st.nesting| > 0 && |st.nesting| > st.ed && st.nesting[|st.nesting| - 1] == '['
    requires At(s, i, PrintItems(items)) && At(s, i + |PrintItems(items)|, "]")
    ensures Run(s, path, i, st) == Run(s, path, i + |PrintItems(items)|, st.(mode := ExpectCommaOrEnd))
    decreases items, 1
  {
    hide Run, Step, At, Print, PrintItems, MoreItems, BlankText, Ends, PathAt, ValidItems, HeightItems, Valid, Height;
    ItemParts(items);
    PrintedItems(items);
    var more := MoreItems(items.rest);
    var v := i + |items.before|;
    var e := v + |Print(items.value)|;
    AtSplit(s, i, items.before, Print(items.value) + (items.after + more));
    BlankSkipped(s, path, i, st, items.before);
    AtSplit(s, v, Print(items.value), items.after + more);
    ItemLeft(s, path, e, st, items);
    ValueTraversed(s, path, v, st, items.value);
  }

  /** What follows an item, in the text. */
  lemma ItemAfter(s: string, e: nat, items: Items)
    requires items.Items? && BlankText(items.after)
    requires At(s, e, items.after + MoreItems(items.rest))
    requires At(s, e + |items.after| + |MoreItems(items.rest)|, "]")
    ensures Ends(s, e) && At(s, e, items.after) && e + |items.after| + |MoreItems(items.rest)| <= |s|
    ensures var k := e + |items.after|;
            if items.rest.NoItems? then |MoreItems(items.rest)| == 0
            else
              && k < |s| && s[k] == ',' && At(s, k + 1, PrintItems(items.rest))
              && |MoreItems(items.rest)| == 1 + |PrintItems(items.rest)|
              && At(s, k + 1 + |PrintItems(items.rest)|, "]")
  {
    hide At, PrintItems, Ends, BlankText;
    AfterText(s, e, items.after, MoreItems(items.rest), "]");
    MoreItemsText(s, e + |items.after|, items.rest);
    ThereIs(s, e + |items.after| + |MoreItems(items.rest)|, "]");
  }

  lemma ThereIs(s: string, i: nat, t: string)
    requires At(s, i, t)
    ensures i + |t| <= |s|
  {
  }

  /** What follows an item: blanks, and the items after it. */
  lemma {:induction false} ItemLeft(s: string, path: string, e: nat, st: State, items: Items)
    requires st.Ok() && st.mode.ExpectValue? && items.Items? && ValidItems(items)
    requires |st.nesting| + HeightItems(items) <= MAX_DEPTH
    requires |st.nesting| > 0 && |st.nesting| > st.ed && st.nesting[|st.nesting| - 1] == '['
    requires At(s, e, items.after + MoreItems(items.rest)) && At(s, e + |items.after| + |MoreItems(items.rest)|, "]")
    ensures var done := st.(mode := ExpectCommaOrEnd);
            Ends(s, e) && e + |items.after| + |MoreItems(items.rest)| <= |s| &&
            Run(s, path, e, done) == Run(s, path, e + |items.after| + |MoreItems(items.rest)|, done)
    decreases items, 0
  {
    hide *;
    ItemParts(items);
    ModesOk(st);
    ItemAfter(s, e, items);
    var done, k := st.(mode := ExpectCommaOrEnd), e + |items.after|;
    BlankSkipped(s, path, e, done, items.after);
    if items.rest.Items? {
      CommaStep(s, path, k, done);
      ItemsTraversed(s, path, k + 1, st, items.rest);
    }
  }

  lemma {:induction false} MembersTraversed(s: string, path: string, i: nat, st: State, ms: Members)
    requires st.Ok() && st.mode.ExpectKey? && ms.Members? && ValidMembers(ms)
    requires |st.nesting| + HeightMembers(ms) <= MAX_DEPTH
    requires |st.nesting| > 0 && |st.nesting| > st.ed && st.nesting[|st.nesting| - 1] == '{'
    requires At(s, i, PrintMembers(ms)) && At(s, i + |PrintMembers(ms)|, "}")
    ensures Run(s, path, i, st) == Run(s, path, i + |PrintMembers(ms)|, st.(mode := ExpectCommaOrEnd))
    decreases ms, 1
  {
    hide Run, Step, At, HeadText, Print, PrintMembers, MoreMembers, BlankText, Ends, PathAt, ValidMembers,
         HeightMembers, Valid, Height;
    MemberParts(ms);
    PrintedMembers(ms);
    var more := MoreMembers(ms.rest);
    var v := i + |HeadText(ms)|;
    var e := v + |Print(ms.value)|;
    AtSplit(s, i, HeadText(ms), Print(ms.value) + (ms.after + more));
    HeadTraversed(s, path, i, st, ms);
    AtSplit(s, v, Print(ms.value), ms.after + more);
    MemberLeft(s, path, e, st, ms);
    ValueTraversed(s, path, v, st.(mode := ExpectValue), ms.value);
  }

  /** What follows the value of a member, in the text. */
  lemma MemberAfter(s: string, e: nat, ms: Members)
    requires ms.Members? && BlankText(ms.after)
    requires At(s, e, ms.after + MoreMembers(ms.rest))
    requires At(s, e + |ms.after| + |MoreMembers(ms.rest)|, "}")
    ensures Ends(s, e) && At(s, e, ms.after) && e + |ms.after| + |MoreMembers(ms.rest)| <= |s|
    ensures var k := e + |ms.after|;
            if ms.rest.NoMembers? then |MoreMembers(ms.rest)| == 0
            else
              && k < |s| && s[k] == ',' && At(s, k + 1, PrintMembers(ms.rest))
              && |MoreMembers(ms.rest)| == 1 + |PrintMembers(ms.rest)|
              && At(s, k + 1 + |PrintMembers(ms.rest)|, "}")
  {
    hide At, PrintMembers, Ends, BlankText;
    AfterText(s, e, ms.after, MoreMembers(ms.rest), "}");
    MoreText(s, e + |ms.after|, ms.rest);
    ThereIs(s, e + |ms.after| + |MoreMembers(ms.rest)|, "}");
  }

  /** What follows the value of a member: blanks, and the members after it. */
  lemma {:induction false} MemberLeft(s: string, path: string, e: nat, st: State, ms: Members)
    requires st.Ok() && st.mode.ExpectKey? && ms.Members? && ValidMembers(ms)
    requires |st.nesting| + HeightMembers(ms) <= MAX_DEPTH
    requires |st.nesting| > 0 && |st.nesting| > st.ed && st.nesting[|st.nesting| - 1] == '{'
    requires At(s, e, ms.after + MoreMembers(ms.rest)) && At(s, e + |ms.after| + |MoreMembers(ms.rest)|, "}")
    ensures var done := st.(mode := ExpectCommaOrEnd);
            Ends(s, e) && e + |ms.after| + |MoreMembers(ms.rest)| <= |s| &&
            Run(s, path, e, done) == Run(s, path, e + |ms.after| + |MoreMembers(ms.rest)|, done)
    decreases ms, 0
  {
    hide *;
    MemberParts(ms);
    ModesOk(st);
    MemberAfter(s, e, ms);
    var done, k := st.(mode := ExpectCommaOrEnd), e + |ms.after|;
    BlankSkipped(s, path, e, done, ms.after);
    if ms.rest.Members? {
      CommaStep(s, path, k, done);
      MembersTraversed(s, path, k + 1, st, ms.rest);
    }
  }
}
