/** Whatever the path, a valid document is never refused, and a value is found only when all of the path
    has been followed. */
module JsonFate {
  import opened Sequences
  import opened Json
  import opened JsonDoc
  import opened JsonTokens
  import opened JsonTraversal
  import opened JsonLookup
  import opened JsonTrap

  /** A path, and whether all keys met on the way are plain. */
  datatype Aim = Aim(segs: seq<Segment>, plain: bool)

  /** How deep a document must be for all of the path to be followed: one key with dots and brackets can
      stand for everything from the first member name on. */
  function Levels(segs: seq<Segment>): nat {
    if segs == [] then 0 else if segs[0].Member? then 1 else 1 + Levels(segs[1..])
  }

  lemma {:induction false} LevelsPart(segs: seq<Segment>, u: nat)
    requires u <= |segs|
    ensures Levels(segs[..u]) <= Levels(segs)
    ensures (exists k :: 0 <= k < u && segs[k].Member?) ==> Levels(segs[..u]) == Levels(segs)
    decreases u
  {
    if u > 0 && segs[0].Index? {
      LevelsPart(segs[1..], u - 1);
      assert segs[..u][1..] == segs[1..][..u - 1];
      if k :| 0 <= k < u && segs[k].Member? {
        assert segs[1..][k - 1].Member?;
      }
    }
  }

  lemma {:induction false} LevelsMore(segs: seq<Segment>, u: nat)
    requires u < |segs|
    ensures Levels(segs[..u + 1]) <= Levels(segs[..u]) + 1
    ensures segs[u].Member? ==> Levels(segs) <= Levels(segs[..u]) + 1
    decreases u
  {
    if u > 0 && segs[0].Index? {
      LevelsMore(segs[1..], u - 1);
      assert segs[..u][1..] == segs[1..][..u - 1] && segs[..u + 1][1..] == segs[1..][..u];
    } else if u == 0 {
      assert segs[..1][1..] == [];
    }
  }

  lemma {:induction false} LevelsAtMost(segs: seq<Segment>)
    ensures Levels(segs) <= |segs| && (MemberOnlyLast(segs) ==> Levels(segs) == |segs|)
    decreases |segs|
  {
    if segs != [] {
      LevelsAtMost(segs[1..]);
      assert segs == [segs[0]] + segs[1..];
      if MemberOnlyLast(segs) {
        MemberTail(segs[0], segs[1..]);
      }
    }
  }

  /** The place reached in the path: before segment `u`, or before the name that ends segment `u - 1`. */
  predicate Standing(path: string, pos: nat, segs: seq<Segment>, u: nat)
    requires u <= |segs|
  {
    if RestOfPath(path, pos, segs[u..]) then Writable(segs[..u])
    else
      && u > 0 && segs[u - 1].Member? && Writable(segs[..u - 1])
      && AtName(path, pos, segs[u - 1].name, segs[u..])
  }

  /** The path has been followed up to there, and not in fewer levels than it takes. */
  predicate AlongAt(path: string, st: State, aim: Aim, u: nat) {
    && 0 <= st.ed <= MAX_DEPTH && ValidPath(aim.segs) && u <= |aim.segs| && (aim.plain ==> u <= st.ed)
    && Levels(aim.segs[..u]) <= st.ed && (PathAt(path, st.pos - 1) == '.' ==> Levels(aim.segs) <= st.ed)
    && Standing(path, st.pos, aim.segs, u)
  }

  ghost predicate Along(path: string, st: State, aim: Aim) {
    exists u: nat :: AlongAt(path, st, aim, u)
  }

  /** All of the path can be followed in some document, if only plain keys are allowed. */
  predicate Complete(segs: seq<Segment>) { |segs| <= MAX_DEPTH && Writable(segs) }

  /** And if all keys are. */
  predicate Followable(segs: seq<Segment>) { Levels(segs) <= MAX_DEPTH && Writable(segs) }

  predicate Done(aim: Aim) { Followable(aim.segs) && (aim.plain ==> Complete(aim.segs)) }

  predicate Doomed(r: Reply, aim: Aim) { r == NotFound || (r.Found? && Done(aim)) }

  lemma SegmentsFrom(segs: seq<Segment>, u: nat)
    requires u <= |segs| && ValidPath(segs)
    ensures ValidPath(segs[u..])
    ensures u < |segs| ==> segs[u..] != [] && segs[u..][0] == segs[u] && segs[u..][1..] == segs[u + 1..]
  {
    assert forall k :: 0 <= k < |segs| - u ==> segs[u..][k] == segs[u + k];
  }

  lemma WritableMore(segs: seq<Segment>, u: nat)
    requires u < |segs| && Writable(segs[..u]) && (segs[u].Member? ==> KeyName(segs[u].name))
    ensures Writable(segs[..u + 1])
  {
    assert segs[..u + 1] == segs[..u] + [segs[u]];
  }

  lemma WritableJoin(segs: seq<Segment>, u: nat, m: nat)
    requires u + m <= |segs| && Writable(segs[..u]) && Writable(segs[u..][..m])
    ensures Writable(segs[..u + m]) && segs[u..][m..] == segs[u + m..]
  {
    assert segs[..u + m] == segs[..u] + segs[u..][..m];
  }

  /** Where the path has a terminator of its own, the segments followed are done. */
  lemma DoneAtTerminator(path: string, pos: nat, segs: seq<Segment>, u: nat)
    requires u <= |segs| && Standing(path, pos, segs, u) && PathAt(path, pos) in {'\0', '.', '['}
    ensures RestOfPath(path, pos, segs[u..]) && Writable(segs[..u])
  {
    hide RestOfPath, Writable;
    if !RestOfPath(path, pos, segs[u..]) {
      var name, rest := segs[u - 1].name, segs[u..];
      if name != "" {
        NameHead(path, pos, name, rest);
      } else {
        EmptyNameDone(path, pos, rest);
      }
    }
  }

  lemma EmptyNameDone(path: string, pos: nat, rest: seq<Segment>)
    requires AtName(path, pos, "", rest)
    ensures RestOfPath(path, pos, rest)
  {
    hide RestOfPath;
  }

  lemma ReachedComplete(path: string, st: State, aim: Aim)
    requires Along(path, st, aim) && Reached(path, st)
    ensures Done(aim)
  {
    hide Standing, Writable, Levels;
    var u: nat :| AlongAt(path, st, aim, u);
    DoneAtTerminator(path, st.pos, aim.segs, u);
    SegmentsFrom(aim.segs, u);
    PathHead(path, st.pos, aim.segs[u..]);
    hide RestOfPath;
    assert aim.segs[..u] == aim.segs;
  }

  /** Entering a container that the path goes through: one segment further. */
  lemma MemberEntered(path: string, st: State, aim: Aim, st': State)
    requires Along(path, st, aim) && st.ed < MAX_DEPTH && PathAt(path, st.pos) == '.'
    requires st'.ed == st.ed + 1 && st'.pos == st.pos + 1
    ensures Along(path, st', aim)
  {
    hide Writable, Levels;
    var segs := aim.segs;
    var u: nat :| AlongAt(path, st, aim, u);
    DoneAtTerminator(path, st.pos, segs, u);
    SegmentsFrom(segs, u);
    PathHead(path, st.pos, segs[u..]);
    hide RestOfPath;
    if RestOfPath(path, st'.pos, segs[u + 1..]) {
      NameIsEmpty(path, st'.pos, segs[u].name, segs[u + 1..]);
      WritableMore(segs, u);
    }
    LevelsMore(segs, u);
    assert AlongAt(path, st', aim, u + 1);
  }

  /** Only an empty name leaves the rest of the path where it is. */
  lemma NameIsEmpty(path: string, pos: nat, name: string, rest: seq<Segment>)
    requires AtName(path, pos, name, rest) && RestOfPath(path, pos, rest)
    ensures name == "" && KeyName(name)
  {
  }

  lemma IndexEntered(path: string, st: State, aim: Aim, st': State)
    requires Along(path, st, aim) && st.ed < MAX_DEPTH && PathAt(path, st.pos) == '['
    requires st'.ed == st.ed + 1
    requires var (ei, pos) := ReadIndex(path, st.pos + 1, 0);
             st'.pos == if PathAt(path, pos) != '\0' then pos + 1 else pos
    ensures Along(path, st', aim)
  {
    hide *;
    var u := AlongIndex(path, st, aim);
    var seg, rest := aim.segs[u], aim.segs[u + 1..];
    assert aim.segs[u..] == [seg] + rest;
    var close := IndexText(path, st.pos, seg.n, rest);
    WritableMore(aim.segs, u);
    LevelsMore(aim.segs, u);
    RestAlong(path, st', aim, u + 1);
  }

  lemma AlongIndex(path: string, st: State, aim: Aim) returns (u: nat)
    requires Along(path, st, aim) && PathAt(path, st.pos) == '['
    ensures u < |aim.segs| && aim.segs[u].Index? && ValidPath(aim.segs) && ValidPath(aim.segs[u..])
    ensures RestOfPath(path, st.pos, aim.segs[u..]) && Writable(aim.segs[..u])
    ensures 0 <= st.ed && Levels(aim.segs[..u]) <= st.ed && (aim.plain ==> u <= st.ed)
  {
    hide Standing, Writable, Levels;
    u :| AlongAt(path, st, aim, u);
    DoneAtTerminator(path, st.pos, aim.segs, u);
    SegmentsFrom(aim.segs, u);
    hide RestOfPath;
    PathHead(path, st.pos, aim.segs[u..]);
  }

  lemma RestAlong(path: string, st: State, aim: Aim, u: nat)
    requires 0 <= st.ed <= MAX_DEPTH && ValidPath(aim.segs) && u <= |aim.segs| && (aim.plain ==> u <= st.ed)
    requires Levels(aim.segs[..u]) <= st.ed && (PathAt(path, st.pos - 1) == '.' ==> Levels(aim.segs) <= st.ed)
    requires RestOfPath(path, st.pos, aim.segs[u..]) && Writable(aim.segs[..u])
    ensures Along(path, st, aim)
  {
    hide RestOfPath, Writable, Levels;
    assert AlongAt(path, st, aim, u);
  }

  // ----- keys that spell several segments

  /** The first character of a segment ends any escape before it. */
  lemma {:induction false} RawSplit(a: string, b: string)
    requires RawText(a + b) && Unbroken(a) && (b == "" || b[0] in {'.', '['})
    ensures RawText(a) && RawText(b)
    decreases |a|
  {
    var t := a + b;
    if a == "" {
      assert t == b;
    } else if a[0] == '\\' {
      assert b != "" ==> t[|a|] == b[0];
      assert t[2..] == a[2..] + b;
      RawSplit(a[2..], b);
    } else {
      assert t[1..] == a[1..] + b;
      RawSplit(a[1..], b);
    }
  }

  lemma {:induction false} RawDrop(t: string, n: nat)
    requires RawText(t) && n <= |t| && '\\' !in t[..n]
    ensures RawText(t[n..])
    decreases n
  {
    if n == 0 {
      assert t[0..] == t;
    } else {
      assert t[0] == t[..n][0];
      assert t[1..][..n - 1] == t[..n][1..] && t[1..][n - 1..] == t[n..];
      RawDrop(t[1..], n - 1);
    }
  }

  /** A key that the path spells from a segment on ends before a segment. */
  lemma {:induction false} SegmentsSpelled(path: string, pos: nat, segs: seq<Segment>, n: nat) returns (m: nat)
    requires ValidPath(segs) && RestOfPath(path, pos, segs) && pos + n <= |path|
    requires PathAt(path, pos + n) in {'\0', '.', '['} && RawText(path[pos..pos + n])
    ensures m <= |segs| && RestOfPath(path, pos + n, segs[m..]) && Writable(segs[..m])
    ensures Unbroken(path[pos..pos + n]) ==> m == 0
    decreases |segs|, 0
  {
    hide *;
    var t := path[pos..pos + n];
    if n == 0 {
      m := 0;
      NothingSpelled(segs);
    } else {
      PathGoesOn(path, pos, segs);
      PathHead(path, pos, segs);
      SegmentsFrom(segs, 1);
      BrokenAt(t, 0);
      assert t[0] == path[pos];
      if segs[0].Member? {
        RawDrop(t, 1);
        assert t[1..] == path[pos + 1..pos + n];
        m := NameSpelled(path, pos + 1, segs[0].name, segs[1..], n - 1);
      } else {
        var l := IndexSpelled(path, pos, segs[0].n, n);
        RawDrop(t, l);
        assert t[l..] == path[pos + l..pos + n];
        m := SegmentsSpelled(path, pos + l, segs[1..], n - l);
      }
      SpelledMore(segs, m);
      m := m + 1;
    }
  }

  lemma NothingSpelled(segs: seq<Segment>)
    ensures segs[0..] == segs && Writable(segs[..0])
  {
  }

  lemma PathGoesOn(path: string, pos: nat, segs: seq<Segment>)
    requires RestOfPath(path, pos, segs) && pos < |path|
    ensures segs != [] && PathAt(path, pos) == path[pos]
  {
  }

  lemma BrokenAt(t: string, k: nat)
    requires k < |t|
    ensures t[k] in {'.', '['} ==> !Unbroken(t)
  {
  }

  lemma SpelledMore(segs: seq<Segment>, m: nat)
    requires segs != [] && m <= |segs[1..]| && Writable(segs[1..][..m])
    requires segs[0].Member? ==> KeyName(segs[0].name)
    ensures segs[1..][m..] == segs[m + 1..] && Writable(segs[..m + 1])
  {
    assert segs[..m + 1] == [segs[0]] + segs[1..][..m];
  }

  lemma IndexChar(path: string, pos: nat, i: nat, k: nat)
    requires At(path, pos + 1, Decimal(i) + "]") && 0 < k < |Decimal(i)| + 2
    ensures pos + k < |path| && path[pos + k] !in {'\0', '.', '[', '\\'}
  {
    AtIndex(path, pos + 1, Decimal(i) + "]", k - 1);
  }

  /** An index in brackets has no place for a key to end in. */
  lemma IndexSpelled(path: string, pos: nat, i: nat, n: nat) returns (l: nat)
    requires At(path, pos + 1, Decimal(i) + "]") && 0 < n && pos + n <= |path| && path[pos] == '['
    requires PathAt(path, pos + n) in {'\0', '.', '['}
    ensures l == |Decimal(i)| + 2 && l <= n && '\\' !in path[pos..pos + n][..l]
  {
    hide At, Decimal;
    l := |Decimal(i)| + 2;
    if n < l {
      IndexChar(path, pos, i, n);
    }
    var t := path[pos..pos + n];
    forall k | 0 <= k < l
      ensures t[..l][k] != '\\'
    {
      assert t[..l][k] == path[pos + k];
      if k > 0 {
        IndexChar(path, pos, i, k);
      }
    }
  }

  /** The same from a name on. */
  lemma {:induction false} NameSpelled(path: string, pos: nat, name: string, rest: seq<Segment>, n: nat)
    returns (m: nat)
    requires AtName(path, pos, name, rest) && pos + n <= |path|
    requires PathAt(path, pos + n) in {'\0', '.', '['} && RawText(path[pos..pos + n])
    ensures m <= |rest| && RestOfPath(path, pos + n, rest[m..]) && Writable(rest[..m]) && KeyName(name)
    ensures Unbroken(path[pos..pos + n]) ==> m == 0
    decreases |rest|, 1
  {
    hide *;
    var t := path[pos..pos + n];
    NameText(path, pos, name, rest, n);
    var after := path[pos + |name|..pos + n];
    assert t == name + after;
    if after != "" {
      PathGoesOn(path, pos + |name|, rest);
      PathHead(path, pos + |name|, rest);
      assert after[0] == path[pos + |name|] == t[|name|];
      BrokenAt(t, |name|);
    }
    RawSplit(name, after);
    NameIsKey(name);
    m := SegmentsSpelled(path, pos + |name|, rest, n - |name|);
    if after == "" {
      NothingBroken();
    }
  }

  lemma NothingBroken()
    ensures Unbroken("")
  {
  }

  lemma NameIsKey(name: string)
    requires RawText(name) && Unbroken(name)
    ensures KeyName(name)
  {
  }

  lemma NameText(path: string, pos: nat, name: string, rest: seq<Segment>, n: nat)
    requires AtName(path, pos, name, rest) && pos + n <= |path| && PathAt(path, pos + n) in {'\0', '.', '['}
    ensures |name| <= n && path[pos..pos + |name|] == name && Unbroken(name)
    ensures RestOfPath(path, pos + |name|, rest) && ValidPath(rest)
  {
    hide RestOfPath;
    SpelledAt(path, pos, name);
    if n < |name| {
      AtIndex(path, pos, name, n);
    }
  }

  /** A key that moves the path on moves it to the end of a segment; a plain key is one whole name. */
  lemma KeyMoves(s: string, path: string, st: State, aim: Aim, k: nat, key: seq<Unit>)
    requires st.Ok() && Along(path, st, aim) && ValidRaw(key) && (aim.plain ==> PlainKey(key))
    requires At(s, k, PrintRaw(key)) && KeyOnPath(s, path, st, k, k + |PrintRaw(key)|)
    ensures Along(path, st.(pos := st.pos + |PrintRaw(key)|, mode := ExpectColon), aim)
  {
    hide *;
    var n := |PrintRaw(key)|;
    KeyFound(s, path, st, k, key);
    TextOfKey(key);
    PlainKeyIff(key);
    var u := WhereAlong(path, st, aim);
    var segs := aim.segs;
    var m;
    if RestOfPath(path, st.pos, segs[u..]) {
      m := SegmentsSpelled(path, st.pos, segs[u..], n);
    } else {
      m := NameSpelled(path, st.pos, segs[u - 1].name, segs[u..], n);
      WritableMore(segs, u - 1);
    }
    WritableJoin(segs, u, m);
    LevelsPart(segs, u + m);
    RestAlong(path, st.(pos := st.pos + n, mode := ExpectColon), aim, u + m);
  }

  lemma WhereAlong(path: string, st: State, aim: Aim) returns (u: nat)
    requires Along(path, st, aim)
    ensures 0 <= st.ed <= MAX_DEPTH && ValidPath(aim.segs) && u <= |aim.segs| && (aim.plain ==> u <= st.ed)
    ensures ValidPath(aim.segs[u..]) && (PathAt(path, st.pos - 1) == '.' ==> Levels(aim.segs) <= st.ed)
    ensures if RestOfPath(path, st.pos, aim.segs[u..]) then Writable(aim.segs[..u])
            else
              && u > 0 && aim.segs[u - 1].Member? && Writable(aim.segs[..u - 1])
              && AtName(path, st.pos, aim.segs[u - 1].name, aim.segs[u..])
  {
    hide RestOfPath, Writable, AtName, Levels;
    u :| AlongAt(path, st, aim, u);
    SegmentsFrom(aim.segs, u);
  }

  lemma KeyFound(s: string, path: string, st: State, k: nat, key: seq<Unit>)
    requires st.Ok() && At(s, k, PrintRaw(key)) && KeyOnPath(s, path, st, k, k + |PrintRaw(key)|)
    ensures var n := |PrintRaw(key)|;
            && st.pos + n <= |path| && path[st.pos..st.pos + n] == PrintRaw(key)
            && PathAt(path, st.pos + n) in {'\0', '.', '['} && PathAt(path, st.pos - 1) == '.'
  {
    hide PrintRaw;
    SpelledAt(s, k, PrintRaw(key));
  }

  // ----- values anywhere, on the path or off it

  lemma ValueEnds(s: string, path: string, st: State, e: nat, aim: Aim) returns (st': State)
    requires st.Ok() && Along(path, st, aim) && e <= |s|
    ensures st'.Ok() && st'.mode.ExpectCommaOrEnd? && st'.nesting == st.nesting && Along(path, st', aim)
    ensures var r := Continue(s, path, EndValue(path, st, e)); Doomed(r, aim) || r == Run(s, path, e, st')
  {
    st' := st.(mode := ExpectCommaOrEnd, ci := if st.AtDepth() && st.ei >= 0 then st.ci + 1 else st.ci);
    if Reached(path, st) {
      ReachedComplete(path, st, aim);
    }
    StillAlong(path, st, aim, st');
    hide Run, Along, Done;
  }

  lemma OpenObjectFate(s: string, path: string, i: nat, st: State, aim: Aim) returns (st': State)
    requires st.Ok() && st.mode.ExpectValue? && |st.nesting| < MAX_DEPTH && Along(path, st, aim)
    requires i < |s| && s[i] == '{'
    ensures st'.Ok() && st'.mode.ExpectKey? && st'.nesting == st.nesting + ['{'] && Along(path, st', aim)
    ensures Run(s, path, i, st) == Run(s, path, i + 1, st')
  {
    hide Along;
    if st.AtDepth() && PathAt(path, st.pos) == '.' && st.ci == st.ei {
      st' := State(ExpectKey, st.nesting + ['{'], i, st.ed + 1, st.pos + 1, -1, -1);
      MemberEntered(path, st, aim, st');
    } else {
      st' := Inside(st, i, '{');
      StillAlong(path, st, aim, st');
    }
    assert Step(s, path, i, st) == Next(i + 1, st');
  }

  lemma StillAlong(path: string, st: State, aim: Aim, st': State)
    requires Along(path, st, aim) && st'.ed == st.ed && st'.pos == st.pos
    ensures Along(path, st', aim)
  {
    hide Standing, Levels, PathAt;
    var u: nat :| AlongAt(path, st, aim, u);
    assert AlongAt(path, st', aim, u);
  }

  lemma OpenArrayFate(s: string, path: string, i: nat, st: State, aim: Aim) returns (st': State)
    requires st.Ok() && st.mode.ExpectValue? && |st.nesting| < MAX_DEPTH && Along(path, st, aim)
    requires i < |s| && s[i] == '['
    ensures st'.Ok() && st'.mode.ExpectValue? && st'.nesting == st.nesting + ['['] && Along(path, st', aim)
    ensures Run(s, path, i, st) == Run(s, path, i + 1, st')
  {
    hide Along, ReadIndex;
    if st.AtDepth() && PathAt(path, st.pos) == '[' && st.ei == st.ci {
      var (ei, pos) := ReadIndex(path, st.pos + 1, 0);
      var pos' := if PathAt(path, pos) != '\0' then pos + 1 else pos;
      st' := State(ExpectValue, st.nesting + ['['], i, st.ed + 1, pos', 0, ei);
      IndexEntered(path, st, aim, st');
    } else {
      st' := Inside(st, i, '[');
      StillAlong(path, st, aim, st');
    }
    assert Step(s, path, i, st) == Next(i + 1, st');
  }

  /** The closing bracket of the innermost container. */
  lemma CloseFate(s: string, path: string, i: nat, st: State, c: char, aim: Aim) returns (st': State)
    requires st.Ok() && |st.nesting| > 0 && Along(path, st, aim) && i < |s| && s[i] == c && c in {']', '}'}
    requires c as int == st.nesting[|st.nesting| - 1] as int + 2
    requires st.mode.ExpectCommaOrEnd? || (st.mode.ExpectKey? && c == '}') || (st.mode.ExpectValue? && c == ']')
    ensures st'.Ok() && st'.mode.ExpectCommaOrEnd? && st'.nesting == st.nesting[..|st.nesting| - 1]
    ensures Along(path, st', aim)
    ensures Doomed(Run(s, path, i, st), aim) || Run(s, path, i, st) == Run(s, path, i + 1, st')
  {
    hide *;
    var out := Popped(st, i);
    PoppedOk(path, st, i, aim);
    CloseStepIs(s, path, i, st, c);
    st' := ValueEnds(s, path, out, i + 1, aim);
    RunIsContinue(s, path, i, st);
    MissDoomed(aim);
  }

  lemma MissDoomed(aim: Aim)
    ensures Doomed(NotFound, aim)
  {
  }

  /** The state behind a closing bracket, before the value it ends is looked at. */
  function Popped(st: State, i: nat): State
    requires |st.nesting| > 0
  {
    var here := if st.mode.ExpectValue? then Entered(st, i) else st;
    here.(nesting := st.nesting[..|st.nesting| - 1], mode := ExpectValue)
  }

  lemma PoppedOk(path: string, st: State, i: nat, aim: Aim)
    requires st.Ok() && |st.nesting| > 0 && Along(path, st, aim)
    ensures Popped(st, i).Ok() && Popped(st, i).nesting == st.nesting[..|st.nesting| - 1]
            && Along(path, Popped(st, i), aim)
  {
    StillAlong(path, st, aim, Popped(st, i));
    hide Along;
  }

  lemma CloseStepIs(s: string, path: string, i: nat, st: State, c: char)
    requires st.Ok() && |st.nesting| > 0 && i < |s| && s[i] == c && c in {']', '}'}
    requires c as int == st.nesting[|st.nesting| - 1] as int + 2
    requires st.mode.ExpectCommaOrEnd? || (st.mode.ExpectKey? && c == '}') || (st.mode.ExpectValue? && c == ']')
    ensures Step(s, path, i, st) in {Return(NotFound), EndValue(path, Popped(st, i), i + 1)}
  {
  }

  lemma RunIsContinue(s: string, path: string, i: nat, st: State)
    requires st.Ok() && i < |s|
    ensures Run(s, path, i, st) == Continue(s, path, Step(s, path, i, st))
    ensures Step(s, path, i, st).Return? ==> Run(s, path, i, st) == Step(s, path, i, st).reply
  {
    hide Step;
  }

  /** The text of a key, white space and colon. */
  lemma HeadFate(s: string, path: string, i: nat, st: State, ms: Members, aim: Aim) returns (st': State)
    requires st.Ok() && st.mode.ExpectKey? && ms.Members? && ValidMembers(ms) && (aim.plain ==> PlainMembers(ms))
             && Along(path, st, aim)
    requires At(s, i, HeadText(ms))
    ensures st'.Ok() && st'.mode.ExpectValue? && st'.nesting == st.nesting && Along(path, st', aim)
    ensures Doomed(Run(s, path, i, st), aim) || Run(s, path, i, st) == Run(s, path, i + |HeadText(ms)|, st')
  {
    hide *;
    MissDoomed(aim);
    HeadPlaces(s, i, ms);
    PlainMemberParts(ms);
    var q := i + |ms.before|;
    BlankSkipped(s, path, i, st, ms.before);
    var e, named := KeyFate(s, path, q, st, ms.key, aim);
    ColonTraversed(s, path, e, named, ms);
    st' := named.(mode := ExpectValue);
    StillAlong(path, named, aim, st');
    ModeOk(named);
  }

  lemma ModeOk(st: State)
    requires st.Ok()
    ensures st.(mode := ExpectValue).Ok() && st.(mode := ExpectCommaOrEnd).Ok()
    ensures |st.nesting| > 0 ==> st.(mode := ExpectKey).Ok()
  {
  }

  lemma HeadPlaces(s: string, i: nat, ms: Members)
    requires ms.Members? && ValidMembers(ms) && At(s, i, HeadText(ms))
    ensures BlankText(ms.before) && ValidRaw(ms.key) && At(s, i, ms.before)
    ensures var q := i + |ms.before|;
            && At(s, q, Quoted(ms.key)) && At(s, q + |Quoted(ms.key)|, ms.beforeColon + (":" + ms.afterColon))
            && |HeadText(ms)| == |ms.before| + |Quoted(ms.key)| + |ms.beforeColon| + 1 + |ms.afterColon|
  {
    hide At, Quoted;
    AtSplit(s, i, ms.before, Quoted(ms.key) + (ms.beforeColon + (":" + ms.afterColon)));
    AtSplit(s, i + |ms.before|, Quoted(ms.key), ms.beforeColon + (":" + ms.afterColon));
  }

  lemma KeyFate(s: string, path: string, q: nat, st: State, key: seq<Unit>, aim: Aim)
    returns (e: nat, named: State)
    requires st.Ok() && st.mode.ExpectKey? && ValidRaw(key) && (aim.plain ==> PlainKey(key)) && Along(path, st, aim)
    requires At(s, q, Quoted(key))
    ensures e == q + |Quoted(key)| <= |s|
    ensures named.Ok() && named.mode.ExpectColon? && named.nesting == st.nesting && Along(path, named, aim)
    ensures Run(s, path, q, st) == NotFound || Run(s, path, q, st) == Run(s, path, e, named)
  {
    hide Run, Along, KeyOnPath, At, StringEnd, PrintRaw, ValidRaw, PlainKey;
    var n := |PrintRaw(key)|;
    AtSplit(s, q, "\"", PrintRaw(key) + "\"");
    AtIndex(s, q, "\"", 0);
    AtSplit(s, q + 1, PrintRaw(key), "\"");
    StringConsumed(s, q + 1, key);
    e := q + 1 + n + 1;
    named := Named(s, path, st, q + 1, q + 1 + n);
    if KeyOnPath(s, path, st, q + 1, q + 1 + n) {
      KeyMoves(s, path, st, aim, q + 1, key);
    } else {
      StillAlong(path, st, aim, named);
    }
    RunIsContinue(s, path, q, st);
    assert Step(s, path, q, st) in {Return(NotFound), Next(e, named)};
  }

  /** Any value, read in any state: the answer is given, or the automaton comes out behind it. */
  lemma {:induction false} ValueFate(s: string, path: string, i: nat, st: State, v: Value, aim: Aim)
    returns (st': State)
    requires st.Ok() && st.mode.ExpectValue? && Valid(v) && (aim.plain ==> PlainKeys(v))
             && |st.nesting| + Height(v) <= MAX_DEPTH
             && Along(path, st, aim)
    requires At(s, i, Print(v)) && Ends(s, i + |Print(v)|)
    ensures st'.Ok() && st'.mode.ExpectCommaOrEnd? && st'.nesting == st.nesting && Along(path, st', aim)
    ensures Doomed(Run(s, path, i, st), aim) || Run(s, path, i, st) == Run(s, path, i + |Print(v)|, st')
    decreases v, 2
  {
    hide *;
    if v.Array? || v.Object? {
      st' := ContainerFate(s, path, i, st, v, aim);
    } else {
      EnteredOk(path, st, i, aim);
      AtIn(s, i, Print(v));
      ScalarStep(s, path, i, st, v);
      st' := ValueEnds(s, path, Entered(st, i), i + |Print(v)|, aim);
    }
  }

  lemma EnteredOk(path: string, st: State, i: nat, aim: Aim)
    requires st.Ok() && Along(path, st, aim)
    ensures Entered(st, i).Ok() && Entered(st, i).nesting == st.nesting && Along(path, Entered(st, i), aim)
  {
    StillAlong(path, st, aim, Entered(st, i));
    hide Along;
  }

  lemma AtIn(s: string, i: nat, t: string)
    requires At(s, i, t)
    ensures i + |t| <= |s|
  {
  }

  lemma PlainParts(v: Value)
    ensures PlainKeys(v) ==> (v.Array? ==> PlainItems(v.items)) && (v.Object? ==> PlainMembers(v.members))
  {
  }

  lemma PlainItemParts(items: Items)
    ensures items.Items? && PlainItems(items) ==> PlainKeys(items.value) && PlainItems(items.rest)
  {
  }

  lemma PlainMemberParts(ms: Members)
    ensures ms.Members? && PlainMembers(ms) ==> PlainKey(ms.key) && PlainKeys(ms.value) && PlainMembers(ms.rest)
  {
  }

  lemma {:induction false} ContainerFate(s: string, path: string, i: nat, st: State, v: Value, aim: Aim)
    returns (st': State)
    requires v.Array? || v.Object?
    requires st.Ok() && st.mode.ExpectValue? && Valid(v) && (aim.plain ==> PlainKeys(v))
             && |st.nesting| + Height(v) <= MAX_DEPTH && Along(path, st, aim)
    requires At(s, i, Print(v))
    ensures st'.Ok() && st'.mode.ExpectCommaOrEnd? && st'.nesting == st.nesting && Along(path, st', aim)
    ensures Doomed(Run(s, path, i, st), aim) || Run(s, path, i, st) == Run(s, path, i + |Print(v)|, st')
    decreases v, 1
  {
    hide *;
    HeightInside(v);
    PlainParts(v);
    BodyOf(v);
    BracketPlaces(s, i, v);
    var close := i + 1 + |Body(v)|;
    if v.Object? {
      var st1 := OpenObjectFate(s, path, i, st, aim);
      var st2 := ObjectInside(s, path, i + 1, st1, v, aim);
      st' := CloseFate(s, path, close, st2, '}', aim);
      OutAgain(st, st1, '{');
    } else {
      var st1 := OpenArrayFate(s, path, i, st, aim);
      var st2 := ArrayInside(s, path, i + 1, st1, v, aim);
      st' := CloseFate(s, path, close, st2, ']', aim);
      OutAgain(st, st1, '[');
    }
  }

  lemma OutAgain(st: State, st1: State, open: char)
    requires st1.nesting == st.nesting + [open]
    ensures st1.nesting[..|st1.nesting| - 1] == st.nesting
  {
  }

  /** What stands between the braces. */
  lemma {:induction false} ObjectInside(s: string, path: string, i: nat, st: State, v: Value, aim: Aim)
    returns (st': State)
    requires v.Object? && ValidMembers(v.members) && BlankText(v.inner) && (aim.plain ==> PlainMembers(v.members))
    requires st.Ok() && st.mode.ExpectKey? && |st.nesting| > 0 && st.nesting[|st.nesting| - 1] == '{'
    requires |st.nesting| + HeightMembers(v.members) <= MAX_DEPTH && Along(path, st, aim)
    requires Body(v) == if v.members.NoMembers? then v.inner else PrintMembers(v.members)
    requires At(s, i, Body(v)) && At(s, i + |Body(v)|, "}")
    ensures st'.Ok() && st'.nesting == st.nesting && Along(path, st', aim)
    ensures st'.mode.ExpectCommaOrEnd? || st'.mode.ExpectKey?
    ensures Doomed(Run(s, path, i, st), aim) || Run(s, path, i, st) == Run(s, path, i + |Body(v)|, st')
    decreases v, 0
  {
    hide *;
    if v.members.NoMembers? {
      BlankSkipped(s, path, i, st, v.inner);
      st' := st;
    } else {
      st' := MembersFate(s, path, i, st, v.members, aim);
    }
  }

  /** What stands between the brackets. */
  lemma {:induction false} ArrayInside(s: string, path: string, i: nat, st: State, v: Value, aim: Aim)
    returns (st': State)
    requires v.Array? && ValidItems(v.items) && BlankText(v.inner) && (aim.plain ==> PlainItems(v.items))
    requires st.Ok() && st.mode.ExpectValue? && |st.nesting| > 0 && st.nesting[|st.nesting| - 1] == '['
    requires |st.nesting| + HeightItems(v.items) <= MAX_DEPTH && Along(path, st, aim)
    requires Body(v) == if v.items.NoItems? then v.inner else PrintItems(v.items)
    requires At(s, i, Body(v)) && At(s, i + |Body(v)|, "]")
    ensures st'.Ok() && st'.nesting == st.nesting && Along(path, st', aim)
    ensures st'.mode.ExpectCommaOrEnd? || st'.mode.ExpectValue?
    ensures Doomed(Run(s, path, i, st), aim) || Run(s, path, i, st) == Run(s, path, i + |Body(v)|, st')
    decreases v, 0
  {
    hide *;
    if v.items.NoItems? {
      BlankSkipped(s, path, i, st, v.inner);
      st' := st;
    } else {
      st' := ItemsFate(s, path, i, st, v.items, aim);
    }
  }

  lemma {:induction false} ItemsFate(s: string, path: string, i: nat, st: State, items: Items, aim: Aim)
    returns (st': State)
    requires st.Ok() && st.mode.ExpectValue? && items.Items? && ValidItems(items) && (aim.plain ==> PlainItems(items))
             && Along(path, st, aim)
    requires |st.nesting| + HeightItems(items) <= MAX_DEPTH && |st.nesting| > 0 && st.nesting[|st.nesting| - 1] == '['
    requires At(s, i, PrintItems(items)) && At(s, i + |PrintItems(items)|, "]")
    ensures st'.Ok() && st'.mode.ExpectCommaOrEnd? && st'.nesting == st.nesting && Along(path, st', aim)
    ensures Doomed(Run(s, path, i, st), aim) || Run(s, path, i, st) == Run(s, path, i + |PrintItems(items)|, st')
    decreases items, 0
  {
    hide *;
    ItemParts(items);
    PlainItemParts(items);
    ItemsSplit(s, i, items);
    BlankSkipped(s, path, i, st, items.before);
    var e := i + |items.before| + |Print(items.value)|;
    var k := e + |items.after|;
    st' := ValueFate(s, path, i + |items.before|, st, items.value, aim);
    BlankSkipped(s, path, e, st', items.after);
    if items.rest.Items? {
      CommaStep(s, path, k, st');
      var next := st'.(mode := ExpectValue);
      ModeOk(st');
      StillAlong(path, st', aim, next);
      st' := ItemsFate(s, path, k + 1, next, items.rest, aim);
    }
  }

  lemma {:induction false} MembersFate(s: string, path: string, i: nat, st: State, ms: Members, aim: Aim)
    returns (st': State)
    requires st.Ok() && st.mode.ExpectKey? && ms.Members? && ValidMembers(ms) && (aim.plain ==> PlainMembers(ms))
             && Along(path, st, aim)
    requires |st.nesting| + HeightMembers(ms) <= MAX_DEPTH && |st.nesting| > 0 && st.nesting[|st.nesting| - 1] == '{'
    requires At(s, i, PrintMembers(ms)) && At(s, i + |PrintMembers(ms)|, "}")
    ensures st'.Ok() && st'.mode.ExpectCommaOrEnd? && st'.nesting == st.nesting && Along(path, st', aim)
    ensures Doomed(Run(s, path, i, st), aim) || Run(s, path, i, st) == Run(s, path, i + |PrintMembers(ms)|, st')
    decreases ms, 0
  {
    hide *;
    MemberParts(ms);
    PlainMemberParts(ms);
    MembersSplit(s, i, ms);
    var v := i + |HeadText(ms)|;
    var e := v + |Print(ms.value)|;
    var k := e + |ms.after|;
    var st1 := HeadFate(s, path, i, st, ms, aim);
    st' := ValueFate(s, path, v, st1, ms.value, aim);
    BlankSkipped(s, path, e, st', ms.after);
    if ms.rest.Members? {
      CommaStep(s, path, k, st');
      var next := st'.(mode := ExpectKey);
      ModeOk(st');
      StillAlong(path, st', aim, next);
      st' := MembersFate(s, path, k + 1, next, ms.rest, aim);
    }
  }
}
