/** For every path with a member name before its last segment, documents in which `json_get` takes a key with
    a dot or a bracket for that name and all that comes after it. */
module JsonDots {
  import opened Sequences
  import opened Wrappers
  import opened Json
  import opened JsonDoc
  import opened JsonTraversal
  import opened JsonLookup
  import opened JsonMissing
  import opened JsonTrap
  import opened JsonLure
  import opened JsonFate

  /** The text of `name` and of what follows it in the path. */
  function Joined(name: string, rest: seq<Segment>): string { name + PrintSegments(rest) }

  /** The member that the path should select, under its own name. */
  function Rightful(name: string, v: Value, both: bool): Members {
    if both then Members("", KeyOf(name), "", "", v, "", NoMembers) else NoMembers
  }

  /** `{"name.rest":false` and the rightful member after it. */
  function Usurped(name: string, rest: seq<Segment>, both: bool): Value {
    Object("", Members("", KeyOf(Joined(name, rest)), "", "", FALSE, "", Rightful(name, Resolving(rest), both)))
  }

  /** Along the indices of the path to its first member name; where `both` holds the path selects a `null`. */
  function Dotted(path: seq<Segment>, both: bool): Value
    requires !MemberOnlyLast(path)
    decreases |path|
  {
    match path[0]
    case Member(name) => Usurped(name, path[1..], both)
    case Index(n) => MemberLater(path); Array("", Nulls(n, One(Dotted(path[1..], both), NoItems)))
  }

  lemma MemberLater(path: seq<Segment>)
    requires !MemberOnlyLast(path) && path[0].Index?
    ensures !MemberOnlyLast(path[1..])
  {
    var k :| 0 <= k < |path| - 1 && !path[k].Index?;
    assert path[1..][k - 1] == path[k];
  }

  // ----- the key

  lemma {:induction false} RawJoin(a: string, b: string)
    requires RawText(a) && RawText(b)
    ensures RawText(a + b)
    decreases |a|
  {
    var t := a + b;
    if a == "" {
      assert t == b;
    } else if a[0] == '\\' {
      assert t[2..] == a[2..] + b;
      RawJoin(a[2..], b);
    } else {
      assert t[1..] == a[1..] + b;
      RawJoin(a[1..], b);
    }
  }

  lemma {:induction false} RawPlain(t: string)
    requires forall k :: 0 <= k < |t| ==> ValidUnit(Plain(t[k]))
    ensures RawText(t)
    decreases |t|
  {
    if t != "" {
      RawPlain(t[1..]);
    }
  }

  lemma SegmentRaw(seg: Segment)
    requires seg.Member? ==> KeyName(seg.name)
    ensures RawText(PrintSegment(seg))
  {
    match seg
    case Member(name) =>
      RawPlain(".");
      RawJoin(".", name);
    case Index(n) => RawPlain("[" + Decimal(n) + "]");
  }

  lemma {:induction false} SegmentsRaw(segs: seq<Segment>)
    requires Writable(segs)
    ensures RawText(PrintSegments(segs))
    decreases |segs|
  {
    if segs != [] {
      SegmentRaw(segs[0]);
      SegmentsRaw(segs[1..]);
      RawJoin(PrintSegment(segs[0]), PrintSegments(segs[1..]));
    }
  }

  /** A valid key, and not the name itself. */
  lemma JoinedKey(name: string, rest: seq<Segment>)
    requires KeyName(name) && Writable(rest) && rest != []
    ensures var key := KeyOf(Joined(name, rest));
            PrintRaw(key) == Joined(name, rest) && ValidRaw(key) && PrintRaw(key) != name
  {
    SegmentsRaw(rest);
    hide RawText;
    RawJoin(name, PrintSegments(rest));
    KeyOfText(Joined(name, rest));
    assert |PrintSegments(rest)| >= |PrintSegment(rest[0])| > 0;
  }

  // ----- the documents

  lemma UsurpedFine(name: string, rest: seq<Segment>, both: bool)
    requires KeyName(name) && ValidPath(rest) && Writable(rest) && rest != []
    ensures var v := Usurped(name, rest, both);
            && Valid(v) && Height(v) == 1 + (if both then |rest| else 0)
            && Select(v, [Member(name)] + rest) == if both then Some(NULL) else None
  {
    hide *;
    JoinedKey(name, rest);
    KeyOfName(name);
    ResolvingFine(rest);
    var u := Resolving(rest);
    RightfulFine(name, u, both);
    UsurpedShape(name, rest, both);
    FirstIsOther(KeyOf(Joined(name, rest)), Rightful(name, u, both), name);
    MemberSelected(Usurped(name, rest, both), name, rest);
  }

  lemma FirstIsOther(key: seq<Unit>, more: Members, name: string)
    requires ValidRaw(key) && PrintRaw(key) != name && ValidMembers(more)
    ensures var v := Object("", Members("", key, "", "", FALSE, "", more));
            Valid(v) && Height(v) == 1 + HeightMembers(more) && FindMember(v.members, name) == FindMember(more, name)
  {
    hide PrintRaw, ValidRaw;
    var ms := Members("", key, "", "", FALSE, "", more);
    assert Valid(FALSE) && Height(FALSE) == 0;
    assert ValidMembers(ms) && HeightMembers(ms) == Max(Height(FALSE), HeightMembers(more));
  }

  lemma MemberSelected(v: Value, name: string, rest: seq<Segment>)
    requires v.Object?
    ensures var u := FindMember(v.members, name);
            Select(v, [Member(name)] + rest) == if u.None? then None else Select(u.value, rest)
  {
    assert ([Member(name)] + rest)[1..] == rest;
  }

  lemma RightfulFine(name: string, v: Value, both: bool)
    requires Valid(v) && PrintRaw(KeyOf(name)) == name && ValidRaw(KeyOf(name))
    ensures var ms := Rightful(name, v, both);
            && ValidMembers(ms) && HeightMembers(ms) == (if both then Height(v) else 0)
            && FindMember(ms, name) == if both then Some(v) else None
  {
  }

  lemma {:induction false} DottedFine(path: seq<Segment>, both: bool)
    requires !MemberOnlyLast(path) && ValidPath(path) && Writable(path)
    ensures var v := Dotted(path, both);
            && Valid(v) && Height(v) == (if both then |path| else Levels(path))
            && Select(v, path) == if both then Some(NULL) else None
    decreases |path|
  {
    PathTail(path);
    var rest := path[1..];
    assert path == [path[0]] + rest;
    hide Writable, ValidPath, Nulls, Usurped, MemberOnlyLast;
    match path[0]
    case Member(name) =>
      NotTheLast(path);
      UsurpedFine(name, rest, both);
    case Index(n) =>
      MemberLater(path);
      DottedFine(rest, both);
      var u := Dotted(rest, both);
      OneFine(u, NoItems);
      NullsFine(n, One(u, NoItems));
      FindAfterNulls(n, One(u, NoItems), 0);
  }

  lemma NotTheLast(path: seq<Segment>)
    requires !MemberOnlyLast(path)
    ensures |path| >= 2 && path[1..] != []
  {
  }

  // ----- the automaton in them

  /** The joined key moves the path to its end. */
  lemma JoinedMoves(s: string, path: string, st: State, k: nat, name: string, rest: seq<Segment>)
    requires st.Ok() && st.mode.ExpectKey? && st.AtDepth() && st.ci == st.ei && PathAt(path, st.pos - 1) == '.'
    requires AtName(path, st.pos, name, rest) && At(s, k, Joined(name, rest))
    ensures var n := |Joined(name, rest)|;
            && k + n <= |s| && KeyOnPath(s, path, st, k, k + n)
            && OnPath(path, st.(pos := st.pos + n, mode := ExpectValue), [])
  {
    hide PrintSegments;
    var n := |Joined(name, rest)|;
    assert At(path, st.pos, Joined(name, rest)) by {
      JoinedAt(path, st.pos, name, PrintSegments(rest));
    }
    SpelledAt(s, k, Joined(name, rest));
    SpelledAt(path, st.pos, Joined(name, rest));
    hide At;
    NoMoreSegments(path);
    assert st.pos + n == |path|;
  }

  lemma JoinedAt(s: string, i: nat, a: string, b: string)
    requires At(s, i, a) && At(s, i + |a|, b)
    ensures At(s, i, a + b)
  {
  }

  lemma NoMoreSegments(path: string)
    ensures RestOfPath(path, |path|, [])
  {
  }

  lemma UsurperTaken(s: string, path: string, i: nat, st: State, name: string, rest: seq<Segment>, both: bool)
    requires OnPath(path, st, [Member(name)] + rest) && KeyName(name) && Writable(rest) && ValidPath(rest) && rest != []
    requires |st.nesting| < MAX_DEPTH && At(s, i, Print(Usurped(name, rest, both)))
    ensures Run(s, path, i, st).Found? && Run(s, path, i, st).len == |Print(FALSE)|
  {
    hide *;
    var v := Usurped(name, rest, both);
    UsurpedFine(name, rest, both);
    UsurpedShape(name, rest, both);
    JoinedKey(name, rest);
    OnPathState(path, st, [Member(name)] + rest);
    ObjectText(s, i, v);
    var st0 := OpenMember(s, path, i, st, name, rest);
    var ms := v.members;
    MembersSplit(s, i + 1, ms);
    HeadTraversed(s, path, i + 1, st0, ms);
    HeadPlaces(s, i + 1, ms);
    var k := i + 1 + |ms.before| + 1;
    QuotedText(s, k - 1, ms.key);
    DepthIs(st0);
    JoinedMoves(s, path, st0, k, name, rest);
    NamedIs(s, path, st0, k, k + |PrintRaw(ms.key)|);
    LeafTaken(s, path, i + 1 + |HeadText(ms)|, st0.(pos := st0.pos + |PrintRaw(ms.key)|, mode := ExpectValue));
  }

  lemma UsurpedShape(name: string, rest: seq<Segment>, both: bool)
    ensures var v := Usurped(name, rest, both);
            && v.Object? && v.members.Members? && v.members.value == FALSE && v.members.key == KeyOf(Joined(name, rest))
            && v == Object("", Members("", KeyOf(Joined(name, rest)), "", "", FALSE, "",
                                       Rightful(name, Resolving(rest), both)))
  {
    hide KeyOf;
  }

  lemma QuotedText(s: string, q: nat, key: seq<Unit>)
    requires At(s, q, Quoted(key))
    ensures At(s, q + 1, PrintRaw(key))
  {
    AtSplit(s, q, "\"", PrintRaw(key) + "\"");
    AtSplit(s, q + 1, PrintRaw(key), "\"");
  }

  lemma NamedIs(s: string, path: string, st: State, k: nat, e: nat)
    requires st.Ok() && k <= e <= |s| && KeyOnPath(s, path, st, k, e)
    ensures Named(s, path, st, k, e).(mode := ExpectValue) == st.(pos := st.pos + (e - k), mode := ExpectValue)
  {
    hide KeyOnPath;
  }

  lemma {:induction false} DottedTaken(s: string, path: string, i: nat, st: State, segs: seq<Segment>, both: bool)
    requires !MemberOnlyLast(segs) && OnPath(path, st, segs) && Writable(segs)
    requires |st.nesting| + Height(Dotted(segs, both)) <= MAX_DEPTH
    requires At(s, i, Print(Dotted(segs, both)))
    ensures Run(s, path, i, st).Found? && Run(s, path, i, st).len == |Print(FALSE)|
    decreases |segs|, 1, 0
  {
    hide *;
    OnPathState(path, st, segs);
    NotTheLast(segs);
    PathTail(segs);
    DottedShape(segs, both);
    var rest := segs[1..];
    assert segs == [segs[0]] + rest;
    match segs[0]
    case Member(name) =>
      UsurperTaken(s, path, i, st, name, rest, both);
    case Index(n) =>
      var u := Dotted(rest, both);
      DottedFine(rest, both);
      ItemsHeight(n, u);
      var items := Nulls(n, One(u, NoItems));
      var st1 := ArrayEntered(s, path, i, st, Array("", items), n, rest);
      ListNotEmpty(n, u);
      DepthIs(st1);
      LastOf(st1, st.nesting);
      DottedItems(s, path, i + 1, st1, n, rest, both);
  }

  lemma DottedShape(segs: seq<Segment>, both: bool)
    requires !MemberOnlyLast(segs)
    ensures segs[0].Member? ==> Dotted(segs, both) == Usurped(segs[0].name, segs[1..], both)
    ensures segs[0].Index? ==>
              && !MemberOnlyLast(segs[1..])
              && Dotted(segs, both) == Array("", Nulls(segs[0].n, One(Dotted(segs[1..], both), NoItems)))
    ensures Height(Dotted(segs, both)) > 0
  {
    if segs[0].Index? {
      MemberLater(segs);
    }
  }

  lemma ItemsHeight(n: nat, u: Value)
    requires Valid(u)
    ensures Height(Array("", Nulls(n, One(u, NoItems)))) == 1 + Height(u)
  {
    OneFine(u, NoItems);
    NullsFine(n, One(u, NoItems));
  }

  lemma ListNotEmpty(n: nat, u: Value)
    ensures Nulls(n, One(u, NoItems)).Items?
  {
    NullsNotEmpty(n, One(u, NoItems));
  }

  lemma LastOf(st: State, nesting: seq<char>)
    requires st.nesting == nesting + ['['] && st.Ok()
    ensures |st.nesting| > 0 && st.nesting[|st.nesting| - 1] == '['
  {
  }

  lemma {:induction false} DottedItems(s: string, path: string, i: nat, st: State, n: nat, rest: seq<Segment>,
                                       both: bool)
    requires !MemberOnlyLast(rest) && ValidPath(rest) && Writable(rest) && RestOfPath(path, st.pos, rest)
    requires st.Ok() && st.mode.ExpectValue? && st.AtDepth() && st.ci >= 0 && st.ei == st.ci + n
    requires |st.nesting| > 0 && st.nesting[|st.nesting| - 1] == '['
    requires |st.nesting| + Height(Dotted(rest, both)) <= MAX_DEPTH
    requires var items := Nulls(n, One(Dotted(rest, both), NoItems));
             At(s, i, PrintItems(items)) && At(s, i + |PrintItems(items)|, "]")
    ensures Run(s, path, i, st).Found? && Run(s, path, i, st).len == |Print(FALSE)|
    decreases |rest|, 2, n
  {
    hide Run, At, PrintItems, RestOfPath, Dotted, Print, Writable, MemberOnlyLast, Height;
    var last := One(Dotted(rest, both), NoItems);
    DottedFine(rest, both);
    OneFine(Dotted(rest, both), NoItems);
    if n > 0 {
      NullsFine(n - 1, last);
      NullsNotEmpty(n - 1, last);
      var st1 := NullPassed(s, path, i, st, Nulls(n - 1, last));
      DottedItems(s, path, i + 5, st1, n - 1, rest, both);
    } else {
      ItemsSplit(s, i, last);
      DottedTaken(s, path, i, st, rest, both);
    }
  }
}
