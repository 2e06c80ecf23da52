/** For every path with an empty member name, documents in which `json_get` answers with the first
    member of an object, whatever its key. */
module JsonLure {
  import opened Sequences
  import opened Wrappers
  import opened Json
  import opened JsonDoc
  import opened JsonTokens
  import opened JsonTraversal
  import opened JsonLookup
  import opened JsonMissing
  import opened JsonTrap

  const FALSE := Literal("false")

  /** `{"x":u` and the members after it. */
  function Disguised(u: Value, more: Members): Value {
    Object("", Members("", KeyOf("x"), "", "", u, "", more))
  }

  /** The value that the path should select, under the empty key. */
  function Genuine(v: Value, both: bool): Members {
    if both then Members("", [], "", "", v, "", NoMembers) else NoMembers
  }

  /** Along `path` to a `false`, with a key in the place of every empty name; where `both` holds the path
      selects a `null` behind it. */
  function Lure(path: seq<Segment>, both: bool): Value
    decreases |path|
  {
    if path == [] then FALSE
    else match path[0]
      case Member(name) =>
        if name == "" then Disguised(Lure(path[1..], both), Genuine(Resolving(path[1..]), both))
        else Single(name, Lure(path[1..], both))
      case Index(n) => Array("", Nulls(n, One(Lure(path[1..], both), NoItems)))
  }

  lemma DisguisedFine(u: Value, more: Members)
    requires Valid(u) && ValidMembers(more)
    ensures var v := Disguised(u, more);
            && Valid(v) && Height(v) == 1 + Max(Height(u), HeightMembers(more)) && PrintRaw(KeyOf("x")) == "x"
            && ValidRaw(KeyOf("x")) && FindMember(v.members, "") == FindMember(more, "")
            && (PlainKeys(u) && PlainMembers(more) ==> PlainKeys(v))
  {
    KeyOfName("x");
  }

  lemma GenuineFine(v: Value, both: bool)
    requires Valid(v)
    ensures var ms := Genuine(v, both);
            && ValidMembers(ms) && HeightMembers(ms) <= Height(v)
            && FindMember(ms, "") == (if both then Some(v) else None)
            && (PlainKeys(v) ==> PlainMembers(ms))
  {
  }

  lemma {:induction false} LureFine(path: seq<Segment>, both: bool)
    requires ValidPath(path) && Writable(path)
    ensures Valid(Lure(path, both)) && Height(Lure(path, both)) == |path| && PlainKeys(Lure(path, both))
    ensures !AllNamed(path) ==> Select(Lure(path, both), path) == if both then Some(NULL) else None
    decreases |path|
  {
    if path != [] {
      PathTail(path);
      var rest := path[1..];
      var u := Lure(rest, both);
      LureFine(rest, both);
      assert path == [path[0]] + rest;
      NamedHead(path[0], rest);
      hide AllNamed, Writable, ValidPath, Nulls, Genuine, Disguised, Resolving, Single, KeyOf;
      match path[0]
      case Member(name) =>
        if name == "" {
          LureUnnamed(rest, both);
        } else {
          KeyOfName(name);
          SingleFine(name, u);
        }
      case Index(n) =>
        OneFine(u, NoItems);
        NullsFine(n, One(u, NoItems));
        FindAfterNulls(n, One(u, NoItems), 0);
    }
  }

  lemma LureUnnamed(rest: seq<Segment>, both: bool)
    requires ValidPath(rest) && Writable(rest) && Valid(Lure(rest, both)) && Height(Lure(rest, both)) == |rest|
    requires PlainKeys(Lure(rest, both))
    ensures var v := Disguised(Lure(rest, both), Genuine(Resolving(rest), both));
            && Valid(v) && Height(v) == 1 + |rest| && PlainKeys(v) && v.Object?
            && FindMember(v.members, "") == if both then Some(Resolving(rest)) else None
    ensures Select(Resolving(rest), rest) == Some(NULL)
  {
    hide Valid, Height, PlainKeys, Lure, Resolving, Writable, ValidPath, KeyOf;
    ResolvingFine(rest);
    GenuineFine(Resolving(rest), both);
    DisguisedFine(Lure(rest, both), Genuine(Resolving(rest), both));
  }

  lemma NamedHead(seg: Segment, rest: seq<Segment>)
    ensures AllNamed([seg] + rest) <==> AllNamed(rest) && (seg.Member? ==> seg.name != "")
  {
    if AllNamed([seg] + rest) {
      NamedTail(seg, rest);
    }
  }

  // ----- the automaton in the lure

  /** A first member with any key stands for an empty name. */
  lemma DisguiseTaken(s: string, path: string, i: nat, st: State, rest: seq<Segment>, u: Value, more: Members)
    returns (k: nat, st1: State)
    requires OnPath(path, st, [Member("")] + rest) && |st.nesting| < MAX_DEPTH && Valid(u) && ValidMembers(more)
    requires At(s, i, Print(Disguised(u, more)))
    ensures At(s, k, Print(u)) && Ends(s, k + |Print(u)|) && OnPath(path, st1, rest)
    ensures |st1.nesting| == |st.nesting| + 1 && Run(s, path, i, st) == Run(s, path, k, st1)
  {
    hide *;
    var v := Disguised(u, more);
    DisguisedFine(u, more);
    DisguisedShape(u, more);
    OnPathState(path, st, [Member("")] + rest);
    ObjectText(s, i, v);
    var st0 := OpenMember(s, path, i, st, "", rest);
    MembersSplit(s, i + 1, v.members);
    EmptyNameGone(path, st0, rest);
    AnyKeyStands(s, path, i + 1, st0, v.members, rest);
    st1 := st0.(mode := ExpectValue);
    k := i + 1 + |HeadText(v.members)|;
  }

  lemma DisguisedShape(u: Value, more: Members)
    ensures var v := Disguised(u, more);
            v.Object? && v.members.Members? && v.members.value == u && v.members.key == KeyOf("x")
  {
    hide KeyOf;
  }

  lemma EmptyNameGone(path: string, st: State, rest: seq<Segment>)
    requires st.Ok() && |st.nesting| == st.ed && AtName(path, st.pos, "", rest)
    ensures st.AtDepth() && RestOfPath(path, st.pos, rest) && ValidPath(rest)
  {
    hide RestOfPath, ValidPath;
  }

  lemma AnyKeyStands(s: string, path: string, i: nat, st: State, ms: Members, rest: seq<Segment>)
    requires st.Ok() && st.mode.ExpectKey? && st.AtDepth() && st.ci == st.ei && PathAt(path, st.pos - 1) == '.'
    requires RestOfPath(path, st.pos, rest) && ValidPath(rest)
    requires ms.Members? && ValidMembers(ms) && PrintRaw(ms.key) == "x" && At(s, i, HeadText(ms))
    ensures OnPath(path, st.(mode := ExpectValue), rest)
    ensures Run(s, path, i, st) == Run(s, path, i + |HeadText(ms)|, st.(mode := ExpectValue))
  {
    hide Run, At, RestOfPath, HeadText, KeyOnPath, PrintRaw, ValidMembers, ValidPath, PathAt, Quoted;
    HeadTraversed(s, path, i, st, ms);
    var k := i + |ms.before| + 1;
    PathHead(path, st.pos, rest);
    KeyText(s, k - 1, ms.key);
    KeyRefusedHere(s, path, st, k);
  }

  lemma KeyText(s: string, q: nat, key: seq<Unit>)
    requires At(s, q, Quoted(key)) && PrintRaw(key) == "x"
    ensures q + 1 < |s| && s[q + 1] == 'x'
  {
    assert Quoted(key)[1] == 'x';
    AtIndex(s, q, Quoted(key), 1);
  }

  lemma KeyRefusedHere(s: string, path: string, st: State, k: nat)
    requires st.Ok() && k < |s| && PathAt(path, st.pos) in {'\0', '.', '['} && s[k] == 'x'
    ensures !KeyOnPath(s, path, st, k, k + 1)
  {
    if st.pos < |path| {
      assert s[k..k + 1][0] == 'x' && path[st.pos..st.pos + 1][0] == path[st.pos];
    }
  }

  lemma {:induction false} LureTaken(s: string, path: string, i: nat, st: State, segs: seq<Segment>, both: bool)
    requires OnPath(path, st, segs) && Writable(segs) && |st.nesting| + |segs| <= MAX_DEPTH
    requires At(s, i, Print(Lure(segs, both))) && Ends(s, i + |Print(Lure(segs, both))|)
    ensures Run(s, path, i, st).Found? && Run(s, path, i, st).len == |Print(FALSE)|
    decreases |segs|, 0, 0
  {
    LureShape(segs, both);
    hide Run, At, Print, RestOfPath, Lure, Disguised, Single, Nulls, Ends, Genuine, KeyOf;
    OnPathState(path, st, segs);
    if segs == [] {
      LeafTaken(s, path, i, st);
    } else {
      PathTail(segs);
      var rest := segs[1..];
      var u := Lure(rest, both);
      LureFine(rest, both);
      assert segs == [segs[0]] + rest;
      match segs[0]
      case Member(name) =>
        var k, st1;
        if name == "" {
          ResolvingFine(rest);
          GenuineFine(Resolving(rest), both);
          k, st1 := DisguiseTaken(s, path, i, st, rest, u, Genuine(Resolving(rest), both));
        } else {
          KeyOfName(name);
          k, st1 := TrapMember(s, path, i, st, name, rest, u);
        }
        LureTaken(s, path, k, st1, rest, both);
      case Index(n) =>
        var items := Nulls(n, One(u, NoItems));
        var st1 := ArrayEntered(s, path, i, st, Array("", items), n, rest);
        NullsNotEmpty(n, One(u, NoItems));
        LureItems(s, path, i + 1, st1, n, rest, both);
    }
  }

  lemma LureShape(segs: seq<Segment>, both: bool)
    ensures segs == [] ==> Lure(segs, both) == FALSE
    ensures segs != [] && segs[0].Index? ==>
              Lure(segs, both) == Array("", Nulls(segs[0].n, One(Lure(segs[1..], both), NoItems)))
    ensures segs != [] && segs[0].Member? ==>
              var name, rest := segs[0].name, segs[1..];
              Lure(segs, both) == if name == "" then Disguised(Lure(rest, both), Genuine(Resolving(rest), both))
                                  else Single(name, Lure(rest, both))
  {
  }

  lemma LeafTaken(s: string, path: string, i: nat, st: State)
    requires OnPath(path, st, []) && At(s, i, Print(FALSE)) && Ends(s, i + |Print(FALSE)|)
    ensures Run(s, path, i, st).Found? && Run(s, path, i, st).len == |Print(FALSE)|
  {
    hide Run, At;
    PathHead(path, st.pos, []);
    ValueTraversed(s, path, i, st, FALSE);
  }

  lemma {:induction false} LureItems(s: string, path: string, i: nat, st: State, n: nat, rest: seq<Segment>, both: bool)
    requires ValidPath(rest) && Writable(rest) && RestOfPath(path, st.pos, rest)
    requires st.Ok() && st.mode.ExpectValue? && st.AtDepth() && st.ci >= 0 && st.ei == st.ci + n
    requires |st.nesting| > 0 && st.nesting[|st.nesting| - 1] == '[' && |st.nesting| + |rest| <= MAX_DEPTH
    requires var items := Nulls(n, One(Lure(rest, both), NoItems));
             At(s, i, PrintItems(items)) && At(s, i + |PrintItems(items)|, "]")
    ensures Run(s, path, i, st).Found? && Run(s, path, i, st).len == |Print(FALSE)|
    decreases |rest|, 1, n
  {
    hide Run, At, PrintItems, RestOfPath, Lure, Print, Writable;
    var last := One(Lure(rest, both), NoItems);
    LureFine(rest, both);
    OneFine(Lure(rest, both), NoItems);
    if n > 0 {
      NullsFine(n - 1, last);
      NullsNotEmpty(n - 1, last);
      var st1 := NullPassed(s, path, i, st, Nulls(n - 1, last));
      LureItems(s, path, i + 5, st1, n - 1, rest, both);
    } else {
      ItemsSplit(s, i, last);
      LureTaken(s, path, i, st, rest, both);
    }
  }
}
