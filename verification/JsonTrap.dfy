/** For every path with an index before its last segment, a document in which lookup fails and
    `json_get` answers all the same, with a value the path does not select. */
module JsonTrap {
  import opened Sequences
  import opened Wrappers
  import opened Json
  import opened JsonDoc
  import opened JsonTokens
  import opened JsonTraversal
  import opened JsonLookup
  import opened JsonMissing

  /** The raw text of a string: plain characters, and backslashes with what follows them. */
  predicate RawText(t: string)
    decreases |t|
  {
    if t == "" then true
    else if t[0] == '\\' then |t| >= 2 && ValidUnit(Escape(t[1])) && RawText(t[2..])
    else ValidUnit(Plain(t[0])) && RawText(t[1..])
  }

  /** Neither of the characters that a path segment begins with. */
  predicate Unbroken(t: string) { '.' !in t && '[' !in t }

  /** The raw text of a plain key. */
  predicate KeyName(name: string) { RawText(name) && Unbroken(name) }

  /** All its names can be keys of a document. */
  predicate Writable(path: seq<Segment>) {
    forall k :: 0 <= k < |path| && path[k].Member? ==> KeyName(path[k].name)
  }

  const NULL := Literal("null")

  function KeyOf(name: string): seq<Unit>
    decreases |name|
  {
    if name == "" then []
    else if name[0] == '\\' && |name| >= 2 then [Escape(name[1])] + KeyOf(name[2..])
    else [Plain(name[0])] + KeyOf(name[1..])
  }

  function Single(name: string, v: Value): Value {
    Object("", Members("", KeyOf(name), "", "", v, "", NoMembers))
  }

  /** `n` nulls in front of `tail`. */
  function Nulls(n: nat, tail: Items): Items {
    if n == 0 then tail else Items("", NULL, "", Nulls(n - 1, tail))
  }

  function One(v: Value, rest: Items): Items { Items("", v, "", rest) }

  /** The smallest document in which `path` selects something. */
  function Resolving(path: seq<Segment>): Value
    decreases |path|
  {
    if path == [] then NULL
    else match path[0]
      case Member(name) => Single(name, Resolving(path[1..]))
      case Index(n) => Array("", Nulls(n, One(Resolving(path[1..]), NoItems)))
  }

  /** A container that just lacks `seg`: an empty object, or an array one item too short. */
  function Bait(seg: Segment): Value {
    match seg
    case Member(_) => Object("", NoMembers)
    case Index(n) => Array("", Nulls(n, NoItems))
  }

  function Decoy(path: seq<Segment>): Value
    requires path != []
  {
    match path[0]
    case Member(name) => Resolving(path)
    case Index(_) => Array("", One(Resolving(path[1..]), NoItems))
  }

  function Trap(path: seq<Segment>): Value
    requires !IndexOnlyLast(path)
    decreases |path|
  {
    match path[0]
    case Member(name) => TailNotLast(path); Single(name, Trap(path[1..]))
    case Index(n) => Array("", Nulls(n, One(Bait(path[1]), One(Decoy(path[1..]), NoItems))))
  }

  lemma TailNotLast(path: seq<Segment>)
    requires !IndexOnlyLast(path) && path[0].Member?
    ensures !IndexOnlyLast(path[1..])
  {
    var k :| 0 <= k < |path| - 1 && !path[k].Member?;
    assert path[1..][k - 1] == path[k];
  }

  lemma KeyOfHead(t: string) returns (n: nat, u: Unit)
    requires RawText(t) && t != ""
    ensures 0 < n <= |t| && PrintUnit(u) == t[..n] && ValidUnit(u)
    ensures RawText(t[n..]) && KeyOf(t) == [u] + KeyOf(t[n..])
  {
    n := if t[0] == '\\' then 2 else 1;
    u := if t[0] == '\\' then Escape(t[1]) else Plain(t[0]);
  }

  lemma {:induction false} KeyOfText(t: string)
    requires RawText(t)
    ensures PrintRaw(KeyOf(t)) == t && ValidRaw(KeyOf(t))
    decreases |t|
  {
    if t != "" {
      hide *;
      var n, u := KeyOfHead(t);
      KeyOfText(t[n..]);
      UnitThenRest(u, KeyOf(t[n..]));
      assert t == t[..n] + t[n..];
    }
  }

  lemma UnitThenRest(u: Unit, rest: seq<Unit>)
    requires ValidUnit(u) && ValidRaw(rest)
    ensures var key := [u] + rest;
            PrintRaw(key) == PrintUnit(u) + PrintRaw(rest) && ValidRaw(key)
  {
    assert ([u] + rest)[1..] == rest;
  }

  lemma {:induction false} TextOfKey(key: seq<Unit>)
    requires ValidRaw(key)
    ensures RawText(PrintRaw(key))
    decreases |key|
  {
    if key != [] {
      TextOfKey(key[1..]);
      assert ValidUnit(key[0]) && key[0] in key;
      var name, n := PrintRaw(key), |PrintUnit(key[0])|;
      assert name[n..] == PrintRaw(key[1..]);
    }
  }

  /** A key is plain exactly when its text is unbroken. */
  lemma {:induction false} PlainKeyIff(key: seq<Unit>)
    requires ValidRaw(key)
    ensures PlainKey(key) <==> Unbroken(PrintRaw(key))
    decreases |key|
  {
    if key != [] {
      PlainKeyIff(key[1..]);
      assert ValidUnit(key[0]) && key == [key[0]] + key[1..];
      var u := PrintUnit(key[0]);
      assert PrintRaw(key) == u + PrintRaw(key[1..]);
      assert Unbroken(u) <==> key[0] !in {Plain('.'), Plain('[')};
    }
  }

  lemma KeyOfName(name: string)
    requires KeyName(name)
    ensures PrintRaw(KeyOf(name)) == name && ValidRaw(KeyOf(name)) && PlainKey(KeyOf(name))
  {
    KeyOfText(name);
    PlainKeyIff(KeyOf(name));
  }

  lemma NameOfKey(key: seq<Unit>)
    requires ValidRaw(key) && PlainKey(key)
    ensures KeyName(PrintRaw(key))
  {
    TextOfKey(key);
    PlainKeyIff(key);
  }

  lemma SingleFine(name: string, v: Value)
    requires Valid(v) && PrintRaw(KeyOf(name)) == name && ValidRaw(KeyOf(name)) && PlainKey(KeyOf(name))
    ensures Valid(Single(name, v)) && Height(Single(name, v)) == 1 + Height(v)
    ensures PlainKeys(v) ==> PlainKeys(Single(name, v))
    ensures Child(Single(name, v), Member(name)) == Some(v)
    ensures Single(name, v).Object? && Single(name, v).members.Members?
  {
    var ms := Single(name, v).members;
    assert HeightMembers(ms) == Max(Height(v), HeightMembers(NoMembers));
  }

  lemma PlainInside(v: Value)
    requires PlainKeys(v)
    ensures v.Object? ==> PlainMembers(v.members)
    ensures v.Array? ==> PlainItems(v.items)
  {
  }

  lemma OneFine(v: Value, rest: Items)
    requires Valid(v) && ValidItems(rest)
    ensures ValidItems(One(v, rest)) && HeightItems(One(v, rest)) == Max(Height(v), HeightItems(rest))
    ensures Count(One(v, rest)) == 1 + Count(rest)
    ensures PlainKeys(v) && PlainItems(rest) ==> PlainItems(One(v, rest))
  {
  }

  lemma ListFine(u: Value)
    requires Valid(u)
    ensures var v := Array("", One(u, NoItems));
            && Valid(v) && Height(v) == 1 + Height(u) && FindItem(v.items, 0) == Some(u)
            && (PlainKeys(u) ==> PlainItems(v.items))
  {
    OneFine(u, NoItems);
  }

  lemma {:induction false} NullsFine(n: nat, tail: Items)
    requires ValidItems(tail)
    ensures ValidItems(Nulls(n, tail)) && HeightItems(Nulls(n, tail)) == HeightItems(tail)
    ensures Count(Nulls(n, tail)) == n + Count(tail)
    ensures PlainItems(tail) ==> PlainItems(Nulls(n, tail))
  {
    if n > 0 {
      NullsFine(n - 1, tail);
    }
  }

  lemma {:induction false} FindAfterNulls(n: nat, tail: Items, m: nat)
    ensures FindItem(Nulls(n, tail), n + m) == FindItem(tail, m)
  {
    if n > 0 {
      FindAfterNulls(n - 1, tail, m);
    }
  }

  lemma {:induction false} FindInNulls(n: nat)
    ensures FindItem(Nulls(n, NoItems), n).None?
  {
    FindAfterNulls(n, NoItems, 0);
  }

  lemma {:induction false} ResolvingFine(path: seq<Segment>)
    requires ValidPath(path) && Writable(path)
    ensures Valid(Resolving(path)) && Height(Resolving(path)) == |path| && PlainKeys(Resolving(path))
    ensures Select(Resolving(path), path) == Some(NULL)
    decreases |path|
  {
    if path != [] {
      PathTail(path);
      var u := Resolving(path[1..]);
      ResolvingFine(path[1..]);
      match path[0]
      case Member(name) =>
        KeyOfName(name);
        SingleFine(name, u);
      case Index(n) =>
        OneFine(u, NoItems);
        NullsFine(n, One(u, NoItems));
        FindAfterNulls(n, One(u, NoItems), 0);
    }
  }

  lemma PathTail(path: seq<Segment>)
    requires path != [] && ValidPath(path) && Writable(path)
    ensures ValidPath(path[1..]) && Writable(path[1..]) && ValidSegment(path[0])
    ensures path[0].Member? ==> KeyName(path[0].name)
  {
    assert forall k :: 0 <= k < |path| - 1 ==> path[1..][k] == path[k + 1];
  }

  lemma DecoyFine(path: seq<Segment>)
    requires path != [] && ValidPath(path) && Writable(path)
    ensures Valid(Decoy(path)) && Height(Decoy(path)) <= |path| && PlainKeys(Decoy(path))
  {
    PathTail(path);
    ResolvingFine(path);
    ResolvingFine(path[1..]);
    OneFine(Resolving(path[1..]), NoItems);
  }

  lemma BaitFine(seg: Segment)
    ensures Valid(Bait(seg)) && Height(Bait(seg)) == 1 && Child(Bait(seg), seg).None? && PlainKeys(Bait(seg))
  {
    if seg.Index? {
      NullsFine(seg.n, NoItems);
      FindInNulls(seg.n);
    }
  }

  /** Lookup fails in the trap. */
  lemma {:induction false} TrapFine(path: seq<Segment>)
    requires !IndexOnlyLast(path) && ValidPath(path) && Writable(path)
    ensures Valid(Trap(path)) && Height(Trap(path)) <= |path| && PlainKeys(Trap(path))
    ensures Select(Trap(path), path).None?
    decreases |path|
  {
    PathTail(path);
    match path[0]
    case Member(name) =>
      TailNotLast(path);
      KeyOfName(name);
      TrapFine(path[1..]);
      SingleFine(name, Trap(path[1..]));
    case Index(n) =>
      BaitFine(path[1]);
      DecoyFine(path[1..]);
      var tail := One(Bait(path[1]), One(Decoy(path[1..]), NoItems));
      OneFine(Decoy(path[1..]), NoItems);
      OneFine(Bait(path[1]), One(Decoy(path[1..]), NoItems));
      NullsFine(n, tail);
      FindAfterNulls(n, tail, 0);
  }

  /** The empty object: the path enters it, misses, and comes out one level above where it should be. */
  lemma BaitObject(s: string, path: string, i: nat, st: State, name: string, rest: seq<Segment>) returns (st': State)
    requires OnPath(path, st, [Member(name)] + rest) && |st.nesting| < MAX_DEPTH && At(s, i, Print(Bait(Member(name))))
    ensures st'.Ok() && st'.mode.ExpectCommaOrEnd? && st'.nesting == st.nesting && st'.ed == st.ed + 1
    ensures st'.ci == st'.ei == -1 && PathAt(path, st'.pos - 1) == '.' && AtName(path, st'.pos, name, rest)
    ensures var e := i + |Print(Bait(Member(name)))|; e <= |s| && Run(s, path, i, st) == Run(s, path, e, st')
  {
    var v := Bait(Member(name));
    BaitFine(Member(name));
    hide Run, At, Print, Body, RestOfPath, AtName, OnPath;
    BodySplit(s, i, v);
    AtIndex(s, i + 1 + |Body(v)|, "}", 0);
    OnPathState(path, st, [Member(name)] + rest);
    var st1 := OpenMember(s, path, i, st, name, rest);
    st' := EmptyBody(s, path, i + 1, st1, v);
    assert st1.nesting[..|st1.nesting| - 1] == st.nesting;
  }

  lemma OnPathState(path: string, st: State, segs: seq<Segment>)
    requires OnPath(path, st, segs)
    ensures st.Ok() && st.mode.ExpectValue? && |st.nesting| == st.ed && st.ci == st.ei && ValidPath(segs)
  {
  }

  /** The array one item too short, likewise. */
  lemma BaitArray(s: string, path: string, i: nat, st: State, n: nat, rest: seq<Segment>) returns (st': State)
    requires OnPath(path, st, [Index(n)] + rest) && |st.nesting| < MAX_DEPTH && At(s, i, Print(Bait(Index(n))))
    ensures st'.Ok() && st'.mode.ExpectCommaOrEnd? && st'.nesting == st.nesting && st'.ed == st.ed + 1
    ensures st'.ci == st'.ei >= 0 && RestOfPath(path, st'.pos, rest) && ValidPath(rest)
    ensures var e := i + |Print(Bait(Index(n)))|; e <= |s| && Run(s, path, i, st) == Run(s, path, e, st')
  {
    hide *;
    var v := Bait(Index(n));
    BaitItems(n);
    OnPathState(path, st, [Index(n)] + rest);
    BodySplit(s, i, v);
    AtIndex(s, i + 1 + |Body(v)|, "]", 0);
    var st1 := ArrayEntered(s, path, i, st, v, n, rest);
    if v.items.NoItems? {
      st' := EmptyBody(s, path, i + 1, st1, v);
    } else {
      st' := ItemMissing(s, path, i + 1, st1, v.items, n);
    }
    SpentOk(path, st');
  }

  lemma SpentOk(path: string, st: State)
    requires Spent(path, st)
    ensures st.Ok() && st.mode.ExpectCommaOrEnd?
  {
  }

  lemma BaitItems(n: nat)
    ensures var v := Bait(Index(n));
            && v.Array? && Valid(v) && ValidItems(v.items) && HeightItems(v.items) == 0 && Count(v.items) == n
            && (v.items.NoItems? <==> n == 0) && FindItem(v.items, n).None?
  {
    BaitFine(Index(n));
    NullsFine(n, NoItems);
    FindInNulls(n);
  }

  lemma BaitTaken(s: string, path: string, i: nat, st: State, seg: Segment, rest: seq<Segment>) returns (st': State)
    requires OnPath(path, st, [seg] + rest) && |st.nesting| < MAX_DEPTH && At(s, i, Print(Bait(seg)))
    ensures st'.Ok() && st'.mode.ExpectCommaOrEnd? && st'.nesting == st.nesting && st'.ed == st.ed + 1
    ensures st'.ci == st'.ei
    ensures seg.Member? ==> PathAt(path, st'.pos - 1) == '.' && AtName(path, st'.pos, seg.name, rest) && st'.ci == -1
    ensures seg.Index? ==> RestOfPath(path, st'.pos, rest) && ValidPath(rest) && st'.ci >= 0
    ensures i + |Print(Bait(seg))| <= |s|
    ensures Run(s, path, i, st) == Run(s, path, i + |Print(Bait(seg))|, st')
  {
    hide *;
    match seg
    case Member(name) => st' := BaitObject(s, path, i, st, name, rest);
    case Index(n) => st' := BaitArray(s, path, i, st, n, rest);
  }

  /** Where the bait leaves the automaton, a fresh container reaches the followed depth. */
  lemma DecoyObject(s: string, path: string, i: nat, st: State, name: string, rest: seq<Segment>, u: Value)
    requires st.Ok() && st.mode.ExpectValue? && |st.nesting| + 1 + Height(u) <= MAX_DEPTH && st.ed == |st.nesting| + 1
    requires PathAt(path, st.pos - 1) == '.' && AtName(path, st.pos, name, rest) && st.ci == st.ei == -1
    requires PrintRaw(KeyOf(name)) == name && ValidRaw(KeyOf(name)) && PlainKey(KeyOf(name))
    requires Valid(u) && PlainKeys(u) && Select(u, rest).Some? && At(s, i, Print(Single(name, u)))
    requires name != "" && AllNamed(rest)
    ensures Run(s, path, i, st).Found?
  {
    hide Run, At, Print, PrintMembers, RestOfPath, AtName, Select, Valid, Height, ValidMembers, HeightMembers, Single,
         FindMember, KeyOf, PrintRaw;
    var v := Single(name, u);
    SingleFine(name, u);
    PlainInside(v);
    hide PlainKeys, PlainMembers;
    ObjectText(s, i, v);
    OpenStep(s, path, i, st, '{', v);
    MemberFound(s, path, i + 1, st.(nesting := st.nesting + ['{'], mode := ExpectKey), v.members, name, rest);
  }

  lemma DecoyArray(s: string, path: string, i: nat, st: State, rest: seq<Segment>, u: Value)
    requires st.Ok() && st.mode.ExpectValue? && |st.nesting| + 1 + Height(u) <= MAX_DEPTH && st.ed == |st.nesting| + 1
    requires RestOfPath(path, st.pos, rest) && ValidPath(rest) && st.ci == st.ei >= 0
    requires Valid(u) && PlainKeys(u) && Select(u, rest).Some? && At(s, i, Print(Array("", One(u, NoItems))))
    requires AllNamed(rest)
    ensures Run(s, path, i, st).Found?
  {
    hide Run, At, Print, PrintItems, RestOfPath, AtName, Select, Valid, Height, ValidItems, HeightItems;
    var v := Array("", One(u, NoItems));
    ListFine(u);
    ArrayText(s, i, v);
    OpenStep(s, path, i, st, '[', v);
    ItemFound(s, path, i + 1, st.(nesting := st.nesting + ['[']), v.items, 0, rest);
  }

  lemma DecoyTaken(s: string, path: string, i: nat, st: State, path': seq<Segment>)
    requires path' != [] && ValidPath(path') && Writable(path')
    requires st.Ok() && st.mode.ExpectValue? && |st.nesting| + |path'| <= MAX_DEPTH && st.ed == |st.nesting| + 1
    requires st.ci == st.ei && At(s, i, Print(Decoy(path')))
    requires path'[0].Member? ==>
               PathAt(path, st.pos - 1) == '.' && AtName(path, st.pos, path'[0].name, path'[1..]) && st.ci == -1
    requires path'[0].Index? ==> RestOfPath(path, st.pos, path'[1..]) && st.ci >= 0
    requires AllNamed(path')
    ensures Run(s, path, i, st).Found?
  {
    hide Run, At, Print, RestOfPath, AtName;
    PathTail(path');
    ResolvingFine(path'[1..]);
    match path'[0]
    case Member(name) =>
      KeyOfName(name);
      DecoyObject(s, path, i, st, name, path'[1..], Resolving(path'[1..]));
    case Index(_) =>
      DecoyArray(s, path, i, st, path'[1..], Resolving(path'[1..]));
  }

  lemma {:induction false} TrapSprung(s: string, path: string, i: nat, st: State, segs: seq<Segment>)
    requires !IndexOnlyLast(segs) && ValidPath(segs) && Writable(segs) && OnPath(path, st, segs)
    requires |st.nesting| + |segs| <= MAX_DEPTH
    requires At(s, i, Print(Trap(segs)))
    requires AllNamed(segs)
    ensures Run(s, path, i, st).Found?
    decreases |segs|
  {
    hide Run, At, Print, RestOfPath, AtName, Trap, IndexOnlyLast;
    TrapShape(segs);
    PathTail(segs);
    var rest := segs[1..];
    assert segs == [segs[0]] + rest;
    match segs[0]
    case Member(name) =>
      KeyOfName(name);
      TrapFine(rest);
      var k, st1 := TrapMember(s, path, i, st, name, rest, Trap(rest));
      TrapSprung(s, path, k, st1, rest);
    case Index(n) =>
      TrapArray(s, path, i, st, n, rest);
  }

  lemma TrapArray(s: string, path: string, i: nat, st: State, n: nat, rest: seq<Segment>)
    requires rest != [] && ValidPath(rest) && Writable(rest) && OnPath(path, st, [Index(n)] + rest)
    requires |st.nesting| + 1 + |rest| <= MAX_DEPTH
    requires At(s, i, Print(Array("", Nulls(n, One(Bait(rest[0]), One(Decoy(rest), NoItems))))))
    requires AllNamed(rest)
    ensures Run(s, path, i, st).Found?
  {
    hide Run, At, Print, PrintItems, Body, RestOfPath, Nulls, Bait, Decoy, ValidPath, Writable;
    var tail := One(Bait(rest[0]), One(Decoy(rest), NoItems));
    var st1 := ArrayEntered(s, path, i, st, Array("", Nulls(n, tail)), n, rest);
    NullsNotEmpty(n, tail);
    TrapItems(s, path, i + 1, st1, n, rest);
  }

  lemma TrapShape(segs: seq<Segment>)
    requires !IndexOnlyLast(segs)
    ensures |segs| >= 2
    ensures segs[0].Member? ==> !IndexOnlyLast(segs[1..]) && Trap(segs) == Single(segs[0].name, Trap(segs[1..]))
    ensures segs[0].Index? ==>
              Trap(segs) == Array("", Nulls(segs[0].n, One(Bait(segs[1..][0]), One(Decoy(segs[1..]), NoItems))))
  {
    if segs[0].Member? {
      TailNotLast(segs);
    }
  }

  lemma NullsNotEmpty(n: nat, tail: Items)
    requires tail.Items?
    ensures Nulls(n, tail).Items?
  {
  }

  lemma TrapMember(s: string, path: string, i: nat, st: State, name: string, rest: seq<Segment>, u: Value)
    returns (k: nat, st1: State)
    requires OnPath(path, st, [Member(name)] + rest) && |st.nesting| < MAX_DEPTH
    requires ValidRaw(KeyOf(name)) && PlainKey(KeyOf(name)) && PrintRaw(KeyOf(name)) == name && Valid(u) && PlainKeys(u)
    requires At(s, i, Print(Single(name, u)))
    requires name != ""
    ensures At(s, k, Print(u)) && Ends(s, k + |Print(u)|) && OnPath(path, st1, rest)
    ensures |st1.nesting| == |st.nesting| + 1
    ensures Run(s, path, i, st) == Run(s, path, k, st1)
  {
    hide *;
    var v := Single(name, u);
    SingleFine(name, u);
    SingleShape(name, u);
    PlainInside(v);
    OnPathState(path, st, [Member(name)] + rest);
    ObjectText(s, i, v);
    var st0 := OpenMember(s, path, i, st, name, rest);
    DepthIs(st0);
    NameThenRest(path, st0.pos, name, rest);
    st1 := NextMember(s, path, i + 1, st0, v.members, name, rest);
    MembersSplit(s, i + 1, v.members);
    k := i + 1 + |HeadText(v.members)|;
    OnPathAgain(path, st0, st1, rest);
  }

  lemma SingleShape(name: string, u: Value)
    ensures var v := Single(name, u);
            v.Object? && v.members.Members? && v.members.key == KeyOf(name) && v.members.value == u
  {
    hide KeyOf;
  }

  lemma OnPathAgain(path: string, st: State, st1: State, rest: seq<Segment>)
    requires st.Ok() && |st.nesting| == st.ed && st.ci == st.ei && st1 == st.(mode := ExpectValue, pos := st1.pos)
    requires st1.Ok() && RestOfPath(path, st1.pos, rest) && ValidPath(rest)
    ensures OnPath(path, st1, rest)
  {
    hide RestOfPath, ValidPath;
  }

  lemma DepthIs(st: State)
    requires |st.nesting| == st.ed
    ensures st.AtDepth()
  {
  }

  lemma NullPassed(s: string, path: string, i: nat, st: State, more: Items) returns (st1: State)
    requires st.Ok() && st.mode.ExpectValue? && st.AtDepth() && 0 <= st.ci != st.ei && st.ei >= 0
    requires |st.nesting| > 0 && st.nesting[|st.nesting| - 1] == '[' && more.Items? && ValidItems(more)
    requires var items := One(NULL, more);
             At(s, i, PrintItems(items)) && At(s, i + |PrintItems(items)|, "]")
    ensures st1 == st.(ci := st.ci + 1, j := st1.j) && i + 5 <= |s|
    ensures At(s, i + 5, PrintItems(more)) && At(s, i + 5 + |PrintItems(more)|, "]")
    ensures Run(s, path, i, st) == Run(s, path, i + 5, st1)
  {
    hide *;
    var items := One(NULL, more);
    NullFine(more);
    ItemsSplit(s, i, items);
    PassedIs(path, st, i);
    ValuePassed(s, path, i, st, NULL);
    CommaStep(s, path, i + 4, Passed(st, i));
    st1 := Passed(st, i).(mode := ExpectValue);
  }

  lemma NullFine(more: Items)
    requires ValidItems(more)
    ensures |Print(NULL)| == 4 && Valid(NULL) && Height(NULL) == 0 && ValidItems(One(NULL, more)) && !NULL.Array?
            && !NULL.Object?
    ensures One(NULL, more) == Items("", NULL, "", more)
  {
  }

  lemma PassedIs(path: string, st: State, i: nat)
    requires st.Ok() && st.mode.ExpectValue? && st.AtDepth() && st.ei >= 0
    ensures Passed(st, i) == st.(mode := ExpectCommaOrEnd, j := i, ci := st.ci + 1) && Passed(st, i).Ok()
    ensures |st.nesting| <= MAX_DEPTH && !Opens(path, st, NULL)
            && (|st.nesting| > 0 ==> st.(ci := st.ci + 1, j := i).Ok())
  {
  }

  lemma {:induction false} TrapItems(s: string, path: string, i: nat, st: State, n: nat, rest: seq<Segment>)
    requires rest != [] && ValidPath(rest) && Writable(rest) && RestOfPath(path, st.pos, rest)
    requires st.Ok() && st.mode.ExpectValue? && st.AtDepth() && st.ci >= 0 && st.ei == st.ci + n
    requires |st.nesting| > 0 && st.nesting[|st.nesting| - 1] == '[' && |st.nesting| + |rest| <= MAX_DEPTH
    requires var items := Nulls(n, One(Bait(rest[0]), One(Decoy(rest), NoItems)));
             At(s, i, PrintItems(items)) && At(s, i + |PrintItems(items)|, "]")
    requires AllNamed(rest)
    ensures Run(s, path, i, st).Found?
    decreases n
  {
    hide Run, At, PrintItems, RestOfPath, Bait, Decoy;
    var tail := One(Bait(rest[0]), One(Decoy(rest), NoItems));
    if n > 0 {
      TailFine(rest);
      NullsFine(n - 1, tail);
      NullsNotEmpty(n - 1, tail);
      var st1 := NullPassed(s, path, i, st, Nulls(n - 1, tail));
      TrapItems(s, path, i + 5, st1, n - 1, rest);
    } else {
      BaitThenDecoy(s, path, i, st, rest);
    }
  }

  lemma TailFine(rest: seq<Segment>)
    requires rest != [] && ValidPath(rest) && Writable(rest)
    ensures ValidItems(One(Bait(rest[0]), One(Decoy(rest), NoItems)))
  {
    BaitFine(rest[0]);
    DecoyFine(rest);
    OneFine(Decoy(rest), NoItems);
    OneFine(Bait(rest[0]), One(Decoy(rest), NoItems));
  }

  lemma BaitThenDecoy(s: string, path: string, i: nat, st: State, rest: seq<Segment>)
    requires rest != [] && ValidPath(rest) && Writable(rest) && RestOfPath(path, st.pos, rest)
    requires st.Ok() && st.mode.ExpectValue? && st.AtDepth() && st.ci == st.ei
    requires |st.nesting| > 0 && st.nesting[|st.nesting| - 1] == '[' && |st.nesting| + |rest| <= MAX_DEPTH
    requires var items := One(Bait(rest[0]), One(Decoy(rest), NoItems));
             At(s, i, PrintItems(items)) && At(s, i + |PrintItems(items)|, "]")
    requires AllNamed(rest)
    ensures Run(s, path, i, st).Found?
  {
    hide Run, At, Print, PrintItems, RestOfPath, Bait, Decoy, AtName;
    var last := One(Decoy(rest), NoItems);
    var items := One(Bait(rest[0]), last);
    BaitFine(rest[0]);
    DecoyFine(rest);
    OneFine(Decoy(rest), NoItems);
    OneFine(Bait(rest[0]), last);
    ItemsSplit(s, i, items);
    var e := i + |Print(items.value)|;
    assert rest == [rest[0]] + rest[1..];
    var st1 := BaitTaken(s, path, i, st, rest[0], rest[1..]);
    CommaStep(s, path, e, st1);
    ItemsSplit(s, e + 1, last);
    DecoyTaken(s, path, e + 1, st1.(mode := ExpectValue), rest);
  }
}
