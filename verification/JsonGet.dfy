/** `json_get` itself, and what it promises about documents and paths. */
module JsonGet {
  import opened Sequences
  import opened Wrappers
  import opened Json
  import opened JsonDoc
  import opened JsonTokens
  import opened JsonTraversal
  import opened JsonLookup
  import opened JsonMissing
  import opened JsonTrap
  import opened JsonDots
  import opened JsonLure
  import opened JsonFate

  /** The returned offset or error code, and the token length stored through the pointer. */
  function Answer(r: Reply): (int, int) {
    match r
    case Found(ofs, len) => (ofs, len)
    case TooDeep => (-1, 0)
    case Invalid => (-2, 0)
    case NotFound => (-3, 0)
  }

  /** Length of the raw string at `k`, or -2. */
  method PassString(s: string, k: nat) returns (n: int)
    requires k <= |s|
    ensures n == match StringEnd(s, k) case Some(e) => e - k case None => -2
  {
    var i := k;
    while i < |s|
      invariant k <= i <= |s| && StringEnd(s, k) == StringEnd(s, i)
    {
      if s[i] == '\\' && i + 1 < |s| && Escaped(s[i + 1]) {
        i := i + 1;
      } else if s[i] == '\0' {
        return -2;
      } else if s[i] == '"' {
        return i - k;
      }
      i := i + 1;
    }
    return -2;
  }

  /** How many characters `atod` consumes at `k`. */
  method NumberLength(s: string, k: nat) returns (n: nat)
    requires k < |s| && (s[k] == '-' || Digit(s[k]))
    ensures k + n == NumberEnd(s, k)
  {
    hide DigitsEnd, ExponentEnd;
    var i := k;
    if s[i] == '-' || s[i] == '+' {
      i := i + 1;
    }
    i := PassDigits(s, i);
    if i < |s| && s[i] == '.' {
      i := PassDigits(s, i + 1);
    }
    if i < |s| && (s[i] == 'e' || s[i] == 'E') {
      i := i + 1;
      if i < |s| && s[i] == '-' {
        i := i + 1;
      }
      if i < |s| && s[i] == '+' {
        i := i + 1;
      }
      i := PassExponent(s, i);
    }
    return i - k;
  }

  method PassExponent(s: string, k: nat) returns (i: nat)
    requires k <= |s|
    ensures i == ExponentEnd(s, k, 0)
  {
    var exp: nat := 0;
    i := k;
    while i < |s| && Digit(s[i]) && exp < MAX_EXPONENT
      invariant k <= i <= |s| && ExponentEnd(s, k, 0) == ExponentEnd(s, i, exp)
    {
      exp := exp * 10 + (s[i] - '0') as nat;
      i := i + 1;
    }
  }

  method PassDigits(s: string, k: nat) returns (i: nat)
    requires k <= |s|
    ensures i == DigitsEnd(s, k)
  {
    i := k;
    while i < |s| && Digit(s[i])
      invariant k <= i <= |s| && DigitsEnd(s, k) == DigitsEnd(s, i)
    {
      i := i + 1;
    }
  }

  method PassIndex(path: string, k: nat) returns (ei: int, pos: nat)
    ensures (ei, pos) == ReadIndex(path, k, 0)
  {
    ei, pos := 0, k;
    while PathAt(path, pos) != ']' && PathAt(path, pos) != '\0'
      invariant ReadIndex(path, k, 0) == ReadIndex(path, pos, ei)
      decreases |path| - pos
    {
      ei := ei * 10 + (path[pos] as int - '0' as int);
      pos := pos + 1;
    }
  }

  /** Either the answer of `json_get`, or nothing yet. */
  type Verdict = Option<(int, int)>

  /** The variables of `json_get`, so that the cases of its switch can be methods. */
  class Scanner {
    const s: string
    const path: string
    const nesting: array<char>
    var mode: Mode
    var i: nat
    var j: int
    var depth: nat
    var ed: int
    var pos: nat
    var ci: int
    var ei: int

    ghost predicate Valid()
      reads this
    {
      nesting.Length == MAX_DEPTH && i <= |s| && depth <= MAX_DEPTH && pos >= 1 && (mode.ExpectKey? ==> depth > 0)
    }

    ghost function Now(): (st: State)
      requires Valid()
      reads this, nesting
      ensures st.Ok()
    {
      State(mode, nesting[..depth], j, ed, pos, ci, ei)
    }

    /** The methods below do what `o` says. */
    ghost predicate Agrees(o: Outcome, v: Verdict)
      reads this, nesting
    {
      match o
      case Next(k, st) => v == None && Valid() && i == k && Now() == st
      case Return(reply) => v == Some(Answer(reply))
    }

    constructor (s: string, path: string)
      ensures Valid() && fresh(nesting) && this.s == s && this.path == path && i == 0 && Now() == START
    {
      this.s, this.path := s, path;
      nesting := new char[MAX_DEPTH];
      mode, i, j, depth, ed, pos, ci, ei := ExpectValue, 0, 0, 0, 0, 1, -1, -1;
    }

    /** A value ends before index `e`: the macro MG_CHECKRET and what follows it. */
    method FinishValue(e: nat) returns (v: Verdict)
      requires Valid() && e <= |s|
      modifies this
      ensures Agrees(old(EndValue(path, Now(), e)), v)
    {
      i := e;
      if depth == ed && PathAt(path, pos) == '\0' && ci == ei {
        return Some((j, e - j));
      }
      if depth == ed && ei >= 0 {
        ci := ci + 1;
      }
      mode := ExpectCommaOrEnd;
      return None;
    }

    /** The macro MG_EOO: the bracket at `i` closes the innermost container. */
    method Close(c: char) returns (v: Verdict)
      requires Valid() && i < |s| && depth > 0
      modifies this
      ensures Agrees(old(CloseContainer(path, Now(), c, i + 1)), v)
    {
      if depth == ed && ci != ei {
        return Some((-3, 0));
      }
      if c as int != nesting[depth - 1] as int + 2 {
        return Some((-2, 0));
      }
      assert Now().nesting[..depth - 1] == nesting[..depth - 1];
      mode := ExpectCommaOrEnd;
      depth := depth - 1;
      v := FinishValue(i + 1);
    }

    method OpenObject() returns (v: Verdict)
      requires Valid() && i < |s| && s[i] == '{'
      modifies this, nesting
      ensures Agrees(old(OnValue(s, path, i, Now())), v)
    {
      if depth == ed {
        j := i;
      }
      if depth >= MAX_DEPTH {
        return Some((-1, 0));
      }
      if depth == ed && PathAt(path, pos) == '.' && ci == ei {
        ed, pos, ci, ei := ed + 1, pos + 1, -1, -1;
      }
      nesting[depth] := '{';
      depth, mode, i := depth + 1, ExpectKey, i + 1;
      assert nesting[..depth] == old(nesting[..depth]) + ['{'];
      return None;
    }

    method OpenArray() returns (v: Verdict)
      requires Valid() && i < |s| && s[i] == '['
      modifies this, nesting
      ensures Agrees(old(OnValue(s, path, i, Now())), v)
    {
      if depth == ed {
        j := i;
      }
      if depth >= MAX_DEPTH {
        return Some((-1, 0));
      }
      if depth == ed && PathAt(path, pos) == '[' && ei == ci {
        var index, p := PassIndex(path, pos + 1);
        ed, ci, ei := ed + 1, 0, index;
        pos := if PathAt(path, p) != '\0' then p + 1 else p;
      }
      nesting[depth] := '[';
      depth, i := depth + 1, i + 1;
      assert nesting[..depth] == old(nesting[..depth]) + ['['];
      return None;
    }

    method Scalar() returns (v: Verdict)
      requires Valid() && i < |s| && mode.ExpectValue? && s[i] !in {'{', '['} && !(s[i] == ']' && depth > 0)
      modifies this
      ensures Agrees(old(OnValue(s, path, i, Now())), v)
    {
      hide StringEnd, NumberEnd, EndValue;
      if depth == ed {
        j := i;
      }
      if s[i] == 't' && i + 3 < |s| && s[i..i + 4] == "true" {
        v := FinishValue(i + 4);
      } else if s[i] == 'n' && i + 3 < |s| && s[i..i + 4] == "null" {
        v := FinishValue(i + 4);
      } else if s[i] == 'f' && i + 4 < |s| && s[i..i + 5] == "false" {
        v := FinishValue(i + 5);
      } else if s[i] == '-' || Digit(s[i]) {
        var numlen := NumberLength(s, i);
        v := FinishValue(i + numlen);
      } else if s[i] == '"' {
        var n := PassString(s, i + 1);
        if n < 0 {
          return Some((n, 0));
        }
        v := FinishValue(i + 1 + n + 1);
      } else {
        return Some((-2, 0));
      }
    }

    method Value() returns (v: Verdict)
      requires Valid() && i < |s| && mode.ExpectValue?
      modifies this, nesting
      ensures Agrees(old(OnValue(s, path, i, Now())), v)
    {
      if s[i] == '{' {
        v := OpenObject();
      } else if s[i] == '[' {
        v := OpenArray();
      } else if s[i] == ']' && depth > 0 {
        if depth == ed {
          j := i;
        }
        v := Close(']');
      } else {
        v := Scalar();
      }
    }

    method Key() returns (v: Verdict)
      requires Valid() && i < |s| && mode.ExpectKey?
      modifies this
      ensures Agrees(old(OnKey(s, path, i, Now())), v)
    {
      if s[i] == '"' {
        var n := PassString(s, i + 1);
        if n < 0 {
          return Some((n, 0));
        }
        if i + 1 + n >= |s| || depth < ed || (depth == ed && PathAt(path, pos - 1) != '.') {
          return Some((-3, 0));
        }
        var key := s[i + 1..i + 1 + n];
        if depth == ed && PathAt(path, pos - 1) == '.' && pos + n <= |path| && key == path[pos..pos + n]
           && PathAt(path, pos + n) in {'\0', '.', '['} {
          pos := pos + n;
        }
        i, mode := i + 1 + n + 1, ExpectColon;
        return None;
      } else if s[i] == '}' {
        v := Close('}');
      } else {
        return Some((-2, 0));
      }
    }

    method CommaOrEnd() returns (v: Verdict)
      requires Valid() && i < |s| && mode.ExpectCommaOrEnd?
      modifies this
      ensures Agrees(old(OnCommaOrEnd(s, path, i, Now())), v)
    {
      var c := s[i];
      if depth == 0 {
        return Some((-2, 0));
      } else if c == ',' {
        mode := if nesting[depth - 1] == '{' then ExpectKey else ExpectValue;
        i := i + 1;
        return None;
      } else if c == ']' || c == '}' {
        if depth == ed && ((c == '}' && PathAt(path, pos - 1) == '.') || (c == ']' && PathAt(path, pos - 1) == ',')) {
          return Some((-3, 0));
        }
        v := Close(c);
      } else {
        return Some((-2, 0));
      }
    }

    /** One turn of the loop over the text. */
    method Turn() returns (v: Verdict)
      requires Valid() && i < |s|
      modifies this, nesting
      ensures Agrees(old(Step(s, path, i, Now())), v)
    {
      if Blank(s[i]) {
        i := i + 1;
        return None;
      }
      match mode {
        case ExpectValue => v := Value();
        case ExpectKey => v := Key();
        case ExpectColon =>
          if s[i] != ':' {
            return Some((-2, 0));
          }
          i, mode := i + 1, ExpectValue;
          v := None;
        case ExpectCommaOrEnd => v := CommaOrEnd();
      }
    }
  }

  method Get(s: string, path: string) returns (ofs: int, toklen: int)
    ensures (ofs, toklen) == Answer(Query(s, path))
  {
    if PathAt(path, 0) != '$' {
      return -2, 0;
    }
    var scan := new Scanner(s, path);
    while scan.i < |s|
      invariant scan.Valid() && fresh(scan) && fresh(scan.nesting) && scan.s == s && scan.path == path
      invariant Query(s, path) == Run(s, path, scan.i, scan.Now())
      decreases |s| - scan.i
    {
      var v := scan.Turn();
      if v.Some? {
        return v.value.0, v.value.1;
      }
    }
    return -3, 0;
  }

  // ----- the promises

  function QueryDocument(d: Document, path: seq<Segment>): Reply {
    Query(PrintDocument(d), PrintPath(path))
  }

  lemma DocumentStart(d: Document, path: seq<Segment>)
    requires ValidDocument(d) && ValidPath(path)
    ensures var s, t := PrintDocument(d), PrintPath(path);
            && OnPath(t, START, path) && PathAt(t, 0) == '$'
            && At(s, |d.before|, Print(d.value)) && At(s, |d.before| + |Print(d.value)|, d.after)
            && Ends(s, |d.before| + |Print(d.value)|)
            && QueryDocument(d, path) == Run(s, t, |d.before|, START)
  {
    var s, t := PrintDocument(d), PrintPath(path);
    PathText(path);
    DocumentText(d);
    hide PrintDocument, PrintPath, Print, At, OnPath, Query, PathAt, BlankText;
    BlankSkipped(s, t, 0, START, d.before);
    QueryRuns(s, t);
  }

  lemma PathText(path: seq<Segment>)
    requires ValidPath(path)
    ensures OnPath(PrintPath(path), START, path) && PathAt(PrintPath(path), 0) == '$'
  {
    hide PrintSegments, ValidPath;
    var t := PrintPath(path);
    AtWhole(t);
    AtSplit(t, 0, "$", PrintSegments(path));
  }

  lemma DocumentText(d: Document)
    requires ValidDocument(d)
    ensures var s := PrintDocument(d);
            && At(s, 0, d.before) && At(s, |d.before|, Print(d.value)) && At(s, |d.before| + |Print(d.value)|, d.after)
            && Ends(s, |d.before| + |Print(d.value)|) && BlankText(d.before)
  {
    hide Print, Valid;
    var s := PrintDocument(d);
    AtWhole(s);
    AtSplit(s, 0, d.before, Print(d.value) + d.after);
    AtSplit(s, |d.before|, Print(d.value), d.after);
    if d.after != "" {
      AtIndex(s, |d.before| + |Print(d.value)|, d.after, 0);
    }
  }

  lemma QueryRuns(s: string, t: string)
    requires PathAt(t, 0) == '$'
    ensures Query(s, t) == Run(s, t, 0, START)
  {
    hide Run;
  }

  /** Whatever lookup selects is found, with its exact place in the text, unless a key on the way can be taken
      for several names. */
  lemma SelectedIsFound(d: Document, path: seq<Segment>)
    requires ValidDocument(d) && Height(d.value) <= MAX_DEPTH && ValidPath(path)
    requires Select(d.value, path).Some?
    requires AllNamed(path) && Tellable(d.value, path)
    ensures QueryDocument(d, path) ==
            Found(|d.before| + Offset(d.value, path), |Print(Select(d.value, path).value)|)
  {
    hide Run, At, Query, Print, PrintPath, PrintDocument, OnPath, Valid, Height, Select, Ends, Tellable, AllNamed;
    DocumentStart(d, path);
    ValueFound(PrintDocument(d), PrintPath(path), |d.before|, START, d.value, path);
  }

  lemma NumberStep(t: string)
    requires t != "" && (t[0] == '-' || Digit(t[0]))
    ensures Step(t, "$", 0, START) == Return(Found(0, NumberEnd(t, 0)))
  {
    hide NumberEnd, StringEnd, ReadIndex, Spells, CloseContainer;
  }

  lemma RunReturns(s: string, path: string, i: nat, st: State, r: Reply)
    requires i < |s| && st.Ok() && Step(s, path, i, st) == Return(r)
    ensures Run(s, path, i, st) == r
  {
    hide Step;
  }

  /** A number by itself is answered whole exactly when its exponent is not too long. */
  lemma NumberAnsweredIff(n: Number)
    requires NumberText(n)
    ensures var t := PrintNumber(n); Query(t, "$") == Found(0, |t|) <==> ShortExponent(n)
  {
    hide NumberEnd, ShortExponent, Step, Run, At, PrintNumber, NumberText;
    var t := PrintNumber(n);
    AtWhole(t);
    NumberConsumedIff(t, 0, n);
    NumberStep(t);
    RunReturns(t, "$", 0, START, Found(0, NumberEnd(t, 0)));
  }

  /** That place holds the selected value. */
  lemma {:induction false} OffsetPointsAt(s: string, i: nat, v: Value, path: seq<Segment>)
    requires Valid(v) && Select(v, path).Some? && At(s, i, Print(v))
    ensures At(s, i + Offset(v, path), Print(Select(v, path).value))
    decreases |path|
  {
    if path != [] {
      hide At, Print;
      ChildPointsAt(s, i, v, path[0]);
      ChildValid(v, path[0]);
      OffsetPointsAt(s, i + ChildOffset(v, path[0]), Child(v, path[0]).value, path[1..]);
    }
  }

  lemma ChildPointsAt(s: string, i: nat, v: Value, seg: Segment)
    requires Valid(v) && Child(v, seg).Some? && At(s, i, Print(v))
    ensures At(s, i + ChildOffset(v, seg), Print(Child(v, seg).value))
  {
    hide At, Print, Body, PrintItems, PrintMembers, ItemOffset, MemberOffset, ValidItems, ValidMembers;
    BodySplit(s, i, v);
    Printed(v);
    match seg {
      case Member(name) => MemberPointsAt(s, i + 1, v.members, name);
      case Index(n) => ItemPointsAt(s, i + 1, v.items, n);
    }
  }

  lemma {:induction false} ItemPointsAt(s: string, i: nat, items: Items, n: nat)
    requires ValidItems(items) && FindItem(items, n).Some?
    requires At(s, i, PrintItems(items)) && At(s, i + |PrintItems(items)|, "]")
    ensures At(s, i + ItemOffset(items, n), Print(FindItem(items, n).value))
    decreases items
  {
    hide At, Print, PrintItems;
    ItemsSplit(s, i, items);
    if n > 0 {
      ItemPointsAt(s, i + |items.before| + |Print(items.value)| + |items.after| + 1, items.rest, n - 1);
    }
  }

  lemma {:induction false} MemberPointsAt(s: string, i: nat, ms: Members, name: string)
    requires ValidMembers(ms) && FindMember(ms, name).Some?
    requires At(s, i, PrintMembers(ms)) && At(s, i + |PrintMembers(ms)|, "}")
    ensures At(s, i + MemberOffset(ms, name), Print(FindMember(ms, name).value))
    decreases ms
  {
    hide At, Print, PrintMembers, HeadText;
    MembersSplit(s, i, ms);
    if PrintRaw(ms.key) != name {
      MemberPointsAt(s, i + |HeadText(ms)| + |Print(ms.value)| + |ms.after| + 1, ms.rest, name);
    }
  }

  lemma ChildValid(v: Value, seg: Segment)
    requires Valid(v) && Child(v, seg).Some?
    ensures Valid(Child(v, seg).value)
  {
    match seg
    case Member(name) => MemberValid(v.members, name);
    case Index(n) => ItemValid(v.items, n);
  }

  lemma ItemValid(items: Items, n: nat)
    requires ValidItems(items) && FindItem(items, n).Some?
    ensures Valid(FindItem(items, n).value)
    decreases items
  {
    if n > 0 {
      ItemValid(items.rest, n - 1);
    }
  }

  lemma MemberValid(ms: Members, name: string)
    requires ValidMembers(ms) && FindMember(ms, name).Some?
    ensures Valid(FindMember(ms, name).value)
    decreases ms
  {
    if PrintRaw(ms.key) != name {
      MemberValid(ms.rest, name);
    }
  }

  /** Without an index before the last segment, a failing lookup is always reported. */
  lemma MissingIsReported(d: Document, path: seq<Segment>)
    requires ValidDocument(d) && Height(d.value) <= MAX_DEPTH && ValidPath(path) && IndexOnlyLast(path)
    requires Select(d.value, path).None?
    requires AllNamed(path) && Tellable(d.value, path)
    ensures QueryDocument(d, path) == NotFound
  {
    hide Run, At, Query, Print, PrintPath, OnPath, Valid, Height, Select, Ends, Tellable, AllNamed, IndexOnlyLast;
    var s, t := PrintDocument(d), PrintPath(path);
    var e := |d.before| + |Print(d.value)|;
    DocumentStart(d, path);
    var st' := ValueMissing(s, t, |d.before|, START, d.value, path);
    BlankSkipped(s, t, e, st', d.after);
    assert Run(s, t, |s|, st') == NotFound by { RunEnds(s, t, st'); }
  }

  lemma RunEnds(s: string, path: string, st: State)
    requires st.Ok()
    ensures Run(s, path, |s|, st) == NotFound
  {
  }

  /** Whatever the path, a valid document is never refused; and an answer means that some document has a
      value in that place. */
  lemma FoundOrMissing(d: Document, path: seq<Segment>)
    requires ValidDocument(d) && Height(d.value) <= MAX_DEPTH && ValidPath(path)
    ensures var r := QueryDocument(d, path);
            r == NotFound || (r.Found? && Followable(path) && (PlainKeys(d.value) ==> Complete(path)))
  {
    hide *;
    var s, t := PrintDocument(d), PrintPath(path);
    var e := |d.before| + |Print(d.value)|;
    DocumentParts(d);
    DocumentStart(d, path);
    var aim := Aim(path, PlainKeys(d.value));
    AtTheStart(t, aim);
    var st' := ValueFate(s, t, |d.before|, START, d.value, aim);
    BlankSkipped(s, t, e, st', d.after);
    RunEnds(s, t, st');
    DoomedIs(QueryDocument(d, path), aim);
  }

  lemma DocumentParts(d: Document)
    requires ValidDocument(d)
    ensures BlankText(d.after) && Valid(d.value) && |PrintDocument(d)| == |d.before| + |Print(d.value)| + |d.after|
  {
    hide BlankText, Valid, Print;
  }

  lemma AtTheStart(t: string, aim: Aim)
    requires OnPath(t, START, aim.segs) && PathAt(t, 0) == '$'
    ensures START.Ok() && START.mode.ExpectValue? && START.nesting == [] && Along(t, START, aim)
  {
    assert aim.segs[0..] == aim.segs;
    hide RestOfPath;
    assert AlongAt(t, START, aim, 0);
  }

  lemma DoomedIs(r: Reply, aim: Aim)
    requires Doomed(r, aim) || r == NotFound
    ensures r == NotFound || (r.Found? && Followable(aim.segs) && (aim.plain ==> Complete(aim.segs)))
  {
    hide Complete, Followable;
  }

  /** With an index before the last segment there is a document whose failing lookup is answered. */
  lemma TrapIsAnswered(path: seq<Segment>)
    requires ValidPath(path) && Complete(path) && AllNamed(path) && !IndexOnlyLast(path)
    ensures var d := Document("", Trap(path), "");
            && ValidDocument(d) && Height(d.value) <= MAX_DEPTH && PlainKeys(d.value)
            && Select(d.value, path).None? && QueryDocument(d, path).Found?
  {
    hide Run, At, Query, Trap, Print, PrintDocument, PrintPath, Valid, Height, Select, PlainKeys, Ends, Writable,
         OnPath;
    var d := Document("", Trap(path), "");
    TrapFine(path);
    DocumentStart(d, path);
    TrapSprung(PrintDocument(d), PrintPath(path), 0, START, path);
  }

  /** With an empty name there are documents in which another value is answered than the one selected, and
      documents in which a failing lookup is answered. */
  lemma LureIsAnswered(path: seq<Segment>, both: bool)
    requires ValidPath(path) && Complete(path) && !AllNamed(path)
    ensures var d := Document("", Lure(path, both), "");
            && ValidDocument(d) && Height(d.value) <= MAX_DEPTH && PlainKeys(d.value)
            && Select(d.value, path) == (if both then Some(NULL) else None)
            && QueryDocument(d, path).Found? && QueryDocument(d, path).len != |Print(NULL)|
  {
    hide Run, At, Query, Lure, Print, PrintDocument, PrintPath, Valid, Height, Select, PlainKeys, Ends, Writable,
         OnPath;
    var d := Document("", Lure(path, both), "");
    LureFine(path, both);
    LengthsDiffer();
    DocumentStart(d, path);
    LureTaken(PrintDocument(d), PrintPath(path), 0, START, path, both);
  }

  lemma LengthsDiffer()
    ensures |Print(FALSE)| != |Print(NULL)|
  {
  }

  /** With a member name before the last segment there are such documents too, with a key that has a dot or a
      bracket in it. */
  lemma DottedIsAnswered(path: seq<Segment>, both: bool)
    requires ValidPath(path) && !MemberOnlyLast(path) && if both then Complete(path) else Followable(path)
    ensures var d := Document("", Dotted(path, both), "");
            && ValidDocument(d) && Height(d.value) <= MAX_DEPTH
            && Select(d.value, path) == (if both then Some(NULL) else None)
            && QueryDocument(d, path).Found? && QueryDocument(d, path).len != |Print(NULL)|
  {
    hide Run, At, Query, Dotted, Print, PrintDocument, PrintPath, Valid, Height, Select, PlainKeys, Ends, Writable,
         OnPath;
    var d := Document("", Dotted(path, both), "");
    DottedFine(path, both);
    LengthsDiffer();
    DocumentStart(d, path);
    DottedTaken(PrintDocument(d), PrintPath(path), 0, START, path, both);
  }

  /** The answer says what lookup says. */
  predicate Truthful(d: Document, path: seq<Segment>) {
    QueryDocument(d, path) ==
    if Select(d.value, path).Some?
    then Found(|d.before| + Offset(d.value, path), |Print(Select(d.value, path).value)|)
    else NotFound
  }

  predicate Proper(d: Document) { ValidDocument(d) && Height(d.value) <= MAX_DEPTH }

  /** No key of it can be taken for several names. */
  predicate Legible(d: Document) { Proper(d) && PlainKeys(d.value) }

  function Small(n: string): Value { Numeral(Number(false, n, "", "", "")) }

  /** `{"a":1,"":2}` */
  function TwoMembers(): Document {
    var second := Members("", [], "", "", Small("2"), "", NoMembers);
    Document("", Object("", Members("", [Plain('a')], "", "", Small("1"), "", second)), "")
  }

  lemma TwoMembersText()
    ensures PrintDocument(TwoMembers()) == "{\"a\":1,\"\":2}"
  {
    var last := Members("", [], "", "", Small("2"), "", NoMembers);
    assert PrintMembers(last) == "\"\":2";
    var all := Members("", [Plain('a')], "", "", Small("1"), "", last);
    assert PrintRaw([Plain('a')]) == "a" by { assert [Plain('a')][1..] == []; }
    assert PrintMembers(all) == "\"a\":1,\"\":2";
  }

  lemma FirstMemberRead(s: string, path: string)
    requires s == "{\"a\":1,\"\":2}" && path == "$."
    ensures Query(s, path) == Found(5, 1)
  {
    var st1 := State(ExpectKey, ['{'], 0, 1, 2, -1, -1);
    var st2 := st1.(mode := ExpectColon);
    var st3 := st1.(mode := ExpectValue);
    assert Step(s, path, 0, START) == Next(1, st1);
    assert StringEnd(s, 2) == Some(3);
    assert Step(s, path, 1, st1) == Next(4, st2);
    assert Step(s, path, 4, st2) == Next(5, st3);
    assert DigitsEnd(s, 5) == DigitsEnd(s, 6) == 6;
    assert FractionEnd(s, 6) == 6 == MarkedExponentEnd(s, 6);
    assert Step(s, path, 5, st3) == EndValue(path, st3.(j := 5), 6) == Return(Found(5, 1));
    hide Step;
    RunGoesOn(s, path, 0, START, 1, st1);
    RunGoesOn(s, path, 1, st1, 4, st2);
    RunGoesOn(s, path, 4, st2, 5, st3);
    RunReturns(s, path, 5, st3, Found(5, 1));
  }

  lemma RunGoesOn(s: string, path: string, i: nat, st: State, k: nat, st': State)
    requires i < |s| && st.Ok() && Step(s, path, i, st) == Next(k, st')
    ensures i < k <= |s| && st'.Ok() && Run(s, path, i, st) == Run(s, path, k, st')
  {
    hide Step;
  }

  /** In `{"a":1,"":2}` the path `$.` selects the 2 at offset 10 and is answered with the 1 at offset 5. */
  lemma EmptyNameAnswersFirst()
    ensures var d, path := TwoMembers(), [Member("")];
            && Legible(d) && Select(d.value, path) == Some(Small("2")) && |d.before| + Offset(d.value, path) == 10
            && QueryDocument(d, path) == Found(5, 1)
  {
    TwoMembersText();
    TwoMembersProper();
    EmptyNamePath();
    hide *;
    FirstMemberRead(PrintDocument(TwoMembers()), PrintPath([Member("")]));
    QueryIs(TwoMembers(), [Member("")]);
  }

  /** `{"a.b":1}` */
  function DottedKey(): Document {
    var key := [Plain('a'), Plain('.'), Plain('b')];
    Document("", Object("", Members("", key, "", "", Small("1"), "", NoMembers)), "")
  }

  lemma DottedText()
    ensures PrintDocument(DottedKey()) == "{\"a.b\":1}" && PrintPath([Member("a"), Member("b")]) == "$.a.b"
  {
    var key := [Plain('a'), Plain('.'), Plain('b')];
    assert key[1..] == [Plain('.'), Plain('b')] && key[1..][1..] == [Plain('b')] && [Plain('b')][1..] == [];
    assert PrintRaw(key) == "a.b";
    assert PrintMembers(Members("", key, "", "", Small("1"), "", NoMembers)) == "\"a.b\":1";
    assert [Member("a"), Member("b")][1..] == [Member("b")] && [Member("b")][1..] == [];
  }

  lemma DottedKeyRead(s: string, path: string)
    requires s == "{\"a.b\":1}" && path == "$.a.b"
    ensures Query(s, path) == Found(7, 1)
  {
    var st1 := State(ExpectKey, ['{'], 0, 1, 2, -1, -1);
    var st2 := st1.(mode := ExpectColon, pos := 5);
    var st3 := st2.(mode := ExpectValue);
    assert Step(s, path, 0, START) == Next(1, st1);
    assert StringEnd(s, 2) == StringEnd(s, 4) == Some(5) && s[2..5] == path[2..5];
    assert Step(s, path, 1, st1) == Next(6, st2);
    assert Step(s, path, 6, st2) == Next(7, st3);
    assert DigitsEnd(s, 7) == DigitsEnd(s, 8) == 8;
    assert FractionEnd(s, 8) == 8 == MarkedExponentEnd(s, 8);
    assert Step(s, path, 7, st3) == EndValue(path, st3.(j := 7), 8) == Return(Found(7, 1));
    hide Step;
    RunGoesOn(s, path, 0, START, 1, st1);
    RunGoesOn(s, path, 1, st1, 6, st2);
    RunGoesOn(s, path, 6, st2, 7, st3);
    RunReturns(s, path, 7, st3, Found(7, 1));
  }

  /** Such a document: in `{"a.b":1}` the path `$.a.b` selects nothing and is answered with the 1. */
  lemma DottedKeyAnswered()
    ensures var d, path := DottedKey(), [Member("a"), Member("b")];
            && ValidPath(path) && AllNamed(path) && IndexOnlyLast(path)
            && Select(d.value, path) == None && QueryDocument(d, path) == Found(7, 1)
  {
    DottedText();
    DottedMissing();
    DottedKeyRead(PrintDocument(DottedKey()), PrintPath([Member("a"), Member("b")]));
    hide *;
    QueryIs(DottedKey(), [Member("a"), Member("b")]);
  }

  lemma DottedMissing()
    ensures Select(DottedKey().value, [Member("a"), Member("b")]) == None
  {
    var key := [Plain('a'), Plain('.'), Plain('b')];
    assert |PrintRaw(key)| >= 2 by {
      assert key[1..] == [Plain('.'), Plain('b')];
    }
  }

  lemma QueryIs(d: Document, path: seq<Segment>)
    ensures QueryDocument(d, path) == Query(PrintDocument(d), PrintPath(path))
  {
    hide Query, PrintDocument, PrintPath;
  }

  lemma EmptyNamePath()
    ensures PrintPath([Member("")]) == "$."
  {
    assert [Member("")][1..] == [];
  }

  lemma TwoMembersProper()
    ensures var d, path := TwoMembers(), [Member("")];
            Legible(d) && Select(d.value, path) == Some(Small("2")) && |d.before| + Offset(d.value, path) == 10
  {
    assert [Member("")][1..] == [];
    assert PrintRaw([Plain('a')]) == "a" by { assert [Plain('a')][1..] == []; }
  }

  /** A path resolves in some document only if all of it can be followed. */
  lemma {:induction false} SelectedComplete(v: Value, path: seq<Segment>)
    requires Valid(v) && ValidPath(path) && Select(v, path).Some?
    ensures |path| <= Height(v) && Writable(path)
    decreases |path|
  {
    if path != [] {
      var u := Child(v, path[0]).value;
      ChildValid(v, path[0]);
      ChildLower(v, path[0]);
      assert path == [path[0]] + path[1..] && forall k :: 0 <= k < |path| - 1 ==> path[1..][k] == path[k + 1];
      SelectedComplete(u, path[1..]);
      WritableHead(path[0], path[1..]);
    }
  }

  lemma WritableHead(seg: Segment, rest: seq<Segment>)
    requires Writable(rest) && (seg.Member? ==> KeyName(seg.name))
    ensures Writable([seg] + rest)
  {
  }

  lemma ChildLower(v: Value, seg: Segment)
    requires Valid(v) && ValidSegment(seg) && Child(v, seg).Some?
    ensures Height(Child(v, seg).value) < Height(v) && (seg.Member? ==> KeyName(seg.name))
  {
    match seg
    case Member(name) => MemberLower(v.members, name);
    case Index(n) => ItemLower(v.items, n);
  }

  lemma {:induction false} MemberLower(ms: Members, name: string)
    requires ValidMembers(ms) && ValidSegment(Member(name)) && FindMember(ms, name).Some?
    ensures Height(FindMember(ms, name).value) <= HeightMembers(ms) && KeyName(name)
    decreases ms
  {
    if PrintRaw(ms.key) == name {
      PlainKeyIff(ms.key);
      NameOfKey(ms.key);
    } else {
      MemberLower(ms.rest, name);
    }
  }

  lemma {:induction false} ItemLower(items: Items, n: nat)
    requires FindItem(items, n).Some?
    ensures Height(FindItem(items, n).value) <= HeightItems(items)
    decreases items
  {
    if n > 0 {
      ItemLower(items.rest, n - 1);
    }
  }

  /** Everything a path selects is found, in every legible document, exactly when none of its names is empty; a
      path that selects nothing in any document is no exception. */
  lemma SelectedFoundIff(path: seq<Segment>)
    requires ValidPath(path)
    ensures (forall d: Document | Legible(d) && Select(d.value, path).Some? :: Truthful(d, path))
            <==> AllNamed(path) || !Complete(path)
  {
    hide Query, PrintDocument, PrintPath, AllNamed, Complete, PlainKeys, MemberOnlyLast;
    if AllNamed(path) {
      forall d: Document | Legible(d) && Select(d.value, path).Some?
        ensures Truthful(d, path)
      {
        SelectedIsFound(d, path);
      }
    } else if Complete(path) {
      LureIsAnswered(path, true);
      assert !Truthful(Document("", Lure(path, true), ""), path);
    } else {
      forall d: Document | Proper(d)
        ensures Select(d.value, path).None?
      {
        NothingSelected(d.value, path);
      }
    }
  }

  /** In every document, whatever its keys, exactly when moreover no name comes before the last segment. */
  lemma SelectedFoundAnyKeysIff(path: seq<Segment>)
    requires ValidPath(path)
    ensures (forall d: Document | Proper(d) && Select(d.value, path).Some? :: Truthful(d, path))
            <==> (AllNamed(path) && MemberOnlyLast(path)) || !Complete(path)
  {
    hide Query, PrintDocument, PrintPath, AllNamed, Complete, PlainKeys, MemberOnlyLast;
    if AllNamed(path) && MemberOnlyLast(path) {
      forall d: Document | Proper(d) && Select(d.value, path).Some?
        ensures Truthful(d, path)
      {
        SelectedIsFound(d, path);
      }
    } else if !Complete(path) {
      forall d: Document | Proper(d)
        ensures Select(d.value, path).None?
      {
        NothingSelected(d.value, path);
      }
    } else if !AllNamed(path) {
      LureIsAnswered(path, true);
      assert !Truthful(Document("", Lure(path, true), ""), path);
    } else {
      DottedIsAnswered(path, true);
      assert !Truthful(Document("", Dotted(path, true), ""), path);
    }
  }

  lemma NothingSelected(v: Value, path: seq<Segment>)
    requires Valid(v) && ValidPath(path) && Height(v) <= MAX_DEPTH && !Complete(path)
    ensures Select(v, path).None?
  {
    if Select(v, path).Some? {
      SelectedComplete(v, path);
    }
  }

  /** Every failing lookup of a path is reported, in every legible document, exactly when no index precedes its
      last segment and no name is empty; a path that cannot be followed in any of them is no exception. */
  lemma MissingReportedIff(path: seq<Segment>)
    requires ValidPath(path)
    ensures (forall d: Document | Legible(d) && Select(d.value, path).None? :: Truthful(d, path))
            <==> (IndexOnlyLast(path) && AllNamed(path)) || !Complete(path)
  {
    hide Query, PrintDocument, PrintPath, AllNamed, IndexOnlyLast, Complete, Followable, PlainKeys, MemberOnlyLast;
    if !Complete(path) {
      forall d: Document | Legible(d) && Select(d.value, path).None?
        ensures Truthful(d, path)
      {
        FoundOrMissing(d, path);
      }
    } else if !AllNamed(path) {
      LureIsAnswered(path, false);
      assert !Truthful(Document("", Lure(path, false), ""), path);
    } else if IndexOnlyLast(path) {
      forall d: Document | Legible(d) && Select(d.value, path).None?
        ensures Truthful(d, path)
      {
        MissingIsReported(d, path);
      }
    } else {
      TrapIsAnswered(path);
      assert !Truthful(Document("", Trap(path), ""), path);
    }
  }

  /** In every document, whatever its keys, exactly when the path has a single segment at most, not an empty
      name; a path too deep to be followed in any document, be its names joined in one key, is no exception. */
  lemma MissingReportedAnyKeysIff(path: seq<Segment>)
    requires ValidPath(path)
    ensures (forall d: Document | Proper(d) && Select(d.value, path).None? :: Truthful(d, path))
            <==> (AllNamed(path) && |path| <= 1) || !Followable(path)
  {
    hide Query, PrintDocument, PrintPath, AllNamed, Complete, Followable, PlainKeys;
    if !Followable(path) {
      forall d: Document | Proper(d) && Select(d.value, path).None?
        ensures Truthful(d, path)
      {
        FoundOrMissing(d, path);
      }
    } else if !MemberOnlyLast(path) {
      DottedIsAnswered(path, false);
      assert !Truthful(Document("", Dotted(path, false), ""), path);
    } else if !AllNamed(path) {
      FollowedWhole(path);
      LureIsAnswered(path, false);
      assert !Truthful(Document("", Lure(path, false), ""), path);
    } else if |path| <= 1 {
      forall d: Document | Proper(d) && Select(d.value, path).None?
        ensures Truthful(d, path)
      {
        MissingIsReported(d, path);
      }
    } else {
      FollowedWhole(path);
      assert !path[0].Member?;
      TrapIsAnswered(path);
      assert !Truthful(Document("", Trap(path), ""), path);
    }
  }

  lemma FollowedWhole(path: seq<Segment>)
    requires Followable(path) && MemberOnlyLast(path)
    ensures Complete(path)
  {
    LevelsAtMost(path);
  }
}
