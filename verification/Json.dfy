/** The one-pass path query `json_get`: its automaton, as a function of the text and the path,
    and the loop over the text that runs it with a nesting buffer of thirty entries. */
module Json {
  import opened Wrappers

  const MAX_DEPTH: nat := 30
  const MAX_EXPONENT: nat := 308

  datatype Reply = Found(ofs: int, len: int) | TooDeep | Invalid | NotFound

  datatype Mode = ExpectValue | ExpectKey | ExpectColon | ExpectCommaOrEnd

  /** The automaton between two characters. `nesting` holds the open brackets, `ed` is the depth at
      which the path is being followed, `pos` the place reached in the path, `ci` and `ei` the
      current and the wanted index of the array at depth `ed` (both -1 in an object). */
  datatype State = State(mode: Mode, nesting: seq<char>, j: int, ed: int, pos: nat, ci: int, ei: int)
  {
    predicate Ok() {
      pos >= 1 && |nesting| <= MAX_DEPTH && (mode.ExpectKey? ==> |nesting| > 0)
    }

    predicate AtDepth() { |nesting| == ed }
  }

  datatype Outcome = Next(i: nat, st: State) | Return(reply: Reply)

  predicate Blank(c: char) { c == ' ' || c == '\t' || c == '\n' || c == '\r' }

  predicate Digit(c: char) { '0' <= c <= '9' }

  /** The characters that `pass_string` skips after a backslash. */
  predicate Escaped(c: char) {
    c == '\U{0008}' || c == '\U{000C}' || c == '\n' || c == '\r' || c == '\t' || c == '\\' || c == '"'
  }

  /** `path` is a C string: reading at its end gives the terminator. */
  function PathAt(path: string, pos: int): char {
    if 0 <= pos < |path| then path[pos] else '\0'
  }

  /** Index of the quote that closes the string starting at `k`. */
  function StringEnd(s: string, k: nat): (e: Option<nat>)
    requires k <= |s|
    ensures e.Some? ==> k <= e.value < |s|
    decreases |s| - k
  {
    if k == |s| then None
    else if s[k] == '\\' && k + 1 < |s| && Escaped(s[k + 1]) then StringEnd(s, k + 2)
    else if s[k] == '\0' then None
    else if s[k] == '"' then Some(k)
    else StringEnd(s, k + 1)
  }

  function DigitsEnd(s: string, k: nat): (e: nat)
    requires k <= |s|
    ensures k <= e <= |s|
    decreases |s| - k
  {
    if k < |s| && Digit(s[k]) then DigitsEnd(s, k + 1) else k
  }

  function ExponentEnd(s: string, k: nat, exp: nat): (e: nat)
    requires k <= |s|
    ensures k <= e <= |s|
    decreases |s| - k
  {
    if k < |s| && Digit(s[k]) && exp < MAX_EXPONENT
    then ExponentEnd(s, k + 1, exp * 10 + (s[k] - '0') as nat)
    else k
  }

  function SkipChar(s: string, k: nat, c: char): (e: nat)
    requires k <= |s|
    ensures k <= e <= |s|
  {
    if k < |s| && s[k] == c then k + 1 else k
  }

  function FractionEnd(s: string, k: nat): (e: nat)
    requires k <= |s|
    ensures k <= e <= |s|
  {
    if k < |s| && s[k] == '.' then DigitsEnd(s, k + 1) else k
  }

  function MarkedExponentEnd(s: string, k: nat): (e: nat)
    requires k <= |s|
    ensures k <= e <= |s|
  {
    if k < |s| && (s[k] == 'e' || s[k] == 'E')
    then ExponentEnd(s, SkipChar(s, SkipChar(s, k + 1, '-'), '+'), 0)
    else k
  }

  /** End of the number starting at `k`: what `atod` reports as consumed. */
  function NumberEnd(s: string, k: nat): (e: nat)
    requires k < |s| && (s[k] == '-' || Digit(s[k]))
    ensures k < e <= |s|
  {
    var whole := DigitsEnd(s, if s[k] == '-' || s[k] == '+' then k + 1 else k);
    MarkedExponentEnd(s, FractionEnd(s, whole))
  }

  /** The index written in a path at `pos`: its value and the place where its digits stop. */
  function ReadIndex(path: string, pos: nat, ei: int): (r: (int, nat))
    ensures r.1 >= pos
    decreases |path| - pos
  {
    if pos < |path| && path[pos] != ']' && path[pos] != '\0'
    then ReadIndex(path, pos + 1, ei * 10 + (path[pos] as int - '0' as int))
    else (ei, pos)
  }

  predicate Reached(path: string, st: State) {
    st.AtDepth() && PathAt(path, st.pos) == '\0' && st.ci == st.ei
  }

  /** A value ends before index `e`: it is the answer, or the index of the array moves on. */
  function EndValue(path: string, st: State, e: nat): Outcome {
    if Reached(path, st) then Return(Found(st.j, e - st.j))
    else Next(e, st.(mode := ExpectCommaOrEnd, ci := if st.AtDepth() && st.ei >= 0 then st.ci + 1 else st.ci))
  }

  /** A closing bracket `c` at index `e - 1`. */
  function CloseContainer(path: string, st: State, c: char, e: nat): Outcome
    requires |st.nesting| > 0
  {
    var open := st.nesting[|st.nesting| - 1];
    if st.AtDepth() && st.ci != st.ei then Return(NotFound)
    else if c as int != open as int + 2 then Return(Invalid)
    else EndValue(path, st.(nesting := st.nesting[..|st.nesting| - 1]), e)
  }

  predicate Spells(s: string, i: nat, word: string) {
    i + |word| <= |s| && s[i..i + |word|] == word
  }

  function OnValue(s: string, path: string, i: nat, st0: State): (o: Outcome)
    requires i < |s| && st0.Ok()
    ensures o.Next? ==> i < o.i <= |s| && o.st.Ok()
  {
    var c := s[i];
    var st := if st0.AtDepth() then st0.(j := i) else st0;
    if c == '{' then
      if |st.nesting| >= MAX_DEPTH then Return(TooDeep) else
      var onPath := st.AtDepth() && PathAt(path, st.pos) == '.' && st.ci == st.ei;
      var st := if onPath then st.(ed := st.ed + 1, pos := st.pos + 1, ci := -1, ei := -1) else st;
      Next(i + 1, st.(nesting := st.nesting + [c], mode := ExpectKey))
    else if c == '[' then
      if |st.nesting| >= MAX_DEPTH then Return(TooDeep) else
      var onPath := st.AtDepth() && PathAt(path, st.pos) == '[' && st.ei == st.ci;
      var (ei, pos) := ReadIndex(path, st.pos + 1, 0);
      var pos := if PathAt(path, pos) != '\0' then pos + 1 else pos;
      var st := if onPath then st.(ed := st.ed + 1, pos := pos, ci := 0, ei := ei) else st;
      Next(i + 1, st.(nesting := st.nesting + [c]))
    else if c == ']' && |st.nesting| > 0 then CloseContainer(path, st, c, i + 1)
    else if c == 't' && Spells(s, i, "true") then EndValue(path, st, i + 4)
    else if c == 'n' && Spells(s, i, "null") then EndValue(path, st, i + 4)
    else if c == 'f' && Spells(s, i, "false") then EndValue(path, st, i + 5)
    else if c == '-' || Digit(c) then EndValue(path, st, NumberEnd(s, i))
    else if c == '"' then
      var e := StringEnd(s, i + 1);
      if e.None? then Return(Invalid) else EndValue(path, st, e.value + 1)
    else Return(Invalid)
  }

  /** The key occupying `s[k..e]` is the next name of the path. */
  predicate KeyOnPath(s: string, path: string, st: State, k: nat, e: nat)
    requires k <= e <= |s| && st.Ok()
  {
    var n := e - k;
    st.AtDepth() && PathAt(path, st.pos - 1) == '.'
    && st.pos + n <= |path| && s[k..e] == path[st.pos..st.pos + n]
    && PathAt(path, st.pos + n) in {'\0', '.', '['}
  }

  function OnKey(s: string, path: string, i: nat, st: State): (o: Outcome)
    requires i < |s| && st.Ok() && st.mode.ExpectKey?
    ensures o.Next? ==> i < o.i <= |s| && o.st.Ok()
  {
    if s[i] == '"' then
      var e := StringEnd(s, i + 1);
      if e.None? then Return(Invalid)
      else if |st.nesting| < st.ed then Return(NotFound)
      else if st.AtDepth() && PathAt(path, st.pos - 1) != '.' then Return(NotFound)
      else
        var pos := if KeyOnPath(s, path, st, i + 1, e.value) then st.pos + (e.value - (i + 1)) else st.pos;
        Next(e.value + 1, st.(pos := pos, mode := ExpectColon))
    else if s[i] == '}' then CloseContainer(path, st, '}', i + 1)
    else Return(Invalid)
  }

  function OnCommaOrEnd(s: string, path: string, i: nat, st: State): (o: Outcome)
    requires i < |s| && st.Ok()
    ensures o.Next? ==> i < o.i <= |s| && o.st.Ok()
  {
    var c := s[i];
    var depth := |st.nesting|;
    if depth == 0 then Return(Invalid)
    else if c == ',' then
      Next(i + 1, st.(mode := if st.nesting[depth - 1] == '{' then ExpectKey else ExpectValue))
    else if c == ']' || c == '}' then
      if st.AtDepth() && c == '}' && PathAt(path, st.pos - 1) == '.' then Return(NotFound)
      else if st.AtDepth() && c == ']' && PathAt(path, st.pos - 1) == ',' then Return(NotFound)
      else CloseContainer(path, st, c, i + 1)
    else Return(Invalid)
  }

  function Step(s: string, path: string, i: nat, st: State): (o: Outcome)
    requires i < |s| && st.Ok()
    ensures o.Next? ==> i < o.i <= |s| && o.st.Ok()
  {
    if Blank(s[i]) then Next(i + 1, st)
    else match st.mode
      case ExpectValue => OnValue(s, path, i, st)
      case ExpectKey => OnKey(s, path, i, st)
      case ExpectColon => if s[i] == ':' then Next(i + 1, st.(mode := ExpectValue)) else Return(Invalid)
      case ExpectCommaOrEnd => OnCommaOrEnd(s, path, i, st)
  }

  function Run(s: string, path: string, i: nat, st: State): Reply
    requires i <= |s| && st.Ok()
    decreases |s| - i
  {
    if i == |s| then NotFound
    else match Step(s, path, i, st)
      case Next(k, st') => Run(s, path, k, st')
      case Return(r) => r
  }

  const START: State := State(ExpectValue, [], 0, 0, 1, -1, -1)

  function Query(s: string, path: string): Reply {
    if PathAt(path, 0) != '$' then Invalid else Run(s, path, 0, START)
  }
}
