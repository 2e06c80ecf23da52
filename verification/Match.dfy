/** The glob matcher `match` (without captures): one backtracking point, against the declarative
    meaning of its patterns. */
module Match {
  // ----- meaning

  predicate Wildcard(c: char) { c == '*' || c == '#' }

  /** `?` stands for one character, `#` for any text, `*` for any text without a slash. */
  ghost predicate Glob(s: string, p: string)
    decreases |p|
  {
    if p == "" then s == ""
    else if p[0] == '#' then exists k :: 0 <= k <= |s| && Glob(s[k..], p[1..])
    else if p[0] == '*' then exists k :: 0 <= k <= |s| && '/' !in s[..k] && Glob(s[k..], p[1..])
    else s != "" && (p[0] == '?' || p[0] == s[0]) && Glob(s[1..], p[1..])
  }

  // ----- the loop

  /** Between two turns: places in pattern and subject, the last wildcard seen and where the subject
      goes on once that wildcard takes one character more. */
  datatype Cursor = Cursor(i: nat, j: nat, ni: nat, nj: nat)
  {
    ghost predicate Ok(s: string, p: string) {
      && i <= |p| && j <= |s|
      && (nj == 0 ==> ni == 0)
      && (nj > 0 ==> ni < |p| && Wildcard(p[ni]) && ni <= i && nj <= |s| + 1)
      && (nj > 0 && i == ni ==> j == nj)
      && (nj > 0 && i > ni ==> j + 1 - nj == i - ni - 1 && forall k :: ni < k < i ==> !Wildcard(p[k]))
    }
  }

  predicate Takes(s: string, p: string, c: Cursor) {
    c.i < |p| && c.j < |s| && (p[c.i] == '?' || (p[c.i] != '*' && p[c.i] != '#' && s[c.j] == p[c.i]))
  }

  predicate Retries(s: string, p: string, c: Cursor) {
    c.nj > 0 && c.nj <= |s| && ((c.ni < |p| && p[c.ni] == '#') || (c.j < |s| && s[c.j] != '/'))
  }

  /** What the loop answers from a cursor on. */
  predicate Scan(s: string, p: string, c: Cursor)
    requires c.Ok(s, p)
    decreases |p| - c.ni, |s| + 1 - c.nj, if c.nj > 0 && c.i == c.ni then 0 else 1 + |p| - c.i
  {
    if c.i >= |p| && c.j >= |s| then true
    else if Takes(s, p, c) then Scan(s, p, c.(i := c.i + 1, j := c.j + 1))
    else if c.i < |p| && Wildcard(p[c.i]) then Scan(s, p, Cursor(c.i + 1, c.j, c.i, c.j + 1))
    else if Retries(s, p, c) then Scan(s, p, c.(i := c.ni, j := c.nj))
    else false
  }

  const START := Cursor(0, 0, 0, 0)

  predicate Matches(s: string, p: string) {
    Scan(s, p, START)
  }

  method Match(s: string, p: string) returns (yes: bool)
    ensures yes == Matches(s, p)
  {
    var i, j, ni, nj := 0, 0, 0, 0;
    while i < |p| || j < |s|
      invariant Cursor(i, j, ni, nj).Ok(s, p) && Matches(s, p) == Scan(s, p, Cursor(i, j, ni, nj))
      decreases |p| - ni, |s| + 1 - nj, if nj > 0 && i == ni then 0 else 1 + |p| - i
    {
      if i < |p| && j < |s| && (p[i] == '?' || (p[i] != '*' && p[i] != '#' && s[j] == p[i])) {
        i, j := i + 1, j + 1;
      } else if i < |p| && (p[i] == '*' || p[i] == '#') {
        ni, nj, i := i, j + 1, i + 1;
      } else if nj > 0 && nj <= |s| && ((ni < |p| && p[ni] == '#') || (j < |s| && s[j] != '/')) {
        i, j := ni, nj;
      } else {
        return false;
      }
    }
    return true;
  }

  // ----- one backtracking point is enough

  /** Whether the wildcard `w` may take the character `c`. */
  predicate May(w: char, c: char) { w == '#' || c != '/' }

  /** The suffix of `p` at `i` stands for the suffix of `s` at `j`. */
  predicate Fits(s: string, p: string, i: nat, j: nat)
    requires i <= |p| && j <= |s|
    decreases |p| - i, |s| - j
  {
    if i == |p| then j == |s|
    else if Wildcard(p[i]) then Fits(s, p, i + 1, j) || (j < |s| && May(p[i], s[j]) && Fits(s, p, i, j + 1))
    else j < |s| && (p[i] == '?' || p[i] == s[j]) && Fits(s, p, i + 1, j + 1)
  }

  /** The place of the next wildcard from `i` on. */
  function StretchEnd(p: string, i: nat): (e: nat)
    requires i <= |p|
    ensures i <= e <= |p| && (forall k :: i <= k < e ==> !Wildcard(p[k])) && (e < |p| ==> Wildcard(p[e]))
    decreases |p| - i
  {
    if i < |p| && !Wildcard(p[i]) then StretchEnd(p, i + 1) else i
  }

  /** What follows the `*` at `k` up to the next wildcard has no `?`, and begins with a slash only if it
      is nothing else and a wildcard follows. */
  predicate TameAt(p: string, k: nat)
    requires k < |p|
  {
    var e := StretchEnd(p, k + 1);
    '?' !in p[k + 1..e] && (k + 1 < e && p[k + 1] == '/' ==> k + 2 == e < |p|)
  }

  /** Every `*` is like that, and no `#` stands before it. */
  predicate Tame(p: string) {
    forall k :: 0 <= k < |p| && p[k] == '*' ==> '#' !in p[..k] && TameAt(p, k)
  }

  /** Where the slash rule of the loop does what it is meant to do. */
  predicate Safe(s: string, p: string) {
    '/' !in s || Tame(p)
  }

  /** The part of the pattern from `lo` to `hi`, without wildcards, has its place at `a`. */
  predicate Placed(s: string, p: string, lo: nat, hi: nat, a: nat)
    requires lo <= hi <= |p|
  {
    a + (hi - lo) <= |s| && forall k :: lo <= k < hi ==> p[k] == '?' || p[k] == s[a + (k - lo)]
  }

  /** The loop has matched what is behind its last wildcard. */
  predicate Followed(s: string, p: string, c: Cursor)
    requires c.Ok(s, p)
  {
    c.nj > 0 && c.i > c.ni ==> Placed(s, p, c.ni + 1, c.i, c.nj - 1)
  }

  predicate NoSlash(s: string, a: nat, b: nat)
    requires b <= |s|
  {
    forall k :: a <= k < b ==> s[k] != '/'
  }

  lemma {:induction false} WildcardTakesMore(s: string, p: string, i: nat, j: nat, j': nat)
    requires i < |p| && Wildcard(p[i]) && j <= j' <= |s| && Fits(s, p, i, j')
    requires p[i] == '#' || NoSlash(s, j, j')
    ensures Fits(s, p, i, j)
    decreases j' - j
  {
    if j < j' {
      WildcardTakesMore(s, p, i, j + 1, j');
    }
  }

  /** A stretch of the pattern without wildcards consumes exactly its length. */
  lemma {:induction false} PlainStretch(s: string, p: string, a: nat, b: nat, k: nat)
    requires a <= b <= |p| && k <= |s| && (forall m :: a <= m < b ==> !Wildcard(p[m])) && Fits(s, p, a, k)
    ensures Placed(s, p, a, b, k) && Fits(s, p, b, k + (b - a))
    decreases b - a
  {
    if a < b {
      PlainStretch(s, p, a + 1, b, k + 1);
    }
  }

  lemma {:induction false} WildcardSplit(s: string, p: string, i: nat, j: nat) returns (k: nat)
    requires i < |p| && j <= |s| && Wildcard(p[i]) && Fits(s, p, i, j)
    ensures j <= k <= |s| && Fits(s, p, i + 1, k) && (p[i] == '#' || NoSlash(s, j, k))
    decreases |s| - j
  {
    if Fits(s, p, i + 1, j) {
      k := j;
    } else {
      k := WildcardSplit(s, p, i, j + 1);
    }
  }

  /** The last wildcard may take one character more, and then what follows has a place. */
  predicate Other(s: string, p: string, c: Cursor)
    requires c.Ok(s, p)
  {
    0 < c.nj <= |s| && May(p[c.ni], s[c.nj - 1]) && Fits(s, p, c.ni, c.nj)
  }

  /** Another choice for the last wildcard is left that leads to a match. */
  predicate Hope(s: string, p: string, c: Cursor)
    requires c.Ok(s, p)
  {
    Fits(s, p, c.i, c.j) || Other(s, p, c)
  }

  /** Any other choice for the last wildcard gets at least one character further. */
  lemma RetryGetsFurther(s: string, p: string, c: Cursor) returns (k: nat)
    requires c.Ok(s, p) && c.i > c.ni && Other(s, p, c)
    ensures c.nj <= k && Placed(s, p, c.ni + 1, c.i, k) && Fits(s, p, c.i, k + (c.i - c.ni - 1))
    ensures p[c.ni] == '#' || NoSlash(s, c.nj - 1, k)
  {
    k := WildcardSplit(s, p, c.ni, c.nj);
    PlainStretch(s, p, c.ni + 1, c.i, k);
  }

  /** A stretch that has two places with no slash from one to the other has no slash at all. */
  lemma {:induction false} TwoPlaces(s: string, p: string, lo: nat, hi: nat, a: nat, b: nat, m: nat)
    requires lo <= m < hi <= |p| && a < b <= |s| && '?' !in p[lo..hi] && NoSlash(s, a, b)
    requires Placed(s, p, lo, hi, a) && Placed(s, p, lo, hi, b)
    ensures p[m] != '/'
    decreases m
  {
    assert forall k :: lo <= k < hi ==> p[k] == p[lo..hi][k - lo];
    if p[m] == '/' {
      var x := a + (m - lo);
      assert p[m] == s[x];
      var m' := lo + (x - b);
      assert p[m'] == s[b + (m' - lo)];
      TwoPlaces(s, p, lo, hi, a, b, m');
    }
  }

  /** What `Tame` says of the part of the pattern that has been matched since the last `*`. */
  lemma TameSince(s: string, p: string, c: Cursor)
    requires c.Ok(s, p) && Tame(p) && c.nj > 0 && c.i > c.ni && p[c.ni] == '*'
    ensures '?' !in p[c.ni + 1..c.i]
    ensures c.i > c.ni + 1 && p[c.ni + 1] == '/' ==> c.i < |p| && Wildcard(p[c.i])
  {
    var e := StretchEnd(p, c.ni + 1);
    assert TameAt(p, c.ni) && c.i <= e;
    PartMarks(p, c.ni + 1, c.i, e);
  }

  lemma PartMarks(p: string, a: nat, b: nat, e: nat)
    requires a <= b <= e <= |p| && '?' !in p[a..e]
    ensures '?' !in p[a..b]
  {
    forall k | a <= k < b
      ensures p[k] != '?'
    {
      assert p[a..e][k - a] == p[k];
    }
  }

  /** Forgetting all wildcards but the last loses no match. */
  lemma LastWildcardSuffices(s: string, p: string, c: Cursor)
    requires c.Ok(s, p) && Followed(s, p, c) && Safe(s, p) && c.i < |p| && Wildcard(p[c.i])
    ensures Hope(s, p, c) == Hope(s, p, Cursor(c.i + 1, c.j, c.i, c.j + 1))
  {
    hide Tame;
    if Other(s, p, c) && c.i > c.ni {
      var k := RetryGetsFurther(s, p, c);
      var n := c.i - c.ni - 1;
      if p[c.i] == '*' && '/' in s {
        OnlyStarsBefore(p, c.i, c.ni);
        TameSince(s, p, c);
        forall x | c.j <= x < k + n
          ensures s[x] != '/'
        {
          if x >= k {
            var m := c.ni + 1 + (x - k);
            TwoPlaces(s, p, c.ni + 1, c.i, c.nj - 1, k, m);
            assert p[m] == p[c.ni + 1..c.i][x - k] && p[m] == s[k + (m - (c.ni + 1))];
          }
        }
      }
      WildcardTakesMore(s, p, c.i, c.j, k + n);
    }
  }

  lemma OnlyStarsBefore(p: string, i: nat, k: nat)
    requires Tame(p) && k < i < |p| && p[i] == '*' && Wildcard(p[k])
    ensures p[k] == '*'
  {
    assert p[..i][k] == p[k];
  }

  /** Giving up is right: no choice for the last wildcard helps. */
  lemma NothingLeft(s: string, p: string, c: Cursor)
    requires c.Ok(s, p) && Followed(s, p, c) && Safe(s, p) && (c.i < |p| || c.j < |s|)
    requires !Takes(s, p, c) && !(c.i < |p| && Wildcard(p[c.i])) && !Retries(s, p, c)
    ensures !Hope(s, p, c)
  {
    hide Tame;
    if Other(s, p, c) {
      var k := RetryGetsFurther(s, p, c);
      if c.j < |s| {
        assert s[c.j] == '/' && s[c.j] in s && p[c.ni] == '*';
        TameSince(s, p, c);
        var m := c.ni + 1 + (c.j - k);
        assert p[m] == p[c.ni + 1..c.i][c.j - k] && p[m] == s[k + (m - (c.ni + 1))];
        TwoPlaces(s, p, c.ni + 1, c.i, c.nj - 1, k, m);
      }
    }
  }

  /** Trying again is right: the `*` does not take a slash. */
  lemma RetryIsFair(s: string, p: string, c: Cursor)
    requires c.Ok(s, p) && Followed(s, p, c) && Safe(s, p) && (c.i < |p| || c.j < |s|)
    requires !Takes(s, p, c) && !(c.i < |p| && Wildcard(p[c.i])) && Retries(s, p, c)
    ensures Hope(s, p, c) == Fits(s, p, c.ni, c.nj)
  {
    hide Tame;
    if p[c.ni] == '*' && '/' in s && c.i > c.ni + 1 {
      TameSince(s, p, c);
      assert p[c.ni + 1] == p[c.ni + 1..c.i][0] && p[c.ni + 1] == s[c.nj - 1 + 0];
    }
  }

  lemma {:induction false} ScanIsHope(s: string, p: string, c: Cursor)
    requires c.Ok(s, p) && Followed(s, p, c) && Safe(s, p)
    ensures Scan(s, p, c) == Hope(s, p, c)
    decreases |p| - c.ni, |s| + 1 - c.nj, if c.nj > 0 && c.i == c.ni then 0 else 1 + |p| - c.i
  {
    hide Safe;
    if c.i >= |p| && c.j >= |s| {
    } else if Takes(s, p, c) {
      ScanIsHope(s, p, c.(i := c.i + 1, j := c.j + 1));
    } else if c.i < |p| && Wildcard(p[c.i]) {
      LastWildcardSuffices(s, p, c);
      ScanIsHope(s, p, Cursor(c.i + 1, c.j, c.i, c.j + 1));
    } else if Retries(s, p, c) {
      RetryIsFair(s, p, c);
      ScanIsHope(s, p, c.(i := c.ni, j := c.nj));
    } else {
      NothingLeft(s, p, c);
    }
  }

  // ----- the declarative meaning

  lemma {:induction false} FitsIsGlob(s: string, p: string, i: nat, j: nat)
    requires i <= |p| && j <= |s|
    ensures Fits(s, p, i, j) == Glob(s[j..], p[i..])
    decreases |p| - i, |s| - j, 1
  {
    if i == |p| {
    } else if Wildcard(p[i]) {
      WildcardIsGlob(s, p, i, j);
    } else if j < |s| {
      FitsIsGlob(s, p, i + 1, j + 1);
      assert p[i..][1..] == p[i + 1..] && s[j..][1..] == s[j + 1..];
    }
  }

  lemma {:induction false} WildcardIsGlob(s: string, p: string, i: nat, j: nat)
    requires i < |p| && j <= |s| && Wildcard(p[i])
    ensures Fits(s, p, i, j) == Glob(s[j..], p[i..])
    decreases |p| - i, |s| - j, 0
  {
    var t, q := s[j..], p[i..];
    assert q[0] == p[i] && q[1..] == p[i + 1..];
    forall k | 0 <= k <= |t|
      ensures Glob(t[k..], q[1..]) == Fits(s, p, i + 1, j + k) && ('/' !in t[..k] <==> NoSlash(s, j, j + k))
      ensures Fits(s, p, i + 1, j + k) && (q[0] == '#' || NoSlash(s, j, j + k)) ==> Fits(s, p, i, j)
    {
      assert t[k..] == s[j + k..];
      assert forall x :: 0 <= x < k ==> t[..k][x] == s[j + x];
      FitsIsGlob(s, p, i + 1, j + k);
      if Fits(s, p, i + 1, j + k) && (q[0] == '#' || NoSlash(s, j, j + k)) {
        WildcardTakesMore(s, p, i, j, j + k);
      }
    }
    if Fits(s, p, i, j) {
      var k := WildcardSplit(s, p, i, j);
      assert Glob(t[k - j..], q[1..]);
    }
  }

  /** `match` decides the glob relation whenever the subject has no slash or the pattern is tame; a pattern
      without `*` is. */
  lemma MatchIsGlob(s: string, p: string)
    requires Safe(s, p)
    ensures Matches(s, p) == Glob(s, p)
  {
    ScanIsHope(s, p, START);
    FitsIsGlob(s, p, 0, 0);
    assert s[0..] == s && p[0..] == p;
  }

  // ----- slashes

  /** With the pattern `#*` the loop stops at the first slash, although `#` may take it. */
  lemma {:induction false} HashStarScan(s: string, j: nat)
    requires j <= |s| && '/' !in s[..j]
    ensures Cursor(2, j, 1, j + 1).Ok(s, "#*") && Scan(s, "#*", Cursor(2, j, 1, j + 1)) == ('/' !in s)
    decreases |s| - j
  {
    var p := "#*";
    var c := Cursor(2, j, 1, j + 1);
    assert c.Ok(s, p);
    if j == |s| {
      assert s[..j] == s;
    } else if s[j] == '/' {
      assert !Retries(s, p, c);
    } else {
      assert s[..j + 1] == s[..j] + [s[j]];
      HashStarScan(s, j + 1);
      var c1 := c.(i := 1, j := j + 1);
      assert Retries(s, p, c) && Scan(s, p, c) == Scan(s, p, c1);
      assert Scan(s, p, c1) == Scan(s, p, Cursor(2, j + 1, 1, j + 2));
    }
  }

  lemma HashStarMissesSlash(s: string)
    ensures Matches(s, "#*") == ('/' !in s) && Glob(s, "#*")
  {
    HashStarScan(s, 0);
    HashStarBegins(s);
    hide Scan;
    HashStarAll(s);
  }

  lemma HashStarBegins(s: string)
    ensures Cursor(2, 0, 1, 1).Ok(s, "#*") && Matches(s, "#*") == Scan(s, "#*", Cursor(2, 0, 1, 1))
  {
    var p := "#*";
    assert Scan(s, p, START) == Scan(s, p, Cursor(1, 0, 0, 1));
    assert Scan(s, p, Cursor(1, 0, 0, 1)) == Scan(s, p, Cursor(2, 0, 1, 1));
  }

  lemma HashStarAll(s: string)
    ensures Glob(s, "#*")
  {
    var p := "#*";
    assert p[1..] == "*" && p[1..][1..] == "";
    assert s[|s|..] == "" && s[|s|..][..0] == "" && s[|s|..][0..] == "";
    assert Glob(s[|s|..][0..], p[1..][1..]);
    assert Glob(s[|s|..], p[1..]);
  }

  /** A subject is matched as documented against every pattern exactly when it has no slash. */
  lemma ExactIffNoSlash(s: string)
    ensures (forall p: string :: Matches(s, p) == Glob(s, p)) <==> '/' !in s
  {
    if '/' in s {
      HashStarMissesSlash(s);
      assert Matches(s, "#*") != Glob(s, "#*");
    } else {
      forall p: string
        ensures Matches(s, p) == Glob(s, p)
      {
        MatchIsGlob(s, p);
      }
    }
  }

  // ----- exactly which patterns

  /** Characters and `*` only. */
  predicate StarsOnly(p: string) {
    '?' !in p && '#' !in p
  }

  /** The pattern without its wildcards: a subject that every `*` meets with nothing. */
  function Bare(p: string): string {
    if p == "" then "" else (if Wildcard(p[0]) then "" else [p[0]]) + Bare(p[1..])
  }

  function Slashes(s: string): nat {
    if s == "" then 0 else (if s[0] == '/' then 1 else 0) + Slashes(s[1..])
  }

  lemma {:induction false} SlashesAppend(s: string, t: string)
    ensures Slashes(s + t) == Slashes(s) + Slashes(t)
  {
    if s == "" {
      assert s + t == t;
    } else {
      assert (s + t)[1..] == s[1..] + t;
      SlashesAppend(s[1..], t);
    }
  }

  lemma {:induction false} BareAppend(p: string, q: string)
    ensures Bare(p + q) == Bare(p) + Bare(q)
  {
    if p == "" {
      assert p + q == q;
    } else {
      assert (p + q)[1..] == p[1..] + q;
      BareAppend(p[1..], q);
    }
  }

  lemma {:induction false} BareSlashes(p: string)
    ensures Slashes(Bare(p)) == Slashes(p)
  {
    if p != "" {
      BareSlashes(p[1..]);
      assert [p[0]][1..] == "";
      SlashesAppend(if Wildcard(p[0]) then "" else [p[0]], Bare(p[1..]));
    }
  }

  /** Stars take no slash, so a subject has as many as its pattern. */
  lemma {:induction false} SlashesMatch(s: string, p: string, i: nat, j: nat)
    requires i <= |p| && j <= |s| && StarsOnly(p) && Fits(s, p, i, j)
    ensures Slashes(s[j..]) == Slashes(p[i..])
    decreases |p| - i, |s| - j
  {
    if i < |p| {
      assert p[i] in p && p[i..][1..] == p[i + 1..];
      if Wildcard(p[i]) && Fits(s, p, i + 1, j) {
        SlashesMatch(s, p, i + 1, j);
      } else {
        assert s[j..][1..] == s[j + 1..];
        SlashesMatch(s, p, if Wildcard(p[i]) then i else i + 1, j + 1);
      }
    }
  }

  lemma NothingBare()
    ensures Bare("") == ""
  {
  }

  lemma BareStep(s: string, p: string, i: nat, j: nat, k: nat)
    requires i < k <= |p| && j <= |s| && Bare(p[i..k]) <= s[j..]
    ensures if Wildcard(p[i]) then Bare(p[i..k]) == Bare(p[i + 1..k])
            else
              && |Bare(p[i..k])| == 1 + |Bare(p[i + 1..k])|
              && j < |s| && s[j] == p[i] && p[i] in p && Bare(p[i + 1..k]) <= s[j + 1..]
  {
    var q := p[i..k];
    assert q[0] == p[i] && q[1..] == p[i + 1..k];
    if !Wildcard(p[i]) {
      assert s[j..][0] == Bare(q)[0] == p[i];
      assert Bare(q)[1..] == Bare(q[1..]) && s[j..][1..] == s[j + 1..];
    }
  }

  /** From a cursor where the subject goes on with the bare pattern, the loop runs through it without a
      retry. */
  lemma {:induction false} RunsThrough(s: string, p: string, c: Cursor, k: nat) returns (d: Cursor)
    requires c.Ok(s, p) && c.i <= k <= |p| && '?' !in p && Bare(p[c.i..k]) <= s[c.j..]
    ensures d.Ok(s, p) && d.i == k && d.j == c.j + |Bare(p[c.i..k])| && Scan(s, p, c) == Scan(s, p, d)
    decreases k - c.i
  {
    hide Bare;
    if c.i == k {
      NothingBare();
      assert p[k..k] == "";
      d := c;
    } else {
      BareStep(s, p, c.i, c.j, k);
      if Wildcard(p[c.i]) {
        d := RunsThrough(s, p, Cursor(c.i + 1, c.j, c.i, c.j + 1), k);
      } else {
        d := RunsThrough(s, p, c.(i := c.i + 1, j := c.j + 1), k);
      }
    }
  }

  /** A `*` before a slash that is at the end or followed by a character. */
  predicate Leaps(p: string, k: nat) {
    k + 1 < |p| && p[k] == '*' && p[k + 1] == '/' && (k + 2 < |p| ==> !Wildcard(p[k + 2]))
  }

  /** Some character other than the one that follows the slash. */
  function Another(p: string, k: nat): (y: char)
    ensures y != '/' && (k + 2 < |p| ==> p[k + 2] != y)
  {
    if k + 2 < |p| && p[k + 2] == 'a' then 'b' else 'a'
  }

  /** Before what that `*` is followed by, a slash and another character. */
  function Across(p: string, k: nat): string
    requires Leaps(p, k)
  {
    Bare(p[..k]) + (['/', Another(p, k)] + Bare(p[k + 1..]))
  }

  lemma NotTameLeaps(p: string) returns (k: nat)
    requires StarsOnly(p) && !Tame(p)
    ensures Leaps(p, k)
  {
    k :| 0 <= k < |p| && p[k] == '*' && !('#' !in p[..k] && TameAt(p, k));
    var e := StretchEnd(p, k + 1);
    assert forall x :: x in p[..k] || x in p[k + 1..e] ==> x in p;
  }

  lemma LeapNotGlob(p: string, k: nat)
    requires StarsOnly(p) && Leaps(p, k)
    ensures !Glob(Across(p, k), p)
  {
    var s, front, back, y := Across(p, k), p[..k], p[k + 1..], Another(p, k);
    FitsIsGlob(s, p, 0, 0);
    assert s[0..] == s && p[0..] == p;
    if Glob(s, p) {
      SlashesMatch(s, p, 0, 0);
      SlashesAppend(Bare(front), ['/', y] + Bare(back));
      SlashesAppend(['/', y], Bare(back));
      assert ['/', y][1..] == [y] && [y][1..] == "";
      BareSlashes(front);
      BareSlashes(back);
      assert p == front + (['*'] + back) && (['*'] + back)[1..] == back;
      SlashesAppend(front, ['*'] + back);
    }
  }

  lemma AcrossParts(p: string, k: nat)
    requires Leaps(p, k)
    ensures var s, b := Across(p, k), |Bare(p[..k])|;
            && Bare(p[..k]) <= s && b + 2 <= |s| && s[b] == '/' && s[b + 1] == Another(p, k)
            && s[b + 2..] == Bare(p[k + 1..])
  {
    hide Bare;
  }

  /** The loop gives the slash to the `*` when it fails behind it. */
  lemma LeapMatches(p: string, k: nat)
    requires StarsOnly(p) && Leaps(p, k)
    ensures Matches(Across(p, k), p)
  {
    hide Bare, Across, Another;
    var s, b := Across(p, k), |Bare(p[..k])|;
    AcrossParts(p, k);
    assert s[0..] == s && p[0..k] == p[..k] && p[k + 1..|p|] == p[k + 1..];
    var c := RunsThrough(s, p, START, k);
    LeapTaken(s, p, c);
    var d := RunsThrough(s, p, Cursor(k + 1, b + 2, k, b + 3), |p|);
    assert Scan(s, p, d);
  }

  lemma LeapTaken(s: string, p: string, c: Cursor)
    requires c.Ok(s, p) && Leaps(p, c.i) && c.j + 2 <= |s| && s[c.j] == '/' && s[c.j + 1] == Another(p, c.i)
    requires '?' !in p
    ensures var d := Cursor(c.i + 1, c.j + 2, c.i, c.j + 3);
            d.Ok(s, p) && Scan(s, p, c) == Scan(s, p, d)
  {
    var k, b := c.i, c.j;
    var c1, c2, c3 := Cursor(k + 1, b, k, b + 1), Cursor(k + 2, b + 1, k, b + 1), Cursor(k, b + 1, k, b + 1);
    var c4, c5 := Cursor(k + 1, b + 1, k, b + 2), Cursor(k, b + 2, k, b + 2);
    assert k + 2 < |p| ==> p[k + 2] in p;
    assert Scan(s, p, c) == Scan(s, p, c1);
    assert Scan(s, p, c1) == Scan(s, p, c2);
    assert Scan(s, p, c2) == Scan(s, p, c3);
    assert Scan(s, p, c3) == Scan(s, p, c4);
    assert Scan(s, p, c4) == Scan(s, p, c5);
  }

  /** A pattern of characters and stars is matched as documented against every subject exactly when it is
      tame: when a `*` before a slash has another wildcard right behind that slash. */
  lemma ExactIffTame(p: string)
    requires StarsOnly(p)
    ensures (forall s: string :: Matches(s, p) == Glob(s, p)) <==> Tame(p)
    ensures Tame(p) <==> forall k :: 0 <= k < |p| ==> !Leaps(p, k)
  {
    if Tame(p) {
      forall s: string
        ensures Matches(s, p) == Glob(s, p)
      {
        MatchIsGlob(s, p);
      }
      forall k | 0 <= k < |p| && p[k] == '*'
        ensures !Leaps(p, k)
      {
        assert TameAt(p, k);
      }
    } else {
      var k := NotTameLeaps(p);
      LeapMatches(p, k);
      LeapNotGlob(p, k);
      assert Matches(Across(p, k), p) != Glob(Across(p, k), p);
    }
  }

  lemma JumpBegins(s: string, p: string)
    requires s == "/a/b" && p == "*/b"
    ensures Cursor(0, 1, 0, 1).Ok(s, p) && Matches(s, p) == Scan(s, p, Cursor(0, 1, 0, 1))
  {
    var c1, c2, c3 := Cursor(1, 0, 0, 1), Cursor(2, 1, 0, 1), Cursor(0, 1, 0, 1);
    assert Scan(s, p, c2) == Scan(s, p, c3);
    assert Scan(s, p, c1) == Scan(s, p, c2);
    assert Scan(s, p, START) == Scan(s, p, c1);
  }

  lemma JumpGoesOn(s: string, p: string)
    requires s == "/a/b" && p == "*/b"
    ensures Cursor(0, 1, 0, 1).Ok(s, p) && Cursor(1, 2, 0, 3).Ok(s, p)
    ensures Scan(s, p, Cursor(0, 1, 0, 1)) == Scan(s, p, Cursor(1, 2, 0, 3))
  {
    var c1, c2 := Cursor(1, 1, 0, 2), Cursor(0, 2, 0, 2);
    assert Scan(s, p, c2) == Scan(s, p, Cursor(1, 2, 0, 3));
    assert Scan(s, p, c1) == Scan(s, p, c2);
  }

  lemma JumpEnds(s: string, p: string)
    requires s == "/a/b" && p == "*/b"
    ensures Cursor(1, 2, 0, 3).Ok(s, p) && Scan(s, p, Cursor(1, 2, 0, 3))
  {
    assert Scan(s, p, Cursor(3, 4, 0, 3));
    assert Scan(s, p, Cursor(2, 3, 0, 3)) == Scan(s, p, Cursor(3, 4, 0, 3));
  }

  /** `*` can also be made to jump over a slash. */
  lemma StarJumpsSlash()
    ensures Matches("/a/b", "*/b") && !Glob("/a/b", "*/b")
  {
    var s, p := "/a/b", "*/b";
    JumpBegins(s, p);
    JumpGoesOn(s, p);
    JumpEnds(s, p);
    hide Scan;
    NoGlobAcross(s, p);
  }

  lemma NoGlobAcross(s: string, p: string)
    requires s == "/a/b" && p == "*/b"
    ensures !Glob(s, p)
  {
    forall k | 0 <= k <= |s|
      ensures '/' in s[..k] || !Glob(s[k..], p[1..])
    {
      if k > 0 {
        assert s[..k][0] == '/';
      } else {
        var t, q := s[0..][1..], p[1..][1..];
        assert t[0] == 'a' && q[0] == 'b' && !Glob(t, q);
      }
    }
  }
}
