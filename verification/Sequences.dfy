/** Places in sequences, and sequences edited in place. */
module Sequences {
  /** `t` stands in `s` at index `i`. */
  predicate At<T(==)>(s: seq<T>, i: nat, t: seq<T>) {
    i + |t| <= |s| && s[i..i + |t|] == t
  }

  lemma AtSplit<T>(s: seq<T>, i: nat, a: seq<T>, b: seq<T>)
    requires At(s, i, a + b)
    ensures At(s, i, a) && At(s, i + |a|, b) && i + |a| + |b| <= |s|
  {
    assert s[i..i + |a|] == (a + b)[..|a|] == a;
    assert s[i + |a|..i + |a| + |b|] == (a + b)[|a|..] == b;
  }

  lemma AtIndex<T>(s: seq<T>, i: nat, t: seq<T>, k: nat)
    requires At(s, i, t) && k < |t|
    ensures i + |t| <= |s| && s[i + k] == t[k]
  {
    assert s[i..i + |t|][k] == t[k];
  }

  lemma AtSlice<T>(s: seq<T>, i: nat, t: seq<T>)
    requires At(s, i, t)
    ensures i + |t| <= |s| && s[i..i + |t|] == t
  {
  }

  lemma AtStart<T>(s: seq<T>, t: seq<T>)
    ensures At(s + t, 0, s)
  {
  }

  lemma AtWhole<T>(s: seq<T>)
    ensures At(s, 0, s)
  {
  }

  /** `t` written over `s` at `dst`: `memcpy`. */
  function Spliced<T>(s: seq<T>, dst: nat, t: seq<T>): (r: seq<T>)
    requires dst + |t| <= |s|
    ensures |r| == |s|
  {
    s[..dst] + t + s[dst + |t|..]
  }

  /** `n` elements of `s` from `src` copied to `dst`, which may overlap: `memmove`. */
  function Moved<T>(s: seq<T>, dst: nat, src: nat, n: nat): (r: seq<T>)
    requires dst + n <= |s| && src + n <= |s|
    ensures |r| == |s|
  {
    Spliced(s, dst, s[src..src + n])
  }

  /** `t` put into `s` at `at`, the rest moved up. */
  function Inserted<T>(s: seq<T>, at: nat, t: seq<T>): (r: seq<T>)
    requires at <= |s|
    ensures |r| == |s| + |t|
  {
    s[..at] + t + s[at..]
  }

  lemma SplicedFront<T>(s: seq<T>, dst: nat, t: seq<T>, n: nat)
    requires dst + |t| <= n <= |s|
    ensures Spliced(s, dst, t)[..n] == s[..dst] + t + s[dst + |t|..n]
  {
  }

  lemma SuffixTwice<T>(s: seq<T>, a: nat, b: nat)
    requires a + b <= |s|
    ensures s[a..][b..] == s[a + b..]
  {
  }

  lemma SplicedParts<T>(s: seq<T>, dst: nat, t: seq<T>)
    requires dst + |t| <= |s|
    ensures var r := Spliced(s, dst, t);
            r[..dst] == s[..dst] && r[dst..dst + |t|] == t && r[dst + |t|..] == s[dst + |t|..]
  {
  }

  /** Writing over the end of the first `len` elements. */
  lemma SplicedEnd<T>(s: seq<T>, dst: nat, t: seq<T>, len: nat)
    requires dst + |t| == len <= |s|
    ensures Spliced(s, dst, t)[..len][..dst] == s[..len][..dst] && Spliced(s, dst, t)[..len][dst..] == t
  {
  }

  lemma MovedParts<T>(s: seq<T>, dst: nat, src: nat, n: nat)
    requires dst + n <= |s| && src + n <= |s|
    ensures Moved(s, dst, src, n)[..dst] == s[..dst]
    ensures Moved(s, dst, src, n)[dst..dst + n] == s[src..src + n]
  {
  }

  lemma SplicedSelf<T>(s: seq<T>, i: nat, j: nat)
    requires i <= j <= |s|
    ensures Spliced(s, i, s[i..j]) == s
  {
  }

  /** Writing into a part of `s` is writing into `s`. */
  lemma SplicedPart<T>(s: seq<T>, i: nat, j: nat, h: nat, t: seq<T>)
    requires i <= j <= |s| && h + |t| <= j - i
    ensures Spliced(s, i + h, t) == Spliced(s, i, Spliced(s[i..j], h, t))
  {
    assert s[i..j][..h] == s[i..i + h] && s[i..j][h + |t|..] == s[i + h + |t|..j];
    assert s[..i] + s[i..i + h] == s[..i + h];
    assert s[i + h + |t|..j] + s[j..] == s[i + h + |t|..];
  }

  lemma PartOfPart<T>(s: seq<T>, ofs: nat, len: nat, i: nat, j: nat)
    requires ofs + len <= |s| && i <= j <= len
    ensures s[ofs..ofs + len][i..j] == s[ofs + i..ofs + j]
  {
    var p, q := s[ofs..ofs + len][i..j], s[ofs + i..ofs + j];
    forall k | 0 <= k < |p|
      ensures p[k] == q[k]
    {
      assert s[ofs..ofs + len][i + k] == s[ofs + (i + k)];
    }
    assert p == q;
  }

  /** Equal up to `k`: equal in every part before `k`. */
  lemma FrontPart<T>(a: seq<T>, b: seq<T>, k: nat, i: nat, j: nat)
    requires k <= |a| && k <= |b| && a[..k] == b[..k] && i <= j <= k
    ensures a[i..j] == b[i..j]
  {
    assert a[i..j] == a[..k][i..j] && b[i..j] == b[..k][i..j];
  }

  /** Equal from `k` on: equal in every part after `k`. */
  lemma BackPart<T>(a: seq<T>, b: seq<T>, k: nat, i: nat, j: nat)
    requires k <= |a| == |b| && a[k..] == b[k..] && k <= i <= j <= |a|
    ensures a[i..j] == b[i..j] && a[i..] == b[i..]
  {
    forall m | k <= m < |a|
      ensures a[m] == b[m]
    {
      assert a[m] == a[k..][m - k] && b[m] == b[k..][m - k];
    }
    assert a[i..j] == b[i..j];
    assert a[i..] == b[i..];
  }
}
