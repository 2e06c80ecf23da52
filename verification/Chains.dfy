/** Intrusive lists: every block in use has a `next` field, and a list is what following it passes through. */
module Chains {
  /** An address; 0 is the null pointer. */
  type Block = nat

  type Links = map<Block, Block>

  /** The block after the one at index `k`. */
  function After(s: seq<Block>, k: nat): Block
    requires k < |s|
  {
    if k + 1 < |s| then s[k + 1] else 0
  }

  /** Following `next` from `head` passes through exactly the blocks of `s`. */
  ghost predicate Chain(next: Links, head: Block, s: seq<Block>) {
    && head == (if s == [] then 0 else s[0])
    && forall k :: 0 <= k < |s| ==> s[k] != 0 && s[k] in next && next[s[k]] == After(s, k)
  }

  ghost predicate Distinct<T>(s: seq<T>) {
    forall i, j :: 0 <= i < j < |s| ==> s[i] != s[j]
  }

  ghost predicate Apart(s: seq<Block>, t: seq<Block>) {
    forall i, j :: 0 <= i < |s| && 0 <= j < |t| ==> s[i] != t[j]
  }

  /** Without the block at index `k`. */
  function Without<T>(s: seq<T>, k: nat): (r: seq<T>)
    requires k < |s|
    ensures |r| == |s| - 1
    ensures forall i :: 0 <= i < |r| ==> r[i] == s[if i < k then i else i + 1]
  {
    s[..k] + s[k + 1..]
  }

  lemma ChainKept(next: Links, next': Links, head: Block, s: seq<Block>)
    requires Chain(next, head, s)
    requires forall k :: 0 <= k < |s| ==> s[k] in next' && next'[s[k]] == next[s[k]]
    ensures Chain(next', head, s)
  {
  }

  /** LIST_ADD_HEAD. */
  lemma ChainGrown(next: Links, head: Block, s: seq<Block>, c: Block)
    requires Chain(next, head, s) && c != 0 && c !in s
    ensures Chain(next[c := head], c, [c] + s)
  {
    var t := [c] + s;
    forall k | 0 <= k < |t|
      ensures t[k] != 0 && t[k] in next[c := head] && next[c := head][t[k]] == After(t, k)
    {
      if k > 0 {
        assert t[k] == s[k - 1] && s[k - 1] in s && After(t, k) == After(s, k - 1);
      }
    }
  }

  /** LIST_DELETE behind the first block. */
  lemma ChainCut(next: Links, head: Block, s: seq<Block>, k: nat)
    requires Chain(next, head, s) && Distinct(s) && 0 < k < |s|
    ensures s[k - 1] in next && s[k] in next
    ensures Chain(next[s[k - 1] := next[s[k]]], head, Without(s, k))
  {
    var next', t := next[s[k - 1] := next[s[k]]], Without(s, k);
    forall i | 0 <= i < |t|
      ensures t[i] != 0 && t[i] in next' && next'[t[i]] == After(t, i)
    {
      assert next[s[k]] == After(s, k);
      if i != k - 1 {
        var j := if i < k then i else i + 1;
        assert t[i] == s[j] && s[j] != s[k - 1] && next[s[j]] == After(s, j);
      }
    }
  }

  /** LIST_DELETE of the first block. */
  lemma ChainTail(next: Links, head: Block, s: seq<Block>)
    requires Chain(next, head, s) && s != []
    ensures head in next && Chain(next, next[head], s[1..])
  {
    var t := s[1..];
    assert next[s[0]] == After(s, 0);
    forall k | 0 <= k < |t|
      ensures t[k] != 0 && t[k] in next && next[t[k]] == After(t, k)
    {
      assert t[k] == s[k + 1] && After(t, k) == After(s, k + 1);
    }
  }
}
