/** The growable buffer under all the parsers. */
module IoBuf {
  import opened Bytes
  import opened Sequences
  import opened Numbers

  /** The smallest multiple of `align` that holds `size` bytes. */
  function Roundup(size: nat, align: nat): (r: nat)
    ensures size <= r && (align > 0 ==> r < size + align && r % align == 0)
  {
    if align == 0 then size
    else
      var q := (size + align - 1) / align;
      Divided(q * align, align, q, 0);
      q * align
  }

  /** Rounding up twice is rounding up once, so a request already rounded is met exactly. */
  lemma RoundupTwice(size: nat, align: nat)
    ensures Roundup(Roundup(size, align), align) == Roundup(size, align)
  {
    if align > 0 {
      var q := (size + align - 1) / align;
      Divided(q * align + (align - 1), align, q, align - 1);
    }
  }

  class IoBuf {
    /** The allocated block; `size` is its length. */
    var buf: seq<Byte>
    var len: nat
    const align: nat
    /** Bytes moved to a new block so far. */
    ghost var copied: nat

    ghost predicate Valid()
      reads this
    {
      len <= |buf|
    }

    function Contents(): (s: seq<Byte>)
      requires Valid()
      reads this
      ensures |s| == len
    {
      buf[..len]
    }

    /** The byte of the block right after the contents. */
    function After(): Byte
      requires Valid()
      reads this
    {
      if len < |buf| then buf[len] else 0
    }

    constructor (align: nat)
      ensures Valid() && Contents() == [] && buf == [] && this.align == align && copied == 0
    {
      this.align := align;
      buf, len, copied := [], 0, 0;
    }

    /** `iobuf_resize`: a block of another size is a new one, zeroed beyond what is copied. */
    method Resize(newSize: nat)
      requires Valid()
      modifies this
      ensures Valid() && |buf| == Roundup(newSize, align)
      ensures len == if |buf| < old(len) then |buf| else old(len)
      ensures Contents() == old(Contents())[..len]
      ensures copied == old(copied) + if |buf| == |old(buf)| then 0 else len
    {
      var size := Roundup(newSize, align);
      if size != |buf| {
        var n := if size < len then size else len;
        buf := buf[..n] + seq(size - n, _ => 0);
        len := n;
        copied := copied + n;
      }
    }

    /** What the code counts on: an offset behind the end must still lie in the block it will have. */
    ghost predicate Room(ofs: nat, n: nat)
      reads this
    {
      ofs <= len || ofs + n <= Roundup(len + n, align)
    }

    /** `iobuf_add` without data: room for `n` bytes at `ofs`; what stands there is not specified. */
    method Open(ofs: nat, n: nat)
      requires Valid() && Room(ofs, n)
      modifies this
      ensures Valid() && len == (if ofs > old(len) then ofs else old(len)) + n
      ensures ofs <= old(len) ==> Contents() == Inserted(old(Contents()), ofs, buf[ofs..ofs + n])
      ensures ofs > old(len) ==> buf[..old(len)] == old(Contents())
    {
      RoundupTwice(len + n, align);
      Resize(Roundup(len + n, align));
      if ofs <= len {
        OpenSplice(buf, ofs, n, len);
      }
      hide *;
      if ofs < len {
        buf := Moved(buf, ofs + n, ofs, len - ofs);
      }
      if ofs > len {
        len := ofs;
      }
      len := len + n;
    }

    /** `iobuf_add`. Behind the end, a gap is left of which nothing is specified. */
    method Add(ofs: nat, data: seq<Byte>)
      requires Valid() && Room(ofs, |data|)
      modifies this
      ensures Valid() && (ofs <= old(len) ==> Contents() == Inserted(old(Contents()), ofs, data))
      ensures ofs > old(len) ==>
                len == ofs + |data| && Contents()[..old(len)] == old(Contents()) && Contents()[ofs..] == data
    {
      Open(ofs, |data|);
      if ofs <= old(len) {
        AddSplice(buf, old(Contents()), ofs, buf[ofs..ofs + |data|], data);
      }
      SplicedParts(buf, ofs, data);
      hide Spliced, Inserted;
      buf := Spliced(buf, ofs, data);
    }

    /** `iobuf_add` at the end. */
    method Append(data: seq<Byte>)
      requires Valid()
      modifies this
      ensures Valid() && Contents() == old(Contents()) + data
    {
      Add(len, data);
      assert Inserted(old(Contents()), old(len), data) == old(Contents()) + data;
    }

    /** `iobuf_del`. */
    method Del(ofs0: nat, len0: nat)
      requires Valid()
      modifies this
      ensures Valid() && Contents() == Deleted(old(Contents()), ofs0, len0)
    {
      hide Moved, Spliced, Deleted;
      var o := if ofs0 > len then len else ofs0;
      var n := if o + len0 > len then len - o else len0;
      DeletedIs(buf, len, ofs0, len0);
      buf := Moved(buf, o, o + n, len - o - n);
      buf := Spliced(buf, len - n, seq(n, _ => 0));
      len := len - n;
    }
  }

  /** What `iobuf_del` leaves: an offset beyond the end is the end, a length beyond the end stops there. */
  function Deleted<T>(s: seq<T>, ofs0: nat, len0: nat): seq<T> {
    var o := if ofs0 > |s| then |s| else ofs0;
    var n := if o + len0 > |s| then |s| - o else len0;
    s[..o] + s[o + n..]
  }

  lemma OpenSplice<T>(all: seq<T>, ofs: nat, n: nat, len: nat)
    requires ofs <= len && len + n <= |all|
    ensures var m := Moved(all, ofs + n, ofs, len - ofs);
            m[..len + n] == Inserted(all[..len], ofs, m[ofs..ofs + n])
  {
    var m, src := Moved(all, ofs + n, ofs, len - ofs), all[ofs..len];
    SplicedFront(all, ofs + n, src, len + n);
    assert m[..len + n] == all[..ofs + n] + src;
    assert all[..ofs + n] == all[..ofs] + all[ofs..ofs + n];
  }

  lemma AddSplice<T>(all: seq<T>, s: seq<T>, ofs: nat, gap: seq<T>, data: seq<T>)
    requires ofs <= |s| && |gap| == |data| && |s| + |gap| <= |all|
    requires all[..|s| + |gap|] == Inserted(s, ofs, gap)
    ensures Spliced(all, ofs, data)[..|s| + |gap|] == Inserted(s, ofs, data)
  {
    assert all[..ofs] == all[..|s| + |gap|][..ofs] == s[..ofs];
    assert all[ofs + |data|..|s| + |gap|] == all[..|s| + |gap|][ofs + |data|..] == s[ofs..];
  }

  /** The move down and the zeroing of what is left over. */
  lemma DeletedIs(all: seq<Byte>, len: nat, ofs0: nat, len0: nat)
    requires len <= |all|
    ensures var o := if ofs0 > len then len else ofs0;
            var n := if o + len0 > len then len - o else len0;
            Spliced(Moved(all, o, o + n, len - o - n), len - n, seq(n, _ => 0))[..len - n] ==
            Deleted(all[..len], ofs0, len0)
  {
    var o := if ofs0 > len then len else ofs0;
    var n := if o + len0 > len then len - o else len0;
    var m, z := Moved(all, o, o + n, len - o - n), seq(n, _ => 0 as Byte);
    SplicedParts(m, len - n, z);
    SplicedParts(all, o, all[o + n..len]);
    assert Spliced(m, len - n, z)[..len - n] == m[..len - n] == m[..o] + m[o..len - n];
    assert all[..len][o + n..] == all[o + n..len] && all[..len][..o] == all[..o];
  }
}
