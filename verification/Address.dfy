/** Network addresses as text: `aton4` and `aton6` against what `print_ip4` and `print_ip6` print, and
    against the `::` notation of RFC 4291 section 2.2. */
module Address {
  import opened Bytes
  import opened Fmt
  import opened Sequences
  import opened Wrappers
  import opened HttpChunk
  import HttpParse

  type Text = seq<Byte>
  type Ip4 = a: seq<Byte> | |a| == 4 witness [0, 0, 0, 0]
  type Ip6 = a: seq<Byte> | |a| == 16 witness [0, 0, 0, 0, 0, 0, 0, 0, 0, 0, 0, 0, 0, 0, 0, 0]

  datatype Addr = V4(ip4: Ip4) | V6(ip6: Ip6)

  const DOT: Byte := 46
  const COLON: Byte := 58
  const PERCENT: Byte := 37
  const OPEN: Byte := 91
  const CLOSE: Byte := 93
  /** MG_IPV6_NO_DOUBLE_COLON. */
  const NO_DOUBLE_COLON: nat := 42

  // ----- IPv4

  predicate IsDigit(c: Byte) { 48 <= c <= 57 }

  /** The loop of `aton4` from index `i` on, with `done` the octets before the current one. */
  function Scan4(s: Text, i: nat, done: Text, octet: Byte): (r: Option<Ip4>)
    requires i <= |s| && |done| <= 3
    decreases |s| - i
  {
    if i == |s| then
      if |done| != 3 || (i > 0 && s[i - 1] == DOT) then None else Some(done + [octet])
    else if IsDigit(s[i]) then
      var v := (octet as int) * 10 + (s[i] - 48);
      if v > 255 then None else Scan4(s, i + 1, done, v)
    else if s[i] == DOT then
      if |done| >= 3 || i == 0 || s[i - 1] == DOT then None else Scan4(s, i + 1, done + [octet], 0)
    else None
  }

  method Aton4(s: Text) returns (r: Option<Ip4>)
    ensures r == Scan4(s, 0, [], 0)
  {
    var data := new Byte[4](_ => 0);
    var i: nat, dots: nat := 0, 0;
    while i < |s|
      invariant i <= |s| && dots <= 3 && Scan4(s, 0, [], 0) == Scan4(s, i, data[..dots], data[dots])
      invariant forall k :: dots < k < 4 ==> data[k] == 0
    {
      if IsDigit(s[i]) {
        var octet := (data[dots] as int) * 10 + (s[i] - 48);
        if octet > 255 {
          return None;
        }
        ghost var before := data[..dots];
        data[dots] := octet;
        assert data[..dots] == before;
      } else if s[i] == DOT {
        if dots >= 3 || i == 0 || s[i - 1] == DOT {
          return None;
        }
        assert data[..dots + 1] == data[..dots] + [data[dots]];
        dots := dots + 1;
      } else {
        return None;
      }
      i := i + 1;
    }
    if dots != 3 || (i > 0 && s[i - 1] == DOT) {
      return None;
    }
    assert data[..] == data[..3] + [data[3]];
    return Some(data[..]);
  }

  /** `print_ip4`. */
  function Print4(a: Ip4): Text {
    Decimal(a[0]) + ([DOT] + (Decimal(a[1]) + ([DOT] + (Decimal(a[2]) + ([DOT] + Decimal(a[3]))))))
  }

  /** A printed octet is read back. */
  lemma {:induction false} DecimalRead(s: Text, i: nat, n: nat, done: Text)
    requires n <= 255 && At(s, i, Decimal(n)) && |done| <= 3
    ensures Scan4(s, i, done, 0) == Scan4(s, i + |Decimal(n)|, done, n)
    ensures IsDigit(s[i + |Decimal(n)| - 1])
    decreases n
  {
    if n < 10 {
      AtIndex(s, i, Decimal(n), 0);
    } else {
      AtSplit(s, i, Decimal(n / 10), [48 + n % 10]);
      DecimalRead(s, i, n / 10, done);
      AtIndex(s, i + |Decimal(n / 10)|, [48 + n % 10], 0);
    }
  }

  lemma OctetRead(s: Text, i: nat, n: nat, done: Text, rest: Text) returns (k: nat)
    requires n <= 255 && At(s, i, Decimal(n) + ([DOT] + rest)) && |done| <= 2
    ensures k == i + |Decimal(n)| + 1 <= |s| && Scan4(s, i, done, 0) == Scan4(s, k, done + [n], 0) && At(s, k, rest)
  {
    hide At, Decimal;
    AtSplit(s, i, Decimal(n), [DOT] + rest);
    DecimalRead(s, i, n, done);
    var p := i + |Decimal(n)|;
    AtSplit(s, p, [DOT], rest);
    AtIndex(s, p, [DOT], 0);
    k := p + 1;
  }

  lemma Ip4Read(a: Ip4)
    ensures Scan4(Print4(a), 0, [], 0) == Some(a)
  {
    hide At, Decimal, Scan4;
    var s := Print4(a);
    var t3 := Decimal(a[3]);
    var t2 := Decimal(a[2]) + ([DOT] + t3);
    var t1 := Decimal(a[1]) + ([DOT] + t2);
    AtWhole(s);
    var k1 := OctetRead(s, 0, a[0], [], t1);
    var k2 := OctetRead(s, k1, a[1], [] + [a[0]], t2);
    var k3 := OctetRead(s, k2, a[2], [] + [a[0]] + [a[1]], t3);
    var done := [] + [a[0]] + [a[1]] + [a[2]];
    LastOctet(s, k3, a[3], done);
    assert done + [a[3]] == a;
  }

  lemma LastOctet(s: Text, k: nat, n: nat, done: Text)
    requires n <= 255 && At(s, k, Decimal(n)) && |done| == 3 && k + |Decimal(n)| == |s|
    ensures Scan4(s, k, done, 0) == Some(done + [n])
  {
    hide At, Decimal;
    DecimalRead(s, k, n, done);
    assert s[|s| - 1] != DOT;
    LastScan(s, done, n);
  }

  lemma LastScan(s: Text, done: Text, n: Byte)
    requires |done| == 3 && s != [] && s[|s| - 1] != DOT
    ensures Scan4(s, |s|, done, n) == Some(done + [n])
  {
  }

  // ----- IPv6

  /** Two bytes for one group, at `n`. */
  function Put(ip: Ip6, n: nat, v: nat): (r: Ip6)
    requires n <= 14
  {
    ip[n := v / 256 % 256][n + 1 := v % 256]
  }

  /** The end of the loop of `aton6`: refused, a scope id read, or the text used up. */
  datatype Out6 = Refused | Scoped(ip: Ip6) | End(n: nat, dc: nat, ip: Ip6)

  /** `str_to_num` in base 10 into one byte. */
  function ScopeId(s: Text, acc: nat): Option<nat>
    decreases |s|
  {
    if s == [] then Some(acc)
    else if !IsDigit(s[0]) || acc > 25 || acc * 10 > 255 - (s[0] - 48) then None
    else ScopeId(s[1..], acc * 10 + (s[0] - 48))
  }

  predicate IsScope(s: Text) { s != [] && ScopeId(s, 0).Some? }

  /** The value of the digits of a group. */
  function GroupValue(g: Text): nat
    requires AllHex(g)
  {
    if HexNumber(g, 0) < 0 then 0 else HexNumber(g, 0)
  }

  /** The loop of `aton6`: `j` is the start of the group, `n` its place, `dc` the place of `::`. */
  function Scan6(s: Text, i: nat, j: nat, n: nat, dc: nat, ip: Ip6): (r: Out6)
    requires j <= i <= |s| && AllHex(s[j..i]) && n <= 14 && n % 2 == 0 && (dc <= n || dc == NO_DOUBLE_COLON)
    ensures r.End? ==> r.n <= 14 && r.n % 2 == 0 && (r.dc <= r.n || r.dc == NO_DOUBLE_COLON)
    decreases |s| - i
  {
    if i == |s| then End(n, dc, ip)
    else if IsHex(s[i]) then
      if i > j + 3 then Refused
      else
        assert s[j..i + 1] == s[j..i] + [s[i]];
        Scan6(s, i + 1, j, n, dc, Put(ip, n, GroupValue(s[j..i + 1])))
    else if s[i] == COLON then
      var double := i > 0 && s[i - 1] == COLON;
      var n' := if i > 0 && !double then n + 2 else n;
      if (double && i > 1 && s[i - 2] == COLON) || n' > 14 then Refused
      else Scan6(s, i + 1, i + 1, n', if double then n else dc, Put(ip, n', 0))
    else if s[i] == PERCENT then
      if IsScope(s[i + 1..]) then Scoped(ip) else Refused
    else Refused
  }

  /** The groups after `::` moved to the end, zeros in the gap. */
  function Expanded(ip: Ip6, dc: nat, n: nat): Ip6
    requires dc <= n <= 14 && n % 2 == 0
  {
    ip[..dc] + seq(14 - n, _ => 0) + ip[dc..n + 2]
  }

  /** `v4mapped`. */
  function V4Mapped(s: Text): Option<Ip6> {
    if |s| < 14 || s[0] != COLON || s[1] != COLON || s[6] != COLON
       || (exists k :: 2 <= k < 6 && s[k] != 102 && s[k] != 70) then None
    else
      match Scan4(s[7..], 0, [], 0)
      case None => None
      case Some(a) => Some(seq(10, _ => 0) + [255, 255] + a)
  }

  /** Without the brackets. */
  function Stripped(s: Text): Text {
    if |s| > 2 && s[0] == OPEN then s[1..|s| - 1] else s
  }

  /** `aton6`; `ip` is what the address held before. */
  function Aton6(s: Text, ip: Ip6): Option<Ip6> {
    var t := Stripped(s);
    if V4Mapped(t).Some? then V4Mapped(t)
    else
      match Scan6(t, 0, 0, 0, NO_DOUBLE_COLON, ip)
      case Refused => None
      case Scoped(ip') => Some(ip')
      case End(n, dc, ip') =>
        if n >= 14 then Some(ip')
        else if dc == NO_DOUBLE_COLON then None
        else Some(Expanded(ip', dc, n))
  }

  /** The loop of `aton6`, writing into the address. */
  method ScanInto(t: Text, ip: array<Byte>) returns (r: Out6)
    requires ip.Length == 16
    modifies ip
    ensures r == Scan6(t, 0, 0, 0, NO_DOUBLE_COLON, old(ip[..]))
    ensures r.Scoped? || r.End? ==> ip[..] == r.ip
  {
    hide Scan6, Put, GroupValue, IsScope, IsHex;
    var i: nat, j: nat, n: nat, dc: nat := 0, 0, 0, NO_DOUBLE_COLON;
    while i < |t|
      invariant j <= i <= |t| && AllHex(t[j..i]) && n <= 14 && n % 2 == 0 && (dc <= n || dc == NO_DOUBLE_COLON)
      invariant Scan6(t, 0, 0, 0, NO_DOUBLE_COLON, old(ip[..])) == Scan6(t, i, j, n, dc, ip[..])
    {
      ScanStep6(t, i, j, n, dc, ip[..]);
      if IsHex(t[i]) {
        if i > j + 3 {
          return Refused;
        }
        SetPair(ip, n, GroupValue(t[j..i + 1]));
      } else if t[i] == COLON {
        j := i + 1;
        if i > 0 && t[i - 1] == COLON {
          dc := n;
          if i > 1 && t[i - 2] == COLON {
            return Refused;
          }
        } else if i > 0 {
          n := n + 2;
        }
        if n > 14 {
          return Refused;
        }
        SetPair(ip, n, 0);
      } else if t[i] == PERCENT {
        return if IsScope(t[i + 1..]) then Scoped(ip[..]) else Refused;
      } else {
        return Refused;
      }
      i := i + 1;
    }
    ScanEnds(t, j, n, dc, ip[..]);
    return End(n, dc, ip[..]);
  }

  /** One turn of the loop. */
  lemma ScanStep6(s: Text, i: nat, j: nat, n: nat, dc: nat, ip: Ip6)
    requires j <= i < |s| && AllHex(s[j..i]) && n <= 14 && n % 2 == 0 && (dc <= n || dc == NO_DOUBLE_COLON)
    ensures AllHex(s[i + 1..i + 1])
    ensures IsHex(s[i]) ==>
              && AllHex(s[j..i + 1])
              && Scan6(s, i, j, n, dc, ip) ==
                 if i > j + 3 then Refused else Scan6(s, i + 1, j, n, dc, Put(ip, n, GroupValue(s[j..i + 1])))
    ensures !IsHex(s[i]) && s[i] == COLON ==>
              var double := i > 0 && s[i - 1] == COLON;
              var n' := if i > 0 && !double then n + 2 else n;
              Scan6(s, i, j, n, dc, ip) ==
              if (double && i > 1 && s[i - 2] == COLON) || n' > 14 then Refused
              else Scan6(s, i + 1, i + 1, n', if double then n else dc, Put(ip, n', 0))
    ensures !IsHex(s[i]) && s[i] == PERCENT ==>
              Scan6(s, i, j, n, dc, ip) == if IsScope(s[i + 1..]) then Scoped(ip) else Refused
    ensures !IsHex(s[i]) && s[i] != COLON && s[i] != PERCENT ==> Scan6(s, i, j, n, dc, ip) == Refused
  {
    hide IsHex, GroupValue, Put, IsScope;
    assert s[j..i + 1] == s[j..i] + [s[i]];
  }

  method SetPair(ip: array<Byte>, n: nat, v: nat)
    requires ip.Length == 16 && n <= 14
    modifies ip
    ensures ip[..] == Put(old(ip[..]), n, v)
  {
    ip[n], ip[n + 1] := v / 256 % 256, v % 256;
  }

  /** `aton6`. */
  method Aton6Into(s: Text, ip: array<Byte>) returns (ok: bool)
    requires ip.Length == 16
    modifies ip
    ensures var r := Aton6(s, old(ip[..])); ok == r.Some? && (ok ==> ip[..] == r.value)
  {
    hide Scan6, V4Mapped;
    var t := Stripped(s);
    var mapped := V4Mapped(t);
    if mapped.Some? {
      SetAll(ip, mapped.value);
      return true;
    }
    var r := ScanInto(t, ip);
    match r
    case Refused => return false;
    case Scoped(_) => return true;
    case End(n, dc, a) =>
      if n < 14 && dc == NO_DOUBLE_COLON {
        return false;
      }
      if n < 14 {
        SetAll(ip, Expanded(a, dc, n));
      }
      return true;
  }

  method SetAll(ip: array<Byte>, a: Ip6)
    requires ip.Length == 16
    modifies ip
    ensures ip[..] == a
  {
    forall k | 0 <= k < 16 {
      ip[k] := a[k];
    }
  }

  /** `aton`. */
  function Aton(s: Text, ip: Ip6): Option<Addr> {
    if s == [] then Some(V4([0, 0, 0, 0]))
    else if HttpParse.Same(s, HttpParse.Ascii("localhost")) then Some(V4([127, 0, 0, 1]))
    else if Scan4(s, 0, [], 0).Some? then Some(V4(Scan4(s, 0, [], 0).value))
    else
      match Aton6(s, ip)
      case None => None
      case Some(a) => Some(V6(a))
  }

  // ----- groups

  /** A group as it may be written: one to four hexadecimal digits. */
  predicate IsGroup(g: Text) { 1 <= |g| <= 4 && AllHex(g) }

  predicate AreGroups(gs: seq<Text>) { forall k :: 0 <= k < |gs| ==> IsGroup(gs[k]) }

  /** Groups with colons between them. */
  function Colons(gs: seq<Text>): Text
    requires gs != []
    decreases |gs|
  {
    if |gs| == 1 then gs[0] else gs[0] + ([COLON] + Colons(gs[1..]))
  }

  function Pairs(gs: seq<Text>): (s: Text)
    requires AreGroups(gs)
    ensures |s| == 2 * |gs|
  {
    if gs == [] then [] else [GroupValue(gs[0]) / 256 % 256, GroupValue(gs[0]) % 256] + Pairs(gs[1..])
  }

  /** The digits of a group, one after the other; each rewrites the two bytes. */
  lemma {:induction false} GroupScanned(s: Text, i: nat, n: nat, dc: nat, ip: Ip6, g: Text, k: nat)
    requires At(s, i, g) && IsGroup(g) && n <= 14 && n % 2 == 0 && (dc <= n || dc == NO_DOUBLE_COLON) && 1 <= k <= |g|
    ensures i + k <= |s| && s[i..i + k] == g[..k] && AllHex(s[i..i + k]) && AllHex(s[i..i])
    ensures Scan6(s, i, i, n, dc, ip) == Scan6(s, i + k, i, n, dc, Put(ip, n, GroupValue(g[..k])))
    decreases k
  {
    hide GroupValue;
    assert s[i..i + k] == s[i..i + |g|][..k];
    AtIndex(s, i, g, k - 1);
    if k > 1 {
      GroupScanned(s, i, n, dc, ip, g, k - 1);
      assert Put(Put(ip, n, GroupValue(g[..k - 1])), n, GroupValue(g[..k])) == Put(ip, n, GroupValue(g[..k]));
    }
  }

  lemma OneGroup(s: Text, i: nat, n: nat, dc: nat, ip: Ip6, g: Text)
    requires At(s, i, g) && IsGroup(g) && n <= 14 && n % 2 == 0 && (dc <= n || dc == NO_DOUBLE_COLON)
    ensures i + |g| <= |s| && AllHex(s[i..i + |g|]) && AllHex(s[i..i])
    ensures Scan6(s, i, i, n, dc, ip) == Scan6(s, i + |g|, i, n, dc, Put(ip, n, GroupValue(g)))
    ensures s[i + |g| - 1] != COLON
  {
    GroupScanned(s, i, n, dc, ip, g, |g|);
    assert g[..|g|] == g;
    AtIndex(s, i, g, |g| - 1);
    assert IsHex(g[|g| - 1]);
  }

  /** A colon between two groups. */
  lemma ColonScanned(s: Text, i: nat, j: nat, n: nat, dc: nat, ip: Ip6)
    requires j < i < |s| && AllHex(s[j..i]) && s[i] == COLON && s[i - 1] != COLON && n <= 12 && n % 2 == 0
    requires dc <= n || dc == NO_DOUBLE_COLON
    ensures AllHex(s[i + 1..i + 1])
    ensures Scan6(s, i, j, n, dc, ip) == Scan6(s, i + 1, i + 1, n + 2, dc, Put(ip, n + 2, 0))
  {
  }

  /** `ip` with the groups written from `n` on. */
  function Filled(ip: Ip6, n: nat, gs: seq<Text>): Ip6
    requires AreGroups(gs) && n + 2 * |gs| <= 16
  {
    ip[..n] + Pairs(gs) + ip[n + 2 * |gs|..]
  }

  lemma FilledOne(ip: Ip6, n: nat, g: Text)
    requires IsGroup(g) && n <= 14
    ensures AreGroups([g]) && Filled(ip, n, [g]) == Put(ip, n, GroupValue(g))
  {
    hide GroupValue;
    assert [g][1..] == [];
  }

  lemma FilledMore(ip: Ip6, n: nat, gs: seq<Text>)
    requires AreGroups(gs) && |gs| > 1 && n + 2 * |gs| <= 16
    ensures Filled(Put(Put(ip, n, GroupValue(gs[0])), n + 2, 0), n + 2, gs[1..]) == Filled(ip, n, gs)
  {
    hide GroupValue;
    var v := GroupValue(gs[0]);
    var ip2 := Put(Put(ip, n, v), n + 2, 0);
    assert ip2[..n + 2] == ip[..n] + [v / 256 % 256, v % 256];
    assert ip2[n + 2 + 2 * |gs[1..]|..] == ip[n + 2 * |gs|..];
  }

  lemma {:induction false} GroupsScanned(s: Text, i: nat, n: nat, dc: nat, ip: Ip6, gs: seq<Text>) returns (j: nat)
    requires gs != [] && AreGroups(gs) && At(s, i, Colons(gs)) && n + 2 * |gs| <= 16 && n % 2 == 0
    requires dc <= n || dc == NO_DOUBLE_COLON
    ensures var e := i + |Colons(gs)|; i <= j < e <= |s| && AllHex(s[j..e]) && AllHex(s[i..i]) && s[e - 1] != COLON
    ensures Scan6(s, i, i, n, dc, ip) == Scan6(s, i + |Colons(gs)|, j, n + 2 * (|gs| - 1), dc, Filled(ip, n, gs))
    decreases |gs|
  {
    hide Scan6, GroupValue, Put, At, Filled;
    var g := gs[0];
    if |gs| == 1 {
      OneGroup(s, i, n, dc, ip, g);
      FilledOne(ip, n, g);
      assert gs == [g];
      j := i;
    } else {
      var more := Colons(gs[1..]);
      AtSplit(s, i, g, [COLON] + more);
      OneGroup(s, i, n, dc, ip, g);
      var p := i + |g|;
      AtSplit(s, p, [COLON], more);
      AtIndex(s, p, [COLON], 0);
      ColonScanned(s, p, i, n, dc, Put(ip, n, GroupValue(g)));
      FilledMore(ip, n, gs);
      j := GroupsScanned(s, p + 1, n + 2, dc, Put(Put(ip, n, GroupValue(g)), n + 2, 0), gs[1..]);
    }
  }

  // ----- which texts are refused before `aton6` looks at them

  /** Text without dots is no IPv4 address. */
  lemma {:induction false} NoDots(s: Text, i: nat, octet: Byte)
    requires i <= |s| && DOT !in s
    ensures Scan4(s, i, [], octet).None?
    decreases |s| - i
  {
    if i < |s| && IsDigit(s[i]) && (octet as int) * 10 + (s[i] - 48) <= 255 {
      NoDots(s, i + 1, (octet as int) * 10 + (s[i] - 48));
    }
  }

  lemma {:induction false} ColonsNoDots(gs: seq<Text>)
    requires gs != [] && AreGroups(gs)
    ensures DOT !in Colons(gs) && OPEN !in Colons(gs) && 108 !in Colons(gs) && 76 !in Colons(gs)
    decreases |gs|
  {
    assert IsGroup(gs[0]);
    if |gs| > 1 {
      ColonsNoDots(gs[1..]);
    }
  }

  /** Text of hexadecimal digits and colons, possibly in brackets, goes to the loop of `aton6`. */
  predicate Plain6(t: Text) {
    t != [] && DOT !in t && OPEN !in t && 108 !in t && 76 !in t
  }

  /** As such, or in brackets. */
  function Written6(t: Text, brackets: bool): Text {
    if brackets then [OPEN] + t + [CLOSE] else t
  }

  lemma NotMapped(t: Text)
    requires DOT !in t
    ensures V4Mapped(t).None?
  {
    if |t| >= 14 {
      NoDots(t[7..], 0, 0);
    }
  }

  lemma NotLocalhost(s: Text)
    requires s != [] && s[0] != 108 && s[0] != 76
    ensures !HttpParse.Same(s, HttpParse.Ascii("localhost"))
  {
    if |s| == 9 {
      assert HttpParse.Ascii("localhost")[0] == 108;
      assert HttpParse.Lower(s[0]) != HttpParse.Lower(108);
    }
  }

  lemma GoesToLoop(t: Text, brackets: bool, ip: Ip6)
    requires Plain6(t)
    ensures var s := Written6(t, brackets);
            && s != [] && !HttpParse.Same(s, HttpParse.Ascii("localhost")) && Scan4(s, 0, [], 0).None?
            && Stripped(s) == t && V4Mapped(t).None?
  {
    var s := Written6(t, brackets);
    assert s[0] == (if brackets then OPEN else t[0]) && t[0] in t;
    NotLocalhost(s);
    NoDots(s, 0, 0);
    NotMapped(t);
    if brackets {
      assert s[1..|s| - 1] == t;
    }
  }

  lemma ReadByLoop(t: Text, brackets: bool, ip: Ip6)
    requires Plain6(t)
    ensures Aton(Written6(t, brackets), ip) ==
            match Scan6(t, 0, 0, 0, NO_DOUBLE_COLON, ip)
            case Refused => None
            case Scoped(ip') => Some(V6(ip'))
            case End(n, dc, ip') =>
              if n >= 14 then Some(V6(ip')) else if dc == NO_DOUBLE_COLON then None else Some(V6(Expanded(ip', dc, n)))
  {
    hide Scan6, Scan4, V4Mapped, Stripped, Written6, Expanded, HttpParse.Same, HttpParse.Ascii;
    GoesToLoop(t, brackets, ip);
  }

  /** Eight groups are the address they spell, with or without brackets, whatever the address held. */
  lemma EightGroups(gs: seq<Text>, brackets: bool, ip: Ip6)
    requires |gs| == 8 && AreGroups(gs)
    ensures Aton(Written6(Colons(gs), brackets), ip) == Some(V6(Pairs(gs)))
  {
    hide Scan6, GroupValue, Filled, Colons, Pairs, At, Aton, Written6;
    var t := Colons(gs);
    ColonsNoDots(gs);
    AtWhole(t);
    var j := GroupsScanned(t, 0, 0, NO_DOUBLE_COLON, ip, gs);
    ScanEnds(t, j, 14, NO_DOUBLE_COLON, Filled(ip, 0, gs));
    FilledAll(ip, gs);
    ReadByLoop(t, brackets, ip);
  }

  lemma ScanEnds(s: Text, j: nat, n: nat, dc: nat, ip: Ip6)
    requires j <= |s| && AllHex(s[j..]) && n <= 14 && n % 2 == 0 && (dc <= n || dc == NO_DOUBLE_COLON)
    ensures s[j..|s|] == s[j..] && Scan6(s, |s|, j, n, dc, ip) == End(n, dc, ip)
  {
  }

  lemma FilledAll(ip: Ip6, gs: seq<Text>)
    requires |gs| == 8 && AreGroups(gs)
    ensures Filled(ip, 0, gs) == Pairs(gs)
  {
    hide Pairs;
  }

  /** `print_ip6`. */
  function Print6(a: Ip6): Text {
    [OPEN] + Colons(GroupsOf(a)) + [CLOSE]
  }

  /** `%x` of the eight 16-bit numbers. */
  function GroupsOf(a: Ip6): (gs: seq<Text>)
    ensures |gs| == 8
  {
    seq(8, k requires 0 <= k < 8 => Hex((a[2 * k] as int) * 256 + a[2 * k + 1]))
  }

  lemma PrintedGroup(v: nat)
    requires v < 0x1_0000
    ensures IsGroup(Hex(v)) && GroupValue(Hex(v)) == v
  {
    HexReadBack(v);
    assert Power16(4) == 0x1_0000;
    HexLength(v, 4);
  }

  lemma {:induction false} PairAt(gs: seq<Text>, k: nat)
    requires AreGroups(gs) && k < |gs|
    ensures Pairs(gs)[2 * k] == GroupValue(gs[k]) / 256 % 256 && Pairs(gs)[2 * k + 1] == GroupValue(gs[k]) % 256
    decreases k
  {
    hide GroupValue;
    if k > 0 {
      PairAt(gs[1..], k - 1);
    }
  }

  lemma Ip6Read(a: Ip6, ip: Ip6)
    ensures Aton(Print6(a), ip) == Some(V6(a))
  {
    var gs := GroupsOf(a);
    forall k | 0 <= k < 8
      ensures IsGroup(gs[k]) && GroupValue(gs[k]) == (a[2 * k] as int) * 256 + a[2 * k + 1]
    {
      PrintedGroup((a[2 * k] as int) * 256 + a[2 * k + 1]);
    }
    hide GroupValue, Hex, Aton, Pairs, Colons;
    EightGroups(gs, true, ip);
    PairsBack(a, gs);
  }

  lemma PairsBack(a: Ip6, gs: seq<Text>)
    requires |gs| == 8 && AreGroups(gs)
    requires forall k :: 0 <= k < 8 ==> GroupValue(gs[k]) == (a[2 * k] as int) * 256 + a[2 * k + 1]
    ensures Pairs(gs) == a
  {
    hide GroupValue, Pairs;
    forall k | 0 <= k < 8
      ensures Pairs(gs)[2 * k] == a[2 * k] && Pairs(gs)[2 * k + 1] == a[2 * k + 1]
    {
      PairAt(gs, k);
    }
    var p := Pairs(gs);
    Evens(p, a);
  }

  lemma Evens(p: Text, a: Ip6)
    requires |p| == 16 && forall k :: 0 <= k < 8 ==> p[2 * k] == a[2 * k] && p[2 * k + 1] == a[2 * k + 1]
    ensures forall m :: 0 <= m < 16 ==> p[m] == a[m]
  {
    forall m | 0 <= m < 16
      ensures p[m] == a[m]
    {
      var k := m / 2;
      assert p[2 * k] == a[2 * k] && p[2 * k + 1] == a[2 * k + 1];
    }
  }

  lemma NoLetterL(s: Text)
    requires s != [] && IsDigit(s[0])
    ensures !HttpParse.Same(s, HttpParse.Ascii("localhost"))
  {
    NotLocalhost(s);
  }

  lemma {:induction false} DecimalStarts(n: nat)
    ensures IsDigit(Decimal(n)[0])
  {
    if n >= 10 {
      DecimalStarts(n / 10);
    }
  }

  /** Every address is read back from its printed form, with its family. */
  lemma PrintedIsRead(a: Addr, ip: Ip6)
    ensures Aton(if a.V4? then Print4(a.ip4) else Print6(a.ip6), ip) == Some(a)
  {
    match a
    case V4(x) =>
      Ip4Read(x);
      DecimalStarts(x[0]);
      assert Print4(x)[0] == Decimal(x[0])[0];
      NoLetterL(Print4(x));
    case V6(x) => Ip6Read(x, ip);
  }

  // ----- `::`

  /** Groups, `::`, groups; either side may be empty. */
  function DoubleColon(left: seq<Text>, right: seq<Text>): Text {
    (if left == [] then [] else Colons(left)) + ([COLON, COLON] + if right == [] then [] else Colons(right))
  }

  /** The two colons after `n / 2` groups: `n` is kept as the place of the gap. */
  lemma TwoColons(s: Text, i: nat, j: nat, n: nat, ip: Ip6)
    requires i + 2 <= |s| && s[i] == COLON && s[i + 1] == COLON && j <= i && AllHex(s[j..i])
    requires (i == 0 && n == 0) || (i > 0 && s[i - 1] != COLON && n <= 12 && n % 2 == 0)
    ensures var m := if i == 0 then 0 else n + 2;
            AllHex(s[i + 2..i + 2]) &&
            Scan6(s, i, j, n, NO_DOUBLE_COLON, ip) == Scan6(s, i + 2, i + 2, m, m, Put(ip, m, 0))
  {
    var m := if i == 0 then 0 else n + 2;
    assert Scan6(s, i, j, n, NO_DOUBLE_COLON, ip) == Scan6(s, i + 1, i + 1, m, NO_DOUBLE_COLON, Put(ip, m, 0));
    assert Scan6(s, i + 1, i + 1, m, NO_DOUBLE_COLON, Put(ip, m, 0)) ==
           Scan6(s, i + 2, i + 2, m, m, Put(Put(ip, m, 0), m, 0));
    assert Put(Put(ip, m, 0), m, 0) == Put(ip, m, 0);
  }

  /** The left groups and the two colons. */
  lemma LeftScanned(s: Text, left: seq<Text>, ip: Ip6) returns (p: nat, ip1: Ip6)
    requires AreGroups(left) && |left| <= 7
    requires At(s, 0, (if left == [] then [] else Colons(left)) + [COLON, COLON])
    ensures p == (if left == [] then 0 else |Colons(left)|) + 2 <= |s| && AllHex(s[p..p])
    ensures Scan6(s, 0, 0, 0, NO_DOUBLE_COLON, ip) == Scan6(s, p, p, 2 * |left|, 2 * |left|, ip1)
    ensures ip1[..2 * |left|] == Pairs(left) && ip1[2 * |left|..2 * |left| + 2] == [0, 0]
  {
    hide Scan6, GroupValue, Put, Filled, Pairs, Colons, At;
    var front := if left == [] then [] else Colons(left);
    AtSplit(s, 0, front, [COLON, COLON]);
    AtIndex(s, |front|, [COLON, COLON], 0);
    AtIndex(s, |front|, [COLON, COLON], 1);
    p := |front| + 2;
    if left == [] {
      TwoColons(s, 0, 0, 0, ip);
      ip1 := Put(ip, 0, 0);
      PutZero(ip, 0);
      NoPairs();
    } else {
      var j := GroupsScanned(s, 0, 0, NO_DOUBLE_COLON, ip, left);
      var filled := Filled(ip, 0, left);
      TwoColons(s, |front|, j, 2 * (|left| - 1), filled);
      ip1 := Put(filled, 2 * |left|, 0);
      PutZero(filled, 2 * |left|);
      FilledParts(ip, 0, left);
    }
  }

  lemma PutZero(ip: Ip6, n: nat)
    requires n <= 14
    ensures Put(ip, n, 0)[..n] == ip[..n] && Put(ip, n, 0)[n..n + 2] == [0, 0]
  {
  }

  lemma NoPairs()
    ensures AreGroups([]) && Pairs([]) == []
  {
  }

  lemma FilledParts(ip: Ip6, n: nat, gs: seq<Text>)
    requires AreGroups(gs) && n + 2 * |gs| <= 16
    ensures Filled(ip, n, gs)[..n] == ip[..n] && Filled(ip, n, gs)[n..n + 2 * |gs|] == Pairs(gs)
  {
    hide Pairs;
    var p := Pairs(gs);
    assert ip[..n] + p + ip[n + 2 * |gs|..] == ip[..n] + (p + ip[n + 2 * |gs|..]);
  }

  /** The right groups, up to the end of the text. */
  lemma RightScanned(s: Text, p: nat, dc: nat, ip1: Ip6, right: seq<Text>) returns (n: nat, ip2: Ip6)
    requires AreGroups(right) && dc + 2 * |right| <= 14 && dc % 2 == 0 && p <= |s|
    requires At(s, p, if right == [] then [] else Colons(right))
             && p + (if right == [] then 0 else |Colons(right)|) == |s|
    requires ip1[dc..dc + 2] == [0, 0] && AllHex(s[p..p])
    ensures n == (if right == [] then dc else dc + 2 * (|right| - 1))
    ensures Scan6(s, p, p, dc, dc, ip1) == End(n, dc, ip2)
    ensures ip2[..dc] == ip1[..dc] && ip2[dc..n + 2] == if right == [] then [0, 0] else Pairs(right)
  {
    hide Scan6, GroupValue, Filled, Pairs, Colons, At;
    if right == [] {
      n, ip2 := dc, ip1;
      ScanEnds(s, p, n, dc, ip2);
    } else {
      var j := GroupsScanned(s, p, dc, dc, ip1, right);
      n, ip2 := dc + 2 * (|right| - 1), Filled(ip1, dc, right);
      ScanEnds(s, j, n, dc, ip2);
      FilledParts(ip1, dc, right);
    }
  }

  lemma DoubleColonParts(left: seq<Text>, right: seq<Text>)
    ensures var t := DoubleColon(left, right);
            var front := (if left == [] then [] else Colons(left)) + [COLON, COLON];
            && At(t, 0, front) && At(t, |front|, if right == [] then [] else Colons(right))
            && |t| == |front| + |if right == [] then [] else Colons(right)|
  {
    hide At, Colons;
    var t := DoubleColon(left, right);
    var front, back := if left == [] then [] else Colons(left), if right == [] then [] else Colons(right);
    assert t == (front + [COLON, COLON]) + back;
    AtWhole(t);
    AtSplit(t, 0, front + [COLON, COLON], back);
  }

  lemma DoubleColonScanned(left: seq<Text>, right: seq<Text>, ip: Ip6) returns (n: nat, ip2: Ip6)
    requires AreGroups(left) && AreGroups(right) && |left| + |right| <= 7
    ensures Scan6(DoubleColon(left, right), 0, 0, 0, NO_DOUBLE_COLON, ip) == End(n, 2 * |left|, ip2)
    ensures n == 2 * |left| + if right == [] then 0 else 2 * (|right| - 1)
    ensures ip2[..2 * |left|] == Pairs(left) && ip2[2 * |left|..n + 2] == if right == [] then [0, 0] else Pairs(right)
  {
    hide Scan6, GroupValue, Colons, At, Pairs, DoubleColon;
    DoubleColonParts(left, right);
    var t := DoubleColon(left, right);
    var p, ip1 := LeftScanned(t, left, ip);
    n, ip2 := RightScanned(t, p, 2 * |left|, ip1, right);
  }

  /** One `::` and fewer than eight groups: the gap is filled with zeros (RFC 4291 section 2.2). */
  lemma DoubleColonRead(left: seq<Text>, right: seq<Text>, brackets: bool, ip: Ip6)
    requires AreGroups(left) && AreGroups(right) && |left| + |right| <= 7
    ensures Aton(Written6(DoubleColon(left, right), brackets), ip) ==
            Some(V6(Pairs(left) + seq(16 - 2 * (|left| + |right|), _ => 0) + Pairs(right)))
  {
    hide Scan6, GroupValue, Pairs, Aton, Written6, Expanded, Plain6, DoubleColon;
    PlainDoubleColon(left, right);
    var n, ip2 := DoubleColonScanned(left, right, ip);
    ReadByLoop(DoubleColon(left, right), brackets, ip);
    GapFilled(ip2, 2 * |left|, n, left, right);
  }

  lemma PlainDoubleColon(left: seq<Text>, right: seq<Text>)
    requires AreGroups(left) && AreGroups(right)
    ensures Plain6(DoubleColon(left, right))
  {
    if left != [] {
      ColonsNoDots(left);
    }
    if right != [] {
      ColonsNoDots(right);
    }
  }

  lemma GapFilled(ip2: Ip6, dc: nat, n: nat, left: seq<Text>, right: seq<Text>)
    requires AreGroups(left) && AreGroups(right) && |left| + |right| <= 7 && dc == 2 * |left|
    requires n == if right == [] then dc else dc + 2 * (|right| - 1)
    requires ip2[..dc] == Pairs(left) && ip2[dc..n + 2] == if right == [] then [0, 0] else Pairs(right)
    ensures (if n >= 14 then ip2 else Expanded(ip2, dc, n)) ==
            Pairs(left) + seq(16 - 2 * (|left| + |right|), _ => 0) + Pairs(right)
  {
    hide GroupValue, Pairs, AreGroups;
    if right == [] {
      assert seq(14 - n, _ => 0 as Byte) + [0, 0] == seq(16 - n, _ => 0);
      NoPairs();
      if n >= 14 {
        assert ip2 == ip2[..14] + ip2[14..16];
      }
    }
  }
}
