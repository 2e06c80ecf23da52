/** The scanners of `json_get` on printed tokens: every token is consumed exactly. */
module JsonTokens {
  import opened Sequences
  import opened Wrappers
  import opened Json
  import opened JsonDoc

  /** What may follow a number. */
  predicate Ends(s: string, k: nat) {
    k >= |s| || Blank(s[k]) || s[k] in {',', ']', '}'}
  }

  lemma {:induction false} DigitsConsumed(s: string, i: nat, t: string)
    requires At(s, i, t) && DigitText(t)
    requires i + |t| < |s| ==> !Digit(s[i + |t|])
    ensures DigitsEnd(s, i) == i + |t|
    decreases |t|
  {
    if t != "" {
      AtSplit(s, i, t[..1], t[1..]);
      assert t == t[..1] + t[1..];
      AtIndex(s, i, t, 0);
      DigitsConsumed(s, i + 1, t[1..]);
    }
  }

  /** The digits of an exponent are all read exactly when those before the last stay below 308. */
  lemma {:induction false} ExponentConsumed(s: string, i: nat, t: string, exp: nat)
    requires At(s, i, t) && DigitText(t) && t != ""
    requires i + |t| < |s| ==> !Digit(s[i + |t|])
    ensures ExponentEnd(s, i, exp) == i + |t| <==> DigitsValue(t[..|t| - 1], exp) < MAX_EXPONENT
    decreases |t|
  {
    AtIndex(s, i, t, 0);
    if |t| > 1 {
      AtSplit(s, i, t[..1], t[1..]);
      assert t == t[..1] + t[1..];
      assert t[..|t| - 1][1..] == t[1..][..|t| - 2];
      ExponentConsumed(s, i + 1, t[1..], exp * 10 + (t[0] as int - '0' as int));
    }
  }

  lemma MarkConsumed(s: string, i: nat, mark: string, exp: string)
    requires mark in {"e", "E", "e+", "E+", "e-", "E-"} && DigitText(exp) && exp != ""
    requires At(s, i, mark + exp)
    requires i + |mark + exp| < |s| ==> !Digit(s[i + |mark + exp|])
    ensures i < |s| && (s[i] == 'e' || s[i] == 'E')
    ensures MarkedExponentEnd(s, i) == i + |mark + exp| <==> DigitsValue(exp[..|exp| - 1], 0) < MAX_EXPONENT
  {
    AtSplit(s, i, mark, exp);
    AtIndex(s, i, mark, 0);
    AtIndex(s, i + |mark|, exp, 0);
    if |mark| == 2 {
      AtIndex(s, i, mark, 1);
    }
    ExponentConsumed(s, i + |mark|, exp, 0);
  }

  lemma FractionConsumed(s: string, i: nat, frac: string)
    requires DigitText(frac) && frac != "" && At(s, i, "." + frac)
    requires i + 1 + |frac| < |s| ==> !Digit(s[i + 1 + |frac|])
    ensures i < |s| && s[i] == '.'
    ensures FractionEnd(s, i) == i + 1 + |frac|
  {
    AtSplit(s, i, ".", frac);
    AtIndex(s, i, ".", 0);
    DigitsConsumed(s, i + 1, frac);
  }

  /** Fraction and exponent, each possibly absent. */
  lemma TailConsumed(s: string, i: nat, n: Number, point: string, tail: string)
    requires NumberText(n) && tail == n.mark + n.exp
    requires point == if n.frac == "" then "" else "." + n.frac
    requires At(s, i, point) && At(s, i + |point|, tail) && Ends(s, i + |point| + |tail|)
    ensures i < |s| ==> !Digit(s[i])
    ensures MarkedExponentEnd(s, FractionEnd(s, i)) == i + |point| + |tail| <==> ShortExponent(n)
  {
    hide At, DigitText, DigitsEnd, ExponentEnd, DigitsValue;
    MarkOrNot(s, i + |point|, n, tail);
    if n.frac != "" {
      FractionConsumed(s, i, n.frac);
    }
  }

  lemma MarkOrNot(s: string, i: nat, n: Number, tail: string)
    requires NumberText(n) && tail == n.mark + n.exp && At(s, i, tail) && Ends(s, i + |tail|)
    ensures i <= |s| && (i < |s| ==> !Digit(s[i]) && s[i] != '.')
    ensures MarkedExponentEnd(s, i) == i + |tail| <==> ShortExponent(n)
  {
    hide DigitText, DigitsEnd, ExponentEnd, DigitsValue;
    if n.mark != "" {
      MarkConsumed(s, i, n.mark, n.exp);
    } else {
      assert tail == "";
    }
  }

  lemma UnsignedConsumed(s: string, w: nat, n: Number, point: string, tail: string)
    requires NumberText(n) && tail == n.mark + n.exp
    requires point == if n.frac == "" then "" else "." + n.frac
    requires At(s, w, n.whole + (point + tail)) && Ends(s, w + |n.whole + (point + tail)|)
    ensures w < |s| && Digit(s[w])
    ensures MarkedExponentEnd(s, FractionEnd(s, DigitsEnd(s, w))) == w + |n.whole + (point + tail)| <==>
            ShortExponent(n)
  {
    hide At, DigitsEnd, FractionEnd, MarkedExponentEnd, ShortExponent;
    AtSplit(s, w, n.whole, point + tail);
    var p := w + |n.whole|;
    AtSplit(s, p, point, tail);
    TailConsumed(s, p, n, point, tail);
    DigitsConsumed(s, w, n.whole);
    AtIndex(s, w, n.whole, 0);
  }

  /** `atod` stops at the end of a number exactly when its exponent is not too long. */
  lemma NumberConsumedIff(s: string, i: nat, n: Number)
    requires NumberText(n) && At(s, i, PrintNumber(n)) && Ends(s, i + |PrintNumber(n)|)
    ensures i < |s| && (s[i] == '-' || Digit(s[i]))
    ensures NumberEnd(s, i) == i + |PrintNumber(n)| <==> ShortExponent(n)
  {
    hide ShortExponent;
    var point := if n.frac == "" then "" else "." + n.frac;
    var tail := n.mark + n.exp;
    var unsigned := n.whole + (point + tail);
    if n.minus {
      AtSplit(s, i, "-", unsigned);
      AtIndex(s, i, "-", 0);
      UnsignedConsumed(s, i + 1, n, point, tail);
    } else {
      assert PrintNumber(n) == unsigned;
      UnsignedConsumed(s, i, n, point, tail);
    }
  }

  /** `pass_string` finds the closing quote of every string, whatever escapes it holds. */
  lemma {:induction false} StringConsumed(s: string, i: nat, raw: seq<Unit>)
    requires ValidRaw(raw) && At(s, i, PrintRaw(raw) + "\"")
    ensures StringEnd(s, i) == Some(i + |PrintRaw(raw)|)
    decreases |raw|
  {
    if raw == [] {
      assert PrintRaw(raw) + "\"" == "\"";
      AtIndex(s, i, "\"", 0);
    } else {
      var unit := PrintUnit(raw[0]);
      assert ValidUnit(raw[0]);
      assert PrintRaw(raw) + "\"" == unit + (PrintRaw(raw[1..]) + "\"");
      hide PrintRaw, At;
      AtSplit(s, i, unit, PrintRaw(raw[1..]) + "\"");
      AtIndex(s, i, unit, 0);
      if raw[0].Escape? {
        AtIndex(s, i, unit, 1);
        assert s[i] == '\\' && s[i + 1] == raw[0].c;
      }
      StringConsumed(s, i + |unit|, raw[1..]);
    }
  }

  /** No character of a plain key ends a path segment. */
  lemma {:induction false} PlainKeyChars(raw: seq<Unit>, k: nat)
    requires ValidRaw(raw) && PlainKey(raw) && k < |PrintRaw(raw)|
    ensures PrintRaw(raw)[k] !in {'\0', '.', '['}
    decreases |raw|
  {
    assert ValidUnit(raw[0]);
    if k >= |PrintUnit(raw[0])| {
      PlainKeyChars(raw[1..], k - |PrintUnit(raw[0])|);
    }
  }

  lemma IndexDigit(path: string, pos: nat, d: nat, ei: nat)
    requires d < 10 && At(path, pos, [DigitChar(d)])
    ensures ReadIndex(path, pos, ei) == ReadIndex(path, pos + 1, ei * 10 + d)
  {
    AtIndex(path, pos, [DigitChar(d)], 0);
  }

  /** The digits of an index are read back as the index. */
  lemma {:induction false} IndexRead(path: string, pos: nat, n: nat)
    requires At(path, pos, Decimal(n))
    ensures ReadIndex(path, pos, 0) == ReadIndex(path, pos + |Decimal(n)|, n)
    decreases n
  {
    if n < 10 {
      IndexDigit(path, pos, n, 0);
    } else {
      AtSplit(path, pos, Decimal(n / 10), [DigitChar(n % 10)]);
      IndexRead(path, pos, n / 10);
      IndexDigit(path, pos + |Decimal(n / 10)|, n % 10, n / 10);
    }
  }

  lemma IndexReadBack(path: string, pos: nat, n: nat)
    requires At(path, pos, Decimal(n) + "]")
    ensures ReadIndex(path, pos, 0) == (n, pos + |Decimal(n)|)
  {
    AtSplit(path, pos, Decimal(n), "]");
    AtIndex(path, pos + |Decimal(n)|, "]", 0);
    IndexRead(path, pos, n);
  }
}
