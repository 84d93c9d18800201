/**
  A subset of the number grammar behind Python's `float(s)` and `int(s)`:
  surrounding whitespace, an optional sign, decimal digits with at most one
  '.', at least one digit. `float()` also reads exponents, '_' between
  digits, `nan` and `inf`; this grammar rejects all of them, so such text
  has no value here even where Python would give it one.
 */
module Decimal {
  import opened Base
  import opened Text

  /** How many times `c` occurs in `s`. */
  function Occurrences(s: string, c: char): nat
    decreases |s|
  {
    if |s| == 0 then 0 else (if s[0] == c then 1 else 0) + Occurrences(s[1..], c)
  }

  lemma {:induction false} OccurrencesConcat(a: string, b: string, c: char)
    ensures Occurrences(a + b, c) == Occurrences(a, c) + Occurrences(b, c)
    decreases |a|
  {
    if |a| > 0 {
      assert (a + b)[1..] == a[1..] + b;
      OccurrencesConcat(a[1..], b, c);
    } else {
      assert a + b == b;
    }
  }

  lemma {:induction false} OccurrencesNone(s: string, c: char)
    ensures Occurrences(s, c) == 0 <==> c !in s
    decreases |s|
  {
    if |s| > 0 {
      OccurrencesNone(s[1..], c);
      assert s == [s[0]] + s[1..];
    }
  }

  /** Digits and at most one '.', with at least one digit. */
  predicate IsUnsignedLiteral(s: string) {
    && DigitsOrDots(s)
    && Occurrences(s, '.') <= 1
    && Occurrences(s, '.') < |s|
  }

  predicate IsSign(c: char) {
    c == '-' || c == '+'
  }

  /** An optional sign followed by an unsigned literal. */
  predicate IsDecimalLiteral(s: string) {
    if |s| > 0 && IsSign(s[0]) then IsUnsignedLiteral(s[1..]) else IsUnsignedLiteral(s)
  }

  /** The value of fraction digits `d1 d2 ...`: `d1/10 + d2/100 + ...`. */
  function FractionValue(fp: string): (x: real)
    requires AllDigits(fp)
    ensures 0.0 <= x <= 1.0
    decreases |fp|
  {
    if |fp| == 0 then 0.0
    else ((fp[0] as int - '0' as int) as real + FractionValue(fp[1..])) / 10.0
  }

  /** Integer digits plus fraction digits. */
  function DecimalValue(ip: string, fp: string): (x: real)
    requires AllDigits(ip) && AllDigits(fp)
    ensures x >= 0.0
  {
    DigitsValue(ip) as real + FractionValue(fp)
  }

  /** The value of an unsigned literal, split at its first '.'. */
  function ParseUnsigned(s: string): (r: Option<real>)
    ensures r.Some? ==> r.value >= 0.0
  {
    var i := IndexOf(s, '.');
    var ip := s[..i];
    var fp := if i < |s| then s[i + 1..] else [];
    if |ip| + |fp| > 0 && AllDigits(ip) && AllDigits(fp) then Some(DecimalValue(ip, fp))
    else None
  }

  /** Every character is a digit or a '.'. */
  predicate DigitsOrDots(s: string) {
    forall k :: 0 <= k < |s| ==> IsDigit(s[k]) || s[k] == '.'
  }

  /** Without a '.', "digits or dots" is just "digits". */
  lemma DigitsOrDotsNoDot(s: string)
    requires '.' !in s
    ensures DigitsOrDots(s) <==> AllDigits(s)
  {
  }

  lemma DigitsOrDotsAround(ip: string, fp: string)
    ensures DigitsOrDots(ip + ['.'] + fp) <==> DigitsOrDots(ip) && DigitsOrDots(fp)
  {
    var s := ip + ['.'] + fp;
    assert forall k :: 0 <= k < |ip| ==> s[k] == ip[k];
    assert forall k :: 0 <= k < |fp| ==> s[|ip| + 1 + k] == fp[k];
    if DigitsOrDots(ip) && DigitsOrDots(fp) {
      forall k | 0 <= k < |s|
        ensures IsDigit(s[k]) || s[k] == '.'
      {
        if k > |ip| {
          assert s[k] == fp[k - |ip| - 1];
        }
      }
    }
  }

  /** The parser accepts exactly the unsigned literals. */
  lemma UnsignedAccepts(s: string)
    ensures ParseUnsigned(s).Some? <==> IsUnsignedLiteral(s)
  {
    var i := IndexOf(s, '.');
    UnsignedShape(s, i, s[..i], if i < |s| then s[i + 1..] else []);
  }

  /** Splitting at the first '.' yields two digit runs exactly when `s` is an unsigned literal. */
  lemma UnsignedShape(s: string, i: nat, ip: string, fp: string)
    requires i == IndexOf(s, '.')
    requires ip == s[..i] && fp == (if i < |s| then s[i + 1..] else [])
    ensures (|ip| + |fp| > 0 && AllDigits(ip) && AllDigits(fp)) <==> IsUnsignedLiteral(s)
  {
    if i < |s| {
      var t := ip + ['.'] + fp;
      assert t == s by {
        SplitAtIndex(s, i);
      }
      ShapeWithDot(ip, fp);
    } else {
      assert ip == s;
      ShapeNoDot(s);
    }
  }

  /** A string splits around its first '.'. */
  lemma SplitAtIndex(s: string, i: nat)
    requires i < |s| && s[i] == '.'
    requires forall j :: 0 <= j < i ==> s[j] != '.'
    ensures s == s[..i] + ['.'] + s[i + 1..]
    ensures '.' !in s[..i]
  {
    assert s[i..] == [s[i]] + s[i + 1..];
    assert s == s[..i] + s[i..];
  }

  lemma ShapeNoDot(s: string)
    requires '.' !in s
    ensures (|s| > 0 && AllDigits(s)) <==> IsUnsignedLiteral(s)
  {
    OccurrencesNone(s, '.');
    DigitsOrDotsNoDot(s);
  }

  lemma ShapeWithDot(ip: string, fp: string)
    requires '.' !in ip
    ensures (|ip| + |fp| > 0 && AllDigits(ip) && AllDigits(fp)) <==> IsUnsignedLiteral(ip + ['.'] + fp)
  {
    var s := ip + ['.'] + fp;
    OccurrencesNone(ip, '.');
    OccurrencesNone(fp, '.');
    OccurrencesConcat(ip + ['.'], fp, '.');
    OccurrencesConcat(ip, ['.'], '.');
    assert Occurrences(['.'], '.') == 1;
    assert Occurrences(s, '.') == 1 + Occurrences(fp, '.');
    DigitsOrDotsAround(ip, fp);
    DigitsOrDotsNoDot(ip);
    if '.' !in fp {
      DigitsOrDotsNoDot(fp);
    }
  }

  /** A decimal literal with an optional leading sign. */
  function ParseNumber(s: string): (r: Option<real>)
    ensures r.Some? && |s| > 0 && s[0] == '-' ==> r.value <= 0.0
    ensures r.Some? && (|s| == 0 || s[0] != '-') ==> r.value >= 0.0
  {
    if |s| > 0 && IsSign(s[0]) then
      match ParseUnsigned(s[1..])
      case None => None
      case Some(x) => Some(if s[0] == '-' then -x else x)
    else ParseUnsigned(s)
  }

  /** Python `float(s)` on this grammar: whitespace around the literal is ignored. */
  function PyFloat(s: string): Option<real>
  {
    ParseNumber(Strip(s))
  }

  /** `float()` succeeds exactly on a decimal literal with optional whitespace around it. */
  lemma PyFloatAccepts(s: string)
    ensures PyFloat(s).Some? <==> IsDecimalLiteral(Strip(s))
  {
    var t := Strip(s);
    if |t| > 0 && IsSign(t[0]) {
      UnsignedAccepts(t[1..]);
    } else {
      UnsignedAccepts(t);
    }
  }

  /** Trimmed text that starts with neither a digit, a sign nor a '.' is no number. */
  lemma NotNumberStart(s: string)
    requires Trimmed(s) && |s| > 0 && !IsDigit(s[0]) && !IsSign(s[0]) && s[0] != '.'
    ensures PyFloat(s) == None
  {
    assert Strip(s) == s;
    assert !DigitsOrDots(s);
    PyFloatAccepts(s);
  }

  /** Python `int(s)` on ASCII digits: whitespace around, optional sign, at least one digit. */
  function ParseInt(s: string): Option<int>
  {
    var t := Strip(s);
    var body := if |t| > 0 && IsSign(t[0]) then t[1..] else t;
    if |body| > 0 && AllDigits(body) then
      var n: int := DigitsValue(body);
      Some(if t[0] == '-' then -n else n)
    else None
  }

  // ---------------------------------------------------------------------------
  // Round trips: what the formatting side writes, the parsing side reads back.

  /** `str(n)` for a natural number parses back to `n`. */
  lemma {:induction false} ShowNatParses(n: nat)
    ensures ParseNumber(ShowNat(n)) == Some(n as real)
  {
    var s := ShowNat(n);
    assert '.' !in s;
    assert IndexOf(s, '.') == |s|;
    assert s[..|s|] == s;
  }

  /** `int(str(i))` is `i` for every integer, negative ones included. */
  lemma {:induction false} ShowIntParses(i: int)
    ensures ParseInt(ShowInt(i)) == Some(i)
  {
    var s := ShowInt(i);
    DigitsTrimmed(ShowNat(if i < 0 then -i else i));
    if i < 0 {
      assert Trimmed(s);
      assert Strip(s) == s;
      assert s[1..] == ShowNat(-i);
    } else {
      assert Strip(s) == s;
    }
  }

  /** Integer digits, a '.', and two fraction digits: the text an amount in cents is written as. */
  function CentsText(q: nat, c: nat): string
    requires c < 100
  {
    ShowNat(q) + "." + PadDigits(c, 2)
  }

  /** `q.cc` parses back to `q + cc/100`. */
  lemma CentsParse(q: nat, c: nat)
    requires c < 100
    ensures ParseUnsigned(CentsText(q, c)) == Some(q as real + c as real / 100.0)
  {
    var d, f := ShowNat(q), PadDigits(c, 2);
    assert DecimalValue(d, f) == q as real + c as real / 100.0 by {
      TwoFractionDigits(c);
    }
    PointValue(d, f, q as real + c as real / 100.0);
  }

  /** Digits, a '.' and fraction digits parse as the value they spell. */
  lemma PointValue(d: string, f: string, v: real)
    requires |d| > 0 && AllDigits(d) && AllDigits(f)
    requires DecimalValue(d, f) == v
    ensures ParseUnsigned(d + "." + f) == Some(v)
  {
    PointSplit(d, f);
  }

  /** Digits, a '.', digits: the parser splits at that '.'. */
  lemma PointSplit(d: string, f: string)
    requires |d| > 0 && AllDigits(d) && AllDigits(f)
    ensures ParseUnsigned(d + "." + f) == Some(DecimalValue(d, f))
  {
    var s := d + "." + f;
    DigitsExclude(d, '.');
    IndexOfSeparator(d, '.', f);
    assert s == d + ['.'] + f;
    assert s[..|d|] == d;
    assert s[|d| + 1..] == f;
  }

  /** Two zero-padded digits read as a fraction are hundredths. */
  lemma TwoFractionDigits(c: nat)
    requires c < 100
    ensures FractionValue(PadDigits(c, 2)) == c as real / 100.0
  {
    var f := PadDigits(c, 2);
    var d1 := c / 10;
    var d2 := c % 10;
    assert c == 10 * d1 + d2;
    assert f == PadDigits(d1, 1) + [DigitChar(d2)];
    assert PadDigits(d1, 1) == PadDigits(d1 / 10, 0) + [DigitChar(d1 % 10)];
    assert d1 % 10 == d1;
    assert f == [DigitChar(d1), DigitChar(d2)];
    assert f[1..] == [DigitChar(d2)];
    assert f[1..][1..] == [];
    assert FractionValue(f[1..]) == d2 as real / 10.0;
    assert FractionValue(f) == (d1 as real + d2 as real / 10.0) / 10.0;
  }

  /** The unsigned cents text, read as a signed number. */
  lemma CentsNumber(q: nat, c: nat)
    requires c < 100
    ensures ParseNumber(CentsText(q, c)) == Some(q as real + c as real / 100.0)
  {
    CentsParse(q, c);
    var s := CentsText(q, c);
    assert s[0] == ShowNat(q)[0];
    assert !IsSign(s[0]);
  }

  /** A '-' in front of an unsigned literal negates its value. */
  lemma MinusNegates(s: string, v: real)
    requires ParseUnsigned(s) == Some(v)
    ensures ParseNumber("-" + s) == Some(-v)
  {
    var t := "-" + s;
    assert t[1..] == s;
    assert t[0] == '-';
  }
}
