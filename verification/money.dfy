/**
  The text-to-amount cleaners of the four sources. Each takes a cell's text
  (`astype(str)` / `str(valor)`), rewrites the Brazilian notation into
  Python's, and reads the result with `float()`; what `float()` rejects
  counts as zero (the column-wide `to_numeric(..., errors='coerce').fillna(0)`
  retry, or the per-value `except ValueError` of the C6 payment cleaner).
 */
module Money {
  import opened Base
  import opened Text
  import opened Decimal

  /** `float(s)`, with a rejected text counted as zero. */
  function ParseOrZero(s: string): (x: real)
    ensures PyFloat(s).None? ==> x == 0.0
    ensures PyFloat(s).Some? ==> x == PyFloat(s).value
  {
    match PyFloat(s)
    case Some(v) => v
    case None => 0.0
  }

  /** pandas `Series.replace('', '0')`: a value that is exactly empty becomes "0". */
  function ZeroIfEmpty(s: string): (r: string)
    ensures r != []
    ensures s != [] ==> r == s
  {
    if s == [] then "0" else s
  }

  /** Replacing every ',' by '.' leaves no ','. */
  lemma CommaGone(s: string)
    ensures ',' !in ReplaceAll(s, ",", ".")
  {
    ReplaceCharPointwise(s, ',', '.');
    var r := ReplaceAll(s, ",", ".");
    forall i | 0 <= i < |r|
      ensures r[i] != ','
    {
    }
  }

  // ---------------------------------------------------------------------------
  // C6 sales export and WAB: "; R$ 600,00 ;" and "R$700,00"

  /**
    strip, remove every "R$", strip, remove every '.', turn ',' into '.',
    strip, and an empty result becomes "0".
   */
  function CleanBrl(s: string): (r: string)
    ensures r != [] && ',' !in r
    ensures Strip(s) == [] ==> r == "0"
  {
    var a := Strip(ReplaceAll(Strip(s), "R$", ""));
    var b := ReplaceAll(ReplaceAll(a, ".", ""), ",", ".");
    CommaGone(ReplaceAll(a, ".", ""));
    ZeroIfEmpty(Strip(b))
  }

  /** The amount a C6 sales or WAB value cell holds. */
  function BrlAmount(s: string): real
  {
    ParseOrZero(CleanBrl(s))
  }

  // ---------------------------------------------------------------------------
  // C6 receivables export: "R$ 26,52", "-R$ 26,52", "-"

  /**
    strip; a "-R$" prefix becomes "-" and an "R$" prefix is dropped (each
    with the whitespace after it); a lone "-" or an empty value becomes "0";
    then remove every '.' and turn ',' into '.'.
   */
  function CleanC6Payment(s: string): (r: string)
    ensures ',' !in r
    ensures Strip(s) == [] || Strip(s) == "-" ==> r == "0"
  {
    var t := Strip(s);
    var u :=
      if StartsWith(t, "-R$") then "-" + Strip(t[3..])
      else if StartsWith(t, "R$") then Strip(t[2..])
      else if t == "-" then "0"
      else if t == [] then "0"
      else t;
    CommaGone(ReplaceAll(u, ".", ""));
    ZeroReplaced();
    ReplaceAll(ReplaceAll(u, ".", ""), ",", ".")
  }

  /** The amount a C6 receivables value cell holds; a value `float()` rejects is 0.0. */
  function C6PaymentAmount(s: string): real
  {
    ParseOrZero(CleanC6Payment(s))
  }

  // ---------------------------------------------------------------------------
  // GDS: ";1200;" and ";1173,48;" — no currency sign, and '.' is NOT removed

  /** strip, turn ',' into '.', strip, and an empty result becomes "0". */
  function CleanGds(s: string): (r: string)
    ensures r != [] && ',' !in r
    ensures Strip(s) == [] ==> r == "0"
  {
    var b := ReplaceAll(Strip(s), ",", ".");
    CommaGone(Strip(s));
    ZeroIfEmpty(Strip(b))
  }

  function GdsAmount(s: string): real
  {
    ParseOrZero(CleanGds(s))
  }

  // ---------------------------------------------------------------------------
  // The generic cleaner of the loader: no fallback, a rejected value raises

  /** remove every "R$", remove every '.', turn ',' into '.', strip, and an empty result becomes "0". */
  function CleanGeneric(s: string): (r: string)
    ensures r != [] && ',' !in r
  {
    var b := ReplaceAll(ReplaceAll(ReplaceAll(s, "R$", ""), ".", ""), ",", ".");
    CommaGone(ReplaceAll(ReplaceAll(s, "R$", ""), ".", ""));
    ZeroIfEmpty(Strip(b))
  }

  /** `float()` of the cleaned text; `None` is the `ValueError` the loader lets escape. */
  function GenericAmount(s: string): Option<real>
  {
    PyFloat(CleanGeneric(s))
  }

  // ---------------------------------------------------------------------------
  // How the exports write amounts, and what the cleaners read back

  /** Digits grouped in threes from the right with '.', as Brazilian amounts write thousands. */
  function Grouped(d: string): (r: string)
    ensures |r| >= |d|
    ensures |d| > 3 ==> '.' in r
    ensures |d| > 0 ==> r[0] == d[0]
    ensures |d| > 0 ==> r[|r| - 1] == d[|d| - 1]
    decreases |d|
  {
    if |d| <= 3 then d
    else
      var r := Grouped(d[..|d| - 3]) + "." + d[|d| - 3..];
      assert r[|Grouped(d[..|d| - 3])|] == '.';
      r
  }

  /** The integer part of an amount in Brazilian notation: grouped digits, ',' and two cents digits. */
  function BrlDigits(q: nat, c: nat): (r: string)
    requires c < 100
  {
    Grouped(ShowNat(q)) + "," + PadDigits(c, 2)
  }

  /** Grouped digits contain only digits and the '.' separators. */
  lemma GroupedChars(d: string)
    requires AllDigits(d)
    ensures forall i :: 0 <= i < |Grouped(d)| ==> IsDigit(Grouped(d)[i]) || Grouped(d)[i] == '.'
    decreases |d|
  {
    if |d| > 3 {
      GroupedChars(d[..|d| - 3]);
      var a := Grouped(d[..|d| - 3]);
      var b := d[|d| - 3..];
      assert Grouped(d) == a + "." + b;
      forall i | 0 <= i < |Grouped(d)|
        ensures IsDigit(Grouped(d)[i]) || Grouped(d)[i] == '.'
      {
        if i > |a| {
          assert Grouped(d)[i] == b[i - |a| - 1];
        }
      }
    }
  }

  /** Removing the separators gives the digits back. */
  lemma {:induction false} Ungroup(d: string)
    requires AllDigits(d)
    ensures ReplaceAll(Grouped(d), ".", "") == d
    decreases |d|
  {
    if |d| > 3 {
      Ungroup(d[..|d| - 3]);
      UngroupLast(d);
    } else {
      DigitsExclude(d, '.');
      ReplaceAllAbsent(d, ".", "");
    }
  }


  /** One step of `Ungroup`: the last group of three joins the ungrouped rest. */
  lemma UngroupLast(d: string)
    requires AllDigits(d) && |d| > 3
    requires ReplaceAll(Grouped(d[..|d| - 3]), ".", "") == d[..|d| - 3]
    ensures ReplaceAll(Grouped(d), ".", "") == d
  {
    var p := d[..|d| - 3];
    var b := d[|d| - 3..];
    DigitsExclude(b, '.');
    DropJoiningPoint(Grouped(p), b);
    assert d == p + b;
  }

  /** Removing '.' from `a + "." + b`, where `b` has none, removes the joining one too. */
  lemma DropJoiningPoint(a: string, b: string)
    requires '.' !in b
    ensures ReplaceAll(a + "." + b, ".", "") == ReplaceAll(a, ".", "") + b
  {
    assert a + "." + b == a + ("." + b);
    ReplaceCharConcat(a, "." + b, '.', "");
    ReplaceAllLeading(".", b, "");
    ReplaceAllAbsent(b, ".", "");
    assert "" + b == b;
  }

  /** Grouped digits of a digit string are trimmed and free of ',', 'R' and whitespace. */
  lemma GroupedPlain(d: string)
    requires AllDigits(d) && |d| > 0
    ensures Trimmed(Grouped(d))
    ensures ',' !in Grouped(d) && 'R' !in Grouped(d)
  {
    GroupedChars(d);
  }

  /** Turning the ',' of the Brazilian digits into '.' after removing the separators yields `q.cc`. */
  lemma BrlDigitsToCents(q: nat, c: nat)
    requires c < 100
    ensures ReplaceAll(ReplaceAll(BrlDigits(q, c), ".", ""), ",", ".") == CentsText(q, c)
  {
    var d, p := ShowNat(q), PadDigits(c, 2);
    assert BrlDigits(q, c) == Grouped(d) + ("," + p);
    DotsRemoved(d, p);
    CommaToDot(d, p);
  }

  /** Removing the '.' separators from grouped digits, ',' and more digits leaves the plain digits. */
  lemma DotsRemoved(d: string, p: string)
    requires AllDigits(d) && AllDigits(p)
    ensures ReplaceAll(Grouped(d) + ("," + p), ".", "") == d + ("," + p)
  {
    DigitsExclude(p, '.');
    ReplaceCharConcat(Grouped(d), "," + p, '.', "");
    ReplaceCharConcat(",", p, '.', "");
    Ungroup(d);
    assert ReplaceAll(",", ".", "") == ",";
    ReplaceAllAbsent(p, ".", "");
  }

  /** Digits, ',' and digits, with the ',' turned into '.'. */
  lemma CommaToDot(d: string, p: string)
    requires AllDigits(d) && AllDigits(p)
    ensures ReplaceAll(d + ("," + p), ",", ".") == d + "." + p
  {
    DigitsExclude(d, ',');
    DigitsExclude(p, ',');
    ReplaceCharConcat(d, "," + p, ',', ".");
    ReplaceCharConcat(",", p, ',', ".");
    ReplaceAllAbsent(d, ",", ".");
    ReplaceAllAbsent(p, ",", ".");
    assert ReplaceAll(",", ",", ".") == ".";
  }

  /** Brazilian digits are trimmed and contain no 'R'. */
  lemma BrlDigitsPlain(q: nat, c: nat)
    requires c < 100
    ensures Trimmed(BrlDigits(q, c)) && 'R' !in BrlDigits(q, c) && |BrlDigits(q, c)| > 0
  {
    GroupedPlain(ShowNat(q));
    var p := PadDigits(c, 2);
    DigitsExclude(p, 'R');
    assert BrlDigits(q, c)[0] == Grouped(ShowNat(q))[0];
  }

  /** The cents text reads back as its amount through `float()`. */
  lemma CentsFloat(q: nat, c: nat)
    requires c < 100
    ensures Strip(CentsText(q, c)) == CentsText(q, c) && CentsText(q, c) != []
    ensures ParseOrZero(CentsText(q, c)) == q as real + c as real / 100.0
  {
    var s := CentsText(q, c);
    assert s[0] == ShowNat(q)[0];
    assert s[|s| - 1] == PadDigits(c, 2)[1];
    assert Trimmed(s);
    CentsNumber(q, c);
  }

  /** The C6 sales and WAB cleaner, stage by stage. */
  lemma CleanBrlStages(s: string, t: string, d: string, e: string)
    requires Strip(s) == t && Strip(ReplaceAll(t, "R$", "")) == d
    requires ReplaceAll(ReplaceAll(d, ".", ""), ",", ".") == e && Strip(e) == e && e != []
    ensures CleanBrl(s) == e
  {
  }

  /** Whitespace around a cell whose text is trimmed and non-empty. */
  lemma StripCell(g1: string, t: string, g2: string, s: string)
    requires AllSpace(g1) && AllSpace(g2) && Trimmed(t) && s == g1 + t + g2
    ensures Strip(s) == t
  {
    StripAround(g1, t, g2);
  }

  /** "R$" followed by whitespace in front of trimmed text without 'R': the cleaner leaves the text. */
  lemma BrlStripSign(gap: string, d: string)
    requires AllSpace(gap) && Trimmed(d) && 'R' !in d
    ensures Strip(ReplaceAll("R$" + gap + d, "R$", "")) == d
  {
    DropSign(gap, d);
    StripGap(gap, d);
  }

  lemma DropSign(gap: string, d: string)
    requires AllSpace(gap) && 'R' !in d
    ensures ReplaceAll("R$" + gap + d, "R$", "") == gap + d
  {
    var x := gap + d;
    assert "R$" + gap + d == "R$" + x;
    ReplaceAllLeading("R$", x, "");
    assert 'R' !in x;
    ReplaceAllAbsent(x, "R$", "");
  }

  lemma StripGap(gap: string, d: string)
    requires AllSpace(gap) && Trimmed(d)
    ensures Strip(gap + d) == d
  {
    assert gap + d == gap + d + "";
    StripAround(gap, d, "");
  }

  /** "R$" plus whitespace plus the Brazilian digits is trimmed. */
  lemma SignedTrimmed(prefix: string, gap: string, d: string)
    requires |prefix| > 0 && !IsSpace(prefix[0]) && Trimmed(d) && |d| > 0
    ensures Trimmed(prefix + gap + d)
  {
    var t := prefix + gap + d;
    assert t[0] == prefix[0] && t[|t| - 1] == d[|d| - 1];
  }

  /**
    Round trip of the C6 sales and WAB notation: "R$", any whitespace, the
    Brazilian digits, with whitespace around the whole cell, reads back as
    `q + c/100`.
   */
  lemma BrlRoundTrip(q: nat, c: nat, g1: string, gap: string, g2: string)
    requires c < 100 && AllSpace(g1) && AllSpace(gap) && AllSpace(g2)
    ensures BrlAmount(g1 + "R$" + gap + BrlDigits(q, c) + g2) == q as real + c as real / 100.0
  {
    var d := BrlDigits(q, c);
    var t := "R$" + gap + d;
    var s := g1 + "R$" + gap + d + g2;
    var e := CentsText(q, c);
    BrlDigitsPlain(q, c);
    SignedCell(g1, "R$", gap, d, g2);
    BrlStripSign(gap, d);
    BrlDigitsToCents(q, c);
    CentsFloat(q, c);
    CleanBrlStages(s, t, d, e);
  }

  /** The C6 receivables cleaner on a "-R$" value, stage by stage. */
  lemma CleanC6NegativeStages(s: string, t: string, d: string, e: string)
    requires Strip(s) == t && StartsWith(t, "-R$") && Strip(t[3..]) == d
    requires ReplaceAll(ReplaceAll("-" + d, ".", ""), ",", ".") == e
    ensures CleanC6Payment(s) == e
  {
  }

  /** The C6 receivables cleaner on an "R$" value, stage by stage. */
  lemma CleanC6PositiveStages(s: string, t: string, d: string, e: string)
    requires Strip(s) == t && !StartsWith(t, "-R$") && StartsWith(t, "R$") && Strip(t[2..]) == d
    requires ReplaceAll(ReplaceAll(d, ".", ""), ",", ".") == e
    ensures CleanC6Payment(s) == e
  {
  }

  /** A C6 receivables value "-R$ 1.234,56" reads back as the negative amount. */
  lemma C6NegativeRoundTrip(q: nat, c: nat, g1: string, gap: string, g2: string)
    requires c < 100 && AllSpace(g1) && AllSpace(gap) && AllSpace(g2)
    ensures C6PaymentAmount(g1 + "-R$" + gap + BrlDigits(q, c) + g2) == -(q as real + c as real / 100.0)
  {
    var d := BrlDigits(q, c);
    var t := "-R$" + gap + d;
    var s := g1 + "-R$" + gap + d + g2;
    BrlDigitsPlain(q, c);
    SignedCell(g1, "-R$", gap, d, g2);
    AfterPrefix("-R$", gap, d);
    StripGap(gap, d);
    MinusCleaned(d);
    BrlDigitsToCents(q, c);
    CleanC6NegativeStages(s, t, d, "-" + CentsText(q, c));
    C6NegativeRead(q, c);
    AmountStages(s, "-" + CentsText(q, c), -(q as real + c as real / 100.0));
  }

  /** Splitting off a known prefix. */
  lemma SignPrefix(t: string, prefix: string, rest: string)
    requires t == prefix + rest
    ensures StartsWith(t, prefix) && t[|prefix|..] == rest
  {
    assert t[..|prefix|] == prefix;
  }

  /** Removing '.' and turning ',' into '.' leave a leading '-' in place. */
  lemma MinusCleaned(d: string)
    ensures ReplaceAll(ReplaceAll("-" + d, ".", ""), ",", ".")
         == "-" + ReplaceAll(ReplaceAll(d, ".", ""), ",", ".")
  {
    ReplaceCharConcat("-", d, '.', "");
    assert ReplaceAll("-", ".", "") == "-";
    ReplaceCharConcat("-", ReplaceAll(d, ".", ""), ',', ".");
    assert ReplaceAll("-", ",", ".") == "-";
  }

  lemma {:induction false} C6NegativeRead(q: nat, c: nat)
    requires c < 100
    ensures ParseOrZero("-" + CentsText(q, c)) == -(q as real + c as real / 100.0)
  {
    CentsUnsigned(q, c);
    NegatedRead(CentsText(q, c));
  }

  /** The cents text is trimmed unsigned text spelling its amount. */
  lemma CentsUnsigned(q: nat, c: nat)
    requires c < 100
    ensures Trimmed(CentsText(q, c)) && |CentsText(q, c)| > 0
    ensures ParseUnsigned(CentsText(q, c)) == Some(q as real + c as real / 100.0)
  {
    var t := CentsText(q, c);
    CentsFloat(q, c);
    assert Trimmed(Strip(t));
    CentsParse(q, c);
  }

  /** A '-' in front of trimmed unsigned text reads as the negated value. */
  lemma NegatedRead(t: string)
    requires Trimmed(t) && |t| > 0 && ParseUnsigned(t).Some?
    ensures ParseOrZero("-" + t) == -ParseUnsigned(t).value
  {
    var s := "-" + t;
    assert s[|s| - 1] == t[|t| - 1];
    assert Trimmed(s);
    MinusNegates(t, ParseUnsigned(t).value);
  }


  /** A C6 receivables value "R$ 1.234,56" reads back as the positive amount. */
  lemma C6PositiveRoundTrip(q: nat, c: nat, g1: string, gap: string, g2: string)
    requires c < 100 && AllSpace(g1) && AllSpace(gap) && AllSpace(g2)
    ensures C6PaymentAmount(g1 + "R$" + gap + BrlDigits(q, c) + g2) == q as real + c as real / 100.0
  {
    var d := BrlDigits(q, c);
    var t := "R$" + gap + d;
    var s := g1 + "R$" + gap + d + g2;
    var e := CentsText(q, c);
    BrlDigitsPlain(q, c);
    SignedCell(g1, "R$", gap, d, g2);
    AfterPrefix("R$", gap, d);
    FirstCharDiffers(t, "-R$");
    StripGap(gap, d);
    BrlDigitsToCents(q, c);
    CleanC6PositiveStages(s, t, d, e);
    CentsFloat(q, c);
    AmountStages(s, e, q as real + c as real / 100.0);
  }

  lemma AmountStages(s: string, e: string, v: real)
    requires CleanC6Payment(s) == e && ParseOrZero(e) == v
    ensures C6PaymentAmount(s) == v
  {
  }

  /** A cell holding a trimmed sign-prefixed text with whitespace around it strips to that text. */
  lemma SignedCell(g1: string, prefix: string, gap: string, d: string, g2: string)
    requires AllSpace(g1) && AllSpace(g2) && Trimmed(d) && |d| > 0
    requires |prefix| > 0 && !IsSpace(prefix[0])
    ensures Strip(g1 + prefix + gap + d + g2) == prefix + gap + d
  {
    var t := prefix + gap + d;
    SignedTrimmed(prefix, gap, d);
    assert g1 + prefix + gap + d + g2 == g1 + t + g2;
    StripCell(g1, t, g2, g1 + t + g2);
  }

  /** After the prefix comes the gap and the digits. */
  lemma AfterPrefix(prefix: string, gap: string, d: string)
    ensures StartsWith(prefix + gap + d, prefix) && (prefix + gap + d)[|prefix|..] == gap + d
  {
    SignPrefix(prefix + gap + d, prefix, gap + d);
  }

  /** An empty or blank value is 0 for every cleaner that has that rule. */
  lemma BlankIsZero(s: string)
    requires Strip(s) == []
    ensures BrlAmount(s) == 0.0 && GdsAmount(s) == 0.0 && C6PaymentAmount(s) == 0.0
  {
    ZeroParses();
  }

  /** A lone '-' (the C6 export's empty discount) is 0. */
  lemma LoneMinusIsZero(g1: string, g2: string)
    requires AllSpace(g1) && AllSpace(g2)
    ensures C6PaymentAmount(g1 + "-" + g2) == 0.0
  {
    StripCell(g1, "-", g2, g1 + "-" + g2);
    ZeroParses();
  }

  lemma ZeroParses()
    ensures PyFloat("0") == Some(0.0)
    ensures ParseOrZero("0") == 0.0
  {
    ShowNatParses(0);
    assert ShowNat(0) == "0";
    DigitsTrimmed("0");
  }

  lemma ZeroReplaced()
    ensures ReplaceAll(ReplaceAll("0", ".", ""), ",", ".") == "0"
  {
  }

  /** GDS decimal commas: "1173,48" reads as 1173.48 (no thousands separator). */
  lemma GdsRoundTrip(q: nat, c: nat, g1: string, g2: string)
    requires c < 100 && AllSpace(g1) && AllSpace(g2)
    ensures GdsAmount(g1 + ShowNat(q) + "," + PadDigits(c, 2) + g2) == q as real + c as real / 100.0
  {
    var p := PadDigits(c, 2);
    var d := ShowNat(q) + "," + p;
    var s := g1 + ShowNat(q) + "," + p + g2;
    assert d[0] == ShowNat(q)[0] && d[|d| - 1] == p[1];
    assert s == g1 + d + g2;
    StripCell(g1, d, g2, s);
    CommaToPoint(q, c);
    CentsFloat(q, c);
    CleanGdsStages(s, d, CentsText(q, c));
  }

  /** The GDS cleaner, stage by stage. */
  lemma CleanGdsStages(s: string, d: string, e: string)
    requires Strip(s) == d && ReplaceAll(d, ",", ".") == e && Strip(e) == e && e != []
    ensures CleanGds(s) == e
  {
  }

  lemma CommaToPoint(q: nat, c: nat)
    requires c < 100
    ensures ReplaceAll(ShowNat(q) + "," + PadDigits(c, 2), ",", ".") == CentsText(q, c)
  {
    var p := PadDigits(c, 2);
    DigitsExclude(ShowNat(q), ',');
    DigitsExclude(p, ',');
    assert ShowNat(q) + "," + p == ShowNat(q) + ("," + p);
    CommaSplit(ShowNat(q), p);
  }

  /** ',' between two comma-free parts becomes '.'. */
  lemma CommaSplit(a: string, b: string)
    requires ',' !in a && ',' !in b
    ensures ReplaceAll(a + ("," + b), ",", ".") == a + "." + b
  {
    ReplaceCharConcat(a, "," + b, ',', ".");
    ReplaceCharConcat(",", b, ',', ".");
    ReplaceAllAbsent(a, ",", ".");
    ReplaceAllAbsent(b, ",", ".");
    assert ReplaceAll(",", ",", ".") == ".";
  }

  /**
    GDS keeps '.', so an amount written with a thousands separator is read
    wrongly: with cents it has two '.' after the comma turns into one, and
    `float()` rejects it, giving 0.
   */
  lemma GdsThousandsIsZero(q: nat, c: nat)
    requires c < 100 && q >= 1000
    ensures GdsAmount(BrlDigits(q, c)) == 0.0
  {
    var g := Grouped(ShowNat(q));
    var p := PadDigits(c, 2);
    var d := BrlDigits(q, c);
    ShowNatLength(q);
    BrlDigitsPlain(q, c);
    GroupedPlain(ShowNat(q));
    DigitsExclude(p, ',');
    assert d == g + ("," + p);
    CommaSplit(g, p);
    var e := g + "." + p;
    assert e[0] == g[0] && e[|e| - 1] == p[1];
    assert Strip(e) == e;
    TwoPointsRejected(g, p);
    CleanGdsStages(d, d, e);
  }

  /** Numbers from 1000 up have more than three digits. */
  lemma {:induction false} ShowNatLength(q: nat)
    ensures q >= 1000 ==> |ShowNat(q)| > 3
    ensures q >= 10 ==> |ShowNat(q)| > 1
    decreases q
  {
    if q >= 10 {
      ShowNatLength(q / 10);
    }
  }

  /** Digits, a '.', more text, and a second '.' are not a number. */
  lemma TwoPointsRejected(g: string, p: string)
    requires '.' in g && IsDigit(g[0])
    ensures PyFloat(g + "." + p) == None || !Trimmed(g + "." + p)
  {
    var s := g + "." + p;
    if Trimmed(s) {
      var j :| 0 <= j < |g| && g[j] == '.';
      assert s[j] == '.';
      var i := IndexOf(s, '.');
      assert i <= j;
      var fp := s[i + 1..];
      assert fp[|g| - i - 1] == '.';
      assert !AllDigits(fp);
      assert !IsSign(s[0]);
    }
  }

  /**
    GDS reads a '.' as the decimal point, so a thousands separator shifts the
    amount: "1.200" is 1 + 0.200 = 1.2, not 1200.
   */
  lemma GdsPointIsDecimal(q: nat, f: string, g1: string, g2: string)
    requires AllDigits(f) && AllSpace(g1) && AllSpace(g2)
    ensures GdsAmount(g1 + ShowNat(q) + "." + f + g2) == q as real + FractionValue(f)
  {
    var d := ShowNat(q) + "." + f;
    var s := g1 + ShowNat(q) + "." + f + g2;
    PointTrimmed(ShowNat(q), f);
    assert s == g1 + d + g2;
    StripCell(g1, d, g2, s);
    DigitsExclude(ShowNat(q), ',');
    DigitsExclude(f, ',');
    NoCommaUnchanged(d);
    var v := q as real + FractionValue(f);
    assert ParseUnsigned(d) == Some(v) by {
      PointSplit(ShowNat(q), f);
      assert DecimalValue(ShowNat(q), f) == v;
    }
    PointFloat(d, v);
    CleanGdsStages(s, d, d);
  }

  lemma PointTrimmed(a: string, f: string)
    requires AllDigits(a) && |a| > 0 && AllDigits(f)
    ensures Trimmed(a + "." + f) && ',' !in a + "." + f
    ensures |a + "." + f| > 0 && !IsSign((a + "." + f)[0])
  {
    var d := a + "." + f;
    assert d[0] == a[0];
    if |f| > 0 {
      assert d[|d| - 1] == f[|f| - 1];
    }
    DigitsExclude(a, ',');
    DigitsExclude(f, ',');
  }

  lemma NoCommaUnchanged(d: string)
    requires ',' !in d
    ensures ReplaceAll(d, ",", ".") == d
  {
    ReplaceAllAbsent(d, ",", ".");
  }

  lemma PointFloat(d: string, v: real)
    requires Trimmed(d) && |d| > 0 && !IsSign(d[0]) && ParseUnsigned(d) == Some(v)
    ensures ParseOrZero(d) == v
  {
  }

  // ---------------------------------------------------------------------------
  // Integer cells: `read_csv` turns "1200" into an int, whose `str()` each cleaner reads back

  /** `str(n)` has only digits and perhaps a leading '-'. */
  lemma IntTextPlain(n: int)
    ensures Trimmed(ShowInt(n)) && ShowInt(n) != [] && ShowInt(n) != "-"
    ensures 'R' !in ShowInt(n) && '.' !in ShowInt(n) && ',' !in ShowInt(n)
    ensures !StartsWith(ShowInt(n), "R$") && !StartsWith(ShowInt(n), "-R$")
  {
    var m: nat := if n < 0 then -n else n;
    var d := ShowNat(m);
    var s := ShowInt(n);
    DigitsExclude(d, 'R');
    DigitsExclude(d, '.');
    DigitsExclude(d, ',');
    if n < 0 {
      assert s == "-" + d;
      assert s[|s| - 1] == d[|d| - 1];
      assert s[1] == d[0];
      FirstCharDiffers(s, "R$");
      FirstCharDiffers(s[1..], "R$");
      MinusNotSign(s, d);
    } else {
      FirstCharDiffers(s, "R$");
      FirstCharDiffers(s, "-R$");
    }
  }

  lemma MinusNotSign(s: string, d: string)
    requires s == "-" + d && |d| > 0 && IsDigit(d[0])
    ensures !StartsWith(s, "-R$")
  {
    if |s| >= 3 {
      assert s[..3][1] == d[0];
    }
  }

  /** `float(str(n))` is `n`. */
  lemma IntTextFloat(n: int)
    ensures PyFloat(ShowInt(n)) == Some(n as real)
    ensures ParseOrZero(ShowInt(n)) == n as real
  {
    IntTextPlain(n);
    assert Strip(ShowInt(n)) == ShowInt(n);
    IntTextNumber(n);
  }

  lemma IntTextNumber(n: int)
    ensures ParseNumber(ShowInt(n)) == Some(n as real)
  {
    var m: nat := if n < 0 then -n else n;
    var d := ShowNat(m);
    ShowNatParses(m);
    if n < 0 {
      DigitsTrimmed(d);
      assert '.' !in d;
      assert IndexOf(d, '.') == |d| && d[..|d|] == d;
      assert ParseUnsigned(d) == Some(m as real);
      MinusNegates(d, m as real);
    }
  }

  /** Each cleaner leaves the text of an integer as it is and reads it back as that integer. */
  lemma IntCellAmounts(n: int)
    ensures BrlAmount(ShowInt(n)) == n as real
    ensures GdsAmount(ShowInt(n)) == n as real
    ensures C6PaymentAmount(ShowInt(n)) == n as real
  {
    var s := ShowInt(n);
    IntTextPlain(n);
    IntTextFloat(n);
    ReplaceAllAbsent(s, "R$", "");
    ReplaceAllAbsent(s, ".", "");
    ReplaceAllAbsent(s, ",", ".");
    CleanBrlStages(s, s, s, s);
    CleanGdsStages(s, s, s);
    C6PlainStages(s);
  }

  /** The C6 receivables cleaner on text without a sign prefix, '.' or ','. */
  lemma C6PlainStages(s: string)
    requires Trimmed(s) && s != [] && s != "-" && !StartsWith(s, "R$") && !StartsWith(s, "-R$")
    requires ReplaceAll(s, ".", "") == s && ReplaceAll(s, ",", ".") == s
    ensures CleanC6Payment(s) == s
  {
  }

  /** The generic cleaner also reads the text of an integer back as that integer. */
  lemma GenericIntCell(n: int)
    ensures GenericAmount(ShowInt(n)) == Some(n as real)
  {
    var s := ShowInt(n);
    IntTextPlain(n);
    IntTextFloat(n);
    ReplaceAllAbsent(s, "R$", "");
    ReplaceAllAbsent(s, ".", "");
    ReplaceAllAbsent(s, ",", ".");
    assert CleanGeneric(s) == s;
  }

  /** A blank value is 0 for the generic cleaner too. */
  lemma GenericBlankIsZero(s: string)
    requires Strip(s) == []
    ensures GenericAmount(s) == Some(0.0)
  {
    SpacesUntouched(s, "R$", "");
    SpacesUntouched(s, ".", "");
    SpacesUntouched(s, ",", ".");
    GenericStages(s, s);
    ZeroParses();
  }

  /** Replacing a pattern that starts with a visible character leaves blank text alone. */
  lemma SpacesUntouched(s: string, pat: string, rep: string)
    requires Strip(s) == [] && |pat| > 0 && !IsSpace(pat[0])
    ensures ReplaceAll(s, pat, rep) == s
  {
    assert pat[0] !in s;
    ReplaceAllAbsent(s, pat, rep);
  }

  /**
    The generic cleaner reads the Brazilian notation "R$", whitespace, then
    the digits with '.' thousands separators and a ',' before the cents, as
    `q + c/100`.
   */
  lemma GenericRoundTrip(q: nat, c: nat, gap: string)
    requires c < 100 && AllSpace(gap)
    ensures GenericAmount("R$" + gap + BrlDigits(q, c)) == Some(q as real + c as real / 100.0)
  {
    var d := BrlDigits(q, c);
    var e := CentsText(q, c);
    BrlDigitsPlain(q, c);
    DropSign(gap, d);
    assert '.' !in gap && ',' !in gap by {
      assert !IsSpace('.') && !IsSpace(',');
    }
    ReplaceCharConcat(gap, d, '.', "");
    ReplaceAllAbsent(gap, ".", "");
    var d1 := ReplaceAll(d, ".", "");
    ReplaceCharConcat(gap, d1, ',', ".");
    ReplaceAllAbsent(gap, ",", ".");
    BrlDigitsToCents(q, c);
    CentsFloat(q, c);
    StripGap(gap, e);
    GenericStages("R$" + gap + d, gap + e);
    CentsNumber(q, c);
  }

  lemma GenericStages(s: string, b: string)
    requires b == ReplaceAll(ReplaceAll(ReplaceAll(s, "R$", ""), ".", ""), ",", ".")
    ensures CleanGeneric(s) == ZeroIfEmpty(Strip(b))
  {
  }
  // ---------------------------------------------------------------------------
  // Text that is already an amount: the cleaners are not idempotent

  /**
    The cleaners that drop '.' treat every '.' as a thousands separator, so
    digits, '.' and digits clean to the digits alone: the text `str()` gives
    a float loses its decimal point.
   */
  lemma PointDropped(a: string, f: string)
    requires AllDigits(a) && AllDigits(f) && |a| > 0
    ensures CleanBrl(a + "." + f) == a + f
    ensures CleanC6Payment(a + "." + f) == a + f
    ensures CleanGeneric(a + "." + f) == a + f
  {
    var s := a + "." + f;
    var e := a + f;
    PointTrimmed(a, f);
    assert 'R' !in s by {
      DigitsExclude(a, 'R');
      DigitsExclude(f, 'R');
    }
    ReplaceAllAbsent(s, "R$", "");
    PointRemoved(a, f);
    DigitsExclude(a, ',');
    DigitsExclude(f, ',');
    ReplaceAllAbsent(e, ",", ".");
    assert Trimmed(e) by {
      assert e[0] == a[0];
      assert IsDigit(e[|e| - 1]);
    }
    CleanBrlStages(s, s, s, e);
    FirstCharDiffers(s, "-R$");
    FirstCharDiffers(s, "R$");
    assert s != "-" by {
      assert s[0] == a[0];
    }
    GenericStages(s, e);
  }

  /** Removing '.' from digits, '.' and digits leaves the digits. */
  lemma PointRemoved(a: string, f: string)
    requires AllDigits(a) && AllDigits(f)
    ensures ReplaceAll(a + "." + f, ".", "") == a + f
  {
    DigitsExclude(a, '.');
    DigitsExclude(f, '.');
    assert a + "." + f == a + ("." + f);
    ReplaceAfterAbsent(a, "." + f, ".", "");
    ReplaceAllLeading(".", f, "");
    ReplaceAllAbsent(f, ".", "");
    assert "" + f == f;
  }

  /** An amount whose text is digits, '.' and digits reads as the integer those digits spell without the '.'. */
  lemma PointTenfold(s: string, a: string, f: string, n: int)
    requires AllDigits(a) && AllDigits(f) && |a| > 0 && a + f == ShowInt(n) && s == a + "." + f
    ensures BrlAmount(s) == n as real
    ensures C6PaymentAmount(s) == n as real
    ensures GenericAmount(s) == Some(n as real)
  {
    PointDropped(a, f);
    IntTextFloat(n);
  }

  /** "15" and "5" spell 155. */
  lemma Text155()
    ensures "15" + "5" == ShowInt(155)
  {
    assert ShowNat(1) == "1";
    assert ShowNat(15) == "15";
    assert ShowNat(155) == "155";
  }

  /** Digits, '.' and digits read as that decimal under the GDS cleaner. */
  lemma GdsPointText(s: string, q: nat, f: string)
    requires AllDigits(f) && s == ShowNat(q) + "." + f
    ensures GdsAmount(s) == q as real + FractionValue(f)
  {
    var e: string := [];
    assert AllSpace(e);
    assert e + ShowNat(q) == ShowNat(q);
    assert s + e == s;
    GdsPointIsDecimal(q, f, e, e);
  }

  /**
    `replace('R$', '')` removes an "R$" wherever it stands, not only in
    front: digits, "R$" and digits clean to the digits run together.
   */
  lemma SignRemovedAnywhere(a: string, b: string)
    requires AllDigits(a) && AllDigits(b) && |a| > 0 && |b| > 0
    ensures CleanBrl(a + "R$" + b) == a + b
    ensures CleanGeneric(a + "R$" + b) == a + b
  {
    var s := a + "R$" + b;
    var e := a + b;
    SignBetweenDigits(a, b);
    DigitsRunTogether(a, b);
    CleanBrlStages(s, s, e, e);
    GenericStages(s, e);
  }

  /** The "R$" between two digit runs is the only thing `replace('R$', '')` removes. */
  lemma SignBetweenDigits(a: string, b: string)
    requires AllDigits(a) && AllDigits(b) && |a| > 0 && |b| > 0
    ensures ReplaceAll(a + "R$" + b, "R$", "") == a + b
    ensures Trimmed(a + "R$" + b)
  {
    DigitsExclude(a, 'R');
    DigitsExclude(b, 'R');
    RemovedBetween(a, b, "R$");
    EndsTrimmed(a, "R$", b);
  }

  lemma RemovedBetween(a: string, b: string, pat: string)
    requires |pat| > 0 && pat[0] !in a && pat[0] !in b
    ensures ReplaceAll(a + pat + b, pat, "") == a + b
  {
    ReplaceBetween(a, b, pat, "");
    assert a + "" + b == a + b;
  }

  /** A string that begins and ends with a digit is trimmed. */
  lemma EndsTrimmed(a: string, m: string, b: string)
    requires AllDigits(a) && AllDigits(b) && |a| > 0 && |b| > 0
    ensures Trimmed(a + m + b)
  {
    var s := a + m + b;
    assert s[0] == a[0];
    assert s[|s| - 1] == b[|b| - 1];
  }



  /** Two digit runs joined are trimmed and hold no '.' or ','. */
  lemma DigitsRunTogether(a: string, b: string)
    requires AllDigits(a) && AllDigits(b) && |a| > 0 && |b| > 0
    ensures Trimmed(a + b) && a + b != []
    ensures ReplaceAll(ReplaceAll(a + b, ".", ""), ",", ".") == a + b
  {
    var e := a + b;
    assert AllDigits(e);
    assert e[0] == a[0];
    DigitsExclude(e, '.');
    DigitsExclude(e, ',');
    ReplaceAllAbsent(e, ".", "");
    ReplaceAllAbsent(e, ",", ".");
  }
}
