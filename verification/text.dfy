/**
  Python `str` operations the source relies on, written out over `seq<char>`:
  `strip()`, `replace(pat, rep)`, `in`, `startswith`, `lower()`, `split(':', 1)`,
  plus decimal digit strings.
 */
module Text {

  /** Python `str.isspace()` on one character: the Unicode whitespace code points. */
  predicate IsSpace(c: char) {
    || ('\t' <= c <= '\r')
    || ('\U{1C}' <= c <= ' ')
    || c == '\U{85}' || c == '\U{A0}' || c == '\U{1680}'
    || ('\U{2000}' <= c <= '\U{200A}')
    || c == '\U{2028}' || c == '\U{2029}' || c == '\U{202F}' || c == '\U{205F}' || c == '\U{3000}'
  }

  /** Neither end of `s` is whitespace (so `strip()` leaves it alone). */
  predicate Trimmed(s: string) {
    |s| == 0 || (!IsSpace(s[0]) && !IsSpace(s[|s| - 1]))
  }

  function StripLeft(s: string): (r: string)
    ensures |r| <= |s| && r == s[|s| - |r|..]
    ensures |r| > 0 ==> !IsSpace(r[0])
    ensures forall i :: 0 <= i < |s| - |r| ==> IsSpace(s[i])
    decreases |s|
  {
    if |s| > 0 && IsSpace(s[0]) then StripLeft(s[1..]) else s
  }

  function StripRight(s: string): (r: string)
    ensures |r| <= |s| && r == s[..|r|]
    ensures |r| > 0 ==> !IsSpace(r[|r| - 1])
    ensures forall i :: |r| <= i < |s| ==> IsSpace(s[i])
    decreases |s|
  {
    if |s| > 0 && IsSpace(s[|s| - 1]) then StripRight(s[..|s| - 1]) else s
  }

  /** Python `s.strip()`: drop leading and trailing whitespace. */
  function Strip(s: string): (r: string)
    ensures |r| <= |s|
    ensures Trimmed(r)
    ensures Trimmed(s) ==> r == s
    ensures r == [] <==> forall i :: 0 <= i < |s| ==> IsSpace(s[i])
    ensures forall c :: c !in s ==> c !in r
  {
    var l := StripLeft(s);
    StripFacts(s, l, StripRight(l));
    StripRight(l)
  }

  lemma StripFacts(s: string, l: string, r: string)
    requires l == StripLeft(s) && r == StripRight(l)
    ensures Trimmed(r)
    ensures Trimmed(s) ==> r == s
    ensures r == [] <==> forall i :: 0 <= i < |s| ==> IsSpace(s[i])
    ensures forall c :: c !in s ==> c !in r
  {
    StripKeeps(s, l, r);
    if |r| > 0 {
      assert r[0] == l[0];
    }
    if Trimmed(s) && |s| > 0 {
      assert |l| == |s|;
      assert |r| == |l|;
    }
    if r == [] {
      assert |l| == 0;
    }
  }

  /** Every character of `g` is whitespace. */
  predicate AllSpace(g: string) {
    forall i :: 0 <= i < |g| ==> IsSpace(g[i])
  }

  lemma {:induction false} StripLeftSpaces(g: string, t: string)
    requires AllSpace(g) && (|t| == 0 || !IsSpace(t[0]))
    ensures StripLeft(g + t) == t
    decreases |g|
  {
    if |g| > 0 {
      assert (g + t)[1..] == g[1..] + t;
      StripLeftSpaces(g[1..], t);
    } else {
      assert g + t == t;
    }
  }

  lemma {:induction false} StripRightSpaces(t: string, g: string)
    requires AllSpace(g) && (|t| == 0 || !IsSpace(t[|t| - 1]))
    ensures StripRight(t + g) == t
    decreases |g|
  {
    if |g| > 0 {
      assert (t + g)[..|t + g| - 1] == t + g[..|g| - 1];
      StripRightSpaces(t, g[..|g| - 1]);
    } else {
      assert t + g == t;
    }
  }

  /** Whitespace on either side of a trimmed string is exactly what `strip()` removes. */
  lemma StripAround(g1: string, s: string, g2: string)
    requires AllSpace(g1) && AllSpace(g2) && Trimmed(s)
    ensures Strip(g1 + s + g2) == s
  {
    if |s| > 0 {
      assert g1 + s + g2 == g1 + (s + g2);
      StripLeftSpaces(g1, s + g2);
      StripRightSpaces(s, g2);
    } else {
      assert g1 + s + g2 == g1 + g2;
      assert AllSpace(g1 + g2);
    }
  }

  lemma StripKeeps(s: string, l: string, r: string)
    requires l == StripLeft(s) && r == StripRight(l)
    ensures forall c :: c !in s ==> c !in r
  {
    assert r == s[|s| - |l|..][..|r|];
  }

  /** Stripping a single leading whitespace character in front of a trimmed string. */
  lemma StripSpacePrefix(c: char, s: string)
    requires IsSpace(c) && Trimmed(s)
    ensures Strip([c] + s) == s
  {
    var t := [c] + s;
    assert StripLeft(t) == StripLeft(s);
    assert StripLeft(s) == s;
  }

  /** Python `s.startswith(p)`. */
  predicate StartsWith(s: string, p: string) {
    |p| <= |s| && s[..|p|] == p
  }

  /** Strings whose first characters differ do not start one with the other. */
  lemma FirstCharDiffers(s: string, p: string)
    requires |s| > 0 && |p| > 0 && s[0] != p[0]
    ensures !StartsWith(s, p)
  {
    if |p| <= |s| {
      assert s[..|p|][0] == s[0];
    }
  }

  /** Python `p in s` (substring test); the empty string occurs everywhere. */
  predicate Contains(s: string, p: string)
    decreases |s|
  {
    StartsWith(s, p) || (|s| > 0 && Contains(s[1..], p))
  }

  /** A substring that starts with a character `s` never holds does not occur in `s`. */
  lemma {:induction false} NotContainsFirst(s: string, p: string)
    requires |p| > 0 && p[0] !in s
    ensures !Contains(s, p)
    decreases |s|
  {
    if |s| > 0 {
      assert s[0] != p[0];
      assert p[0] !in s[1..];
      NotContainsFirst(s[1..], p);
    }
  }

  /** `p` does not occur in `a + b` when `a` never holds its first character and `b` is shorter than it. */
  lemma {:induction false} NotContainsBefore(a: string, b: string, p: string)
    requires |b| < |p| && p[0] !in a
    ensures !Contains(a + b, p)
    decreases |a|
  {
    if |a| > 0 {
      assert (a + b)[1..] == a[1..] + b;
      FirstCharDiffers(a + b, p);
      NotContainsBefore(a[1..], b, p);
    } else {
      assert a + b == b;
      ShortNotContains(b, p);
    }
  }

  /** A text shorter than `p` does not contain it. */
  lemma {:induction false} ShortNotContains(s: string, p: string)
    requires |s| < |p|
    ensures !Contains(s, p)
    decreases |s|
  {
    if |s| > 0 {
      ShortNotContains(s[1..], p);
    }
  }

  /**
    Python `s.replace(pat, rep)`: every non-overlapping occurrence of `pat`,
    scanning from the left, is replaced by `rep`. With an empty `pat`, Python
    inserts `rep` before every character and at the end.
   */
  function ReplaceAll(s: string, pat: string, rep: string): (r: string)
    decreases |s|
  {
    if |pat| == 0 then
      if |s| == 0 then rep else rep + [s[0]] + ReplaceAll(s[1..], pat, rep)
    else if |s| == 0 then []
    else if StartsWith(s, pat) then rep + ReplaceAll(s[|pat|..], pat, rep)
    else [s[0]] + ReplaceAll(s[1..], pat, rep)
  }

  /** A string in which `pat` cannot start anywhere is left as it is. */
  lemma {:induction false} ReplaceAllAbsent(s: string, pat: string, rep: string)
    requires |pat| > 0 && pat[0] !in s
    ensures ReplaceAll(s, pat, rep) == s
    decreases |s|
  {
    if |s| > 0 {
      assert s[0] != pat[0];
      assert pat[0] !in s[1..];
      ReplaceAllAbsent(s[1..], pat, rep);
    }
  }

  /** Replacing a one-character pattern distributes over concatenation. */
  lemma {:induction false} ReplaceCharConcat(a: string, b: string, c: char, rep: string)
    ensures ReplaceAll(a + b, [c], rep) == ReplaceAll(a, [c], rep) + ReplaceAll(b, [c], rep)
    decreases |a|
  {
    if |a| > 0 {
      assert (a + b)[1..] == a[1..] + b;
      assert (a + b)[0] == a[0];
      ReplaceCharConcat(a[1..], b, c, rep);
    } else {
      assert a + b == b;
    }
  }

  /** Replacing a one-character pattern maps each character on its own. */
  lemma {:induction false} ReplaceCharPointwise(s: string, c: char, d: char)
    ensures |ReplaceAll(s, [c], [d])| == |s|
    ensures forall i :: 0 <= i < |s| ==>
      ReplaceAll(s, [c], [d])[i] == (if s[i] == c then d else s[i])
    decreases |s|
  {
    if |s| > 0 {
      ReplaceCharPointwise(s[1..], c, d);
      assert StartsWith(s, [c]) <==> s[0] == c;
    }
  }

  /** Removing a one-character pattern leaves none of it behind. */
  lemma {:induction false} RemoveCharGone(s: string, c: char)
    ensures c !in ReplaceAll(s, [c], [])
    ensures |ReplaceAll(s, [c], [])| <= |s|
    decreases |s|
  {
    if |s| > 0 {
      RemoveCharGone(s[1..], c);
      assert StartsWith(s, [c]) <==> s[0] == c;
    }
  }

  /** A string that begins with the pattern has that occurrence replaced first. */
  lemma ReplaceAllLeading(pat: string, rest: string, rep: string)
    requires |pat| > 0
    ensures ReplaceAll(pat + rest, pat, rep) == rep + ReplaceAll(rest, pat, rep)
  {
    var s := pat + rest;
    assert s[..|pat|] == pat;
    assert s[|pat|..] == rest;
  }

  /** A prefix in which `pat` cannot start passes through the replacement unchanged. */
  lemma {:induction false} ReplaceAfterAbsent(a: string, b: string, pat: string, rep: string)
    requires |pat| > 0 && pat[0] !in a
    ensures ReplaceAll(a + b, pat, rep) == a + ReplaceAll(b, pat, rep)
    decreases |a|
  {
    if |a| > 0 {
      assert (a + b)[1..] == a[1..] + b;
      assert (a + b)[0] == a[0];
      FirstCharDiffers(a + b, pat);
      ReplaceAfterAbsent(a[1..], b, pat, rep);
      assert a == [a[0]] + a[1..];
    } else {
      assert a + b == b;
    }
  }

  /** An occurrence of `pat` between two strings in which it cannot start is the only one replaced. */
  lemma ReplaceBetween(a: string, b: string, pat: string, rep: string)
    requires |pat| > 0 && pat[0] !in a && pat[0] !in b
    ensures ReplaceAll(a + pat + b, pat, rep) == a + rep + b
  {
    assert a + pat + b == a + (pat + b);
    ReplaceAfterAbsent(a, pat + b, pat, rep);
    ReplaceAllLeading(pat, b, rep);
    ReplaceAllAbsent(b, pat, rep);
  }

  /** The first index of `c` in `s`, or `|s|` when `c` does not occur (Python `find`, with `|s|` for -1). */
  function IndexOf(s: string, c: char): (i: nat)
    ensures i <= |s|
    ensures i < |s| ==> s[i] == c
    ensures forall j :: 0 <= j < i ==> s[j] != c
    ensures i == |s| <==> c !in s
    decreases |s|
  {
    if |s| == 0 then 0
    else if s[0] == c then 0
    else 1 + IndexOf(s[1..], c)
  }

  /** In `a + [c] + b` with no `c` in `a`, the first `c` is the separator. */
  lemma IndexOfSeparator(a: string, c: char, b: string)
    requires c !in a
    ensures IndexOf(a + [c] + b, c) == |a|
  {
    var s := a + [c] + b;
    assert s[|a|] == c;
    assert forall j :: 0 <= j < |a| ==> s[j] == a[j];
  }

  /** ASCII case mapping, the part of Python `str.lower()` the column keywords can meet. */
  function LowerChar(c: char): char {
    if 'A' <= c <= 'Z' then (c as int - 'A' as int + 'a' as int) as char else c
  }

  function Lower(s: string): (r: string)
    ensures |r| == |s|
    ensures forall i :: 0 <= i < |s| ==> r[i] == LowerChar(s[i])
  {
    seq(|s|, i requires 0 <= i < |s| => LowerChar(s[i]))
  }

  /** A string whose characters are all lower case is its own lower-cased form. */
  lemma LowerOfLower(s: string)
    requires forall i :: 0 <= i < |s| ==> !('A' <= s[i] <= 'Z')
    ensures Lower(s) == s
  {
  }

  // ---------------------------------------------------------------------------
  // Decimal digits

  predicate IsDigit(c: char) {
    '0' <= c <= '9'
  }

  predicate AllDigits(s: string) {
    forall i :: 0 <= i < |s| ==> IsDigit(s[i])
  }

  function DigitChar(d: nat): (c: char)
    requires d < 10
    ensures IsDigit(c)
  {
    ('0' as int + d) as char
  }

  /** The value of a string of decimal digits, most significant first (`int(s)` for ASCII digits). */
  function DigitsValue(s: string): nat
    requires AllDigits(s)
    decreases |s|
  {
    if |s| == 0 then 0
    else DigitsValue(s[..|s| - 1]) * 10 + (s[|s| - 1] as int - '0' as int)
  }

  /** Python `str(n)` for a non-negative integer. */
  function ShowNat(n: nat): (r: string)
    ensures |r| > 0 && AllDigits(r)
    ensures DigitsValue(r) == n
    ensures r[0] == '0' ==> n == 0
  {
    if n < 10 then [DigitChar(n)]
    else
      var r := ShowNat(n / 10) + [DigitChar(n % 10)];
      assert r[..|r| - 1] == ShowNat(n / 10);
      r
  }

  /** Python `str(i)` for any integer. */
  function ShowInt(i: int): (r: string)
    ensures |r| > 0
    ensures i >= 0 ==> r == ShowNat(i)
    ensures i < 0 ==> r == "-" + ShowNat(-i)
  {
    if i < 0 then "-" + ShowNat(-i) else ShowNat(i)
  }

  /** `n` written with exactly `width` digits, zero-padded on the left (`f"{n:0{width}d}"` when it fits). */
  function PadDigits(n: nat, width: nat): (r: string)
    ensures |r| == width && AllDigits(r)
    ensures n < Pow10(width) ==> DigitsValue(r) == n
    decreases width
  {
    if width == 0 then []
    else
      var r := PadDigits(n / 10, width - 1) + [DigitChar(n % 10)];
      assert r[..|r| - 1] == PadDigits(n / 10, width - 1);
      r
  }

  function Pow10(k: nat): (r: nat)
    ensures r >= 1
  {
    if k == 0 then 1 else 10 * Pow10(k - 1)
  }

  /** Digits are not whitespace, so a digit string is already trimmed. */
  lemma DigitsTrimmed(s: string)
    requires AllDigits(s)
    ensures Trimmed(s)
  {
  }

  /** Digit strings contain no other character. */
  lemma DigitsExclude(s: string, c: char)
    requires AllDigits(s) && !IsDigit(c)
    ensures c !in s
  {
  }
}
