/**
 * String helpers with the semantics the source relies on: case folding,
 * substring search, prefix tests, Python's `str.replace`/`str.strip`, and
 * decimal digit strings with their values.
 *
 * Case folding covers the ASCII letters only; the data (Korean store, product
 * and keyword names) has no other cased characters in practice.
 */
module Text {

  // ---------------------------------------------------------------------
  // Case folding

  function LowerChar(c: char): (r: char)
    ensures 'A' <= c <= 'Z' ==> r as int == c as int + 32
    ensures !('A' <= c <= 'Z') ==> r == c
  {
    if 'A' <= c <= 'Z' then (c as int + 32) as char else c
  }

  /** Python `str.lower()` / JavaScript `toLowerCase()`, restricted to ASCII. */
  function Lower(s: string): (r: string)
    ensures |r| == |s|
    ensures forall i :: 0 <= i < |s| ==> r[i] == LowerChar(s[i])
  {
    if |s| == 0 then [] else Lower(s[..|s| - 1]) + [LowerChar(s[|s| - 1])]
  }

  function UpperChar(c: char): (r: char)
    ensures 'a' <= c <= 'z' ==> r as int == c as int - 32
    ensures !('a' <= c <= 'z') ==> r == c
  {
    if 'a' <= c <= 'z' then (c as int - 32) as char else c
  }

  /** Python `str.upper()`, restricted to ASCII. */
  function Upper(s: string): (r: string)
    ensures |r| == |s|
    ensures forall i :: 0 <= i < |s| ==> r[i] == UpperChar(s[i])
  {
    if |s| == 0 then [] else Upper(s[..|s| - 1]) + [UpperChar(s[|s| - 1])]
  }

  /** Lower-casing forgets whether the text was upper-cased first. */
  lemma LowerUpper(s: string)
    ensures Lower(Upper(s)) == Lower(s)
  {
    assert forall i :: 0 <= i < |s| ==> LowerChar(UpperChar(s[i])) == LowerChar(s[i]);
  }

  /** Lower-casing twice is lower-casing once. */
  lemma LowerIdempotent(s: string)
    ensures Lower(Lower(s)) == Lower(s)
  {}

  // ---------------------------------------------------------------------
  // Prefixes and substrings

  /** JavaScript `startsWith` / Python `startswith`. */
  predicate StartsWith(s: string, prefix: string) {
    |prefix| <= |s| && s[..|prefix|] == prefix
  }

  /** `needle` occurs in `hay` (Python `in`, JavaScript `includes`). */
  predicate Contains(hay: string, needle: string)
    decreases |hay|
  {
    StartsWith(hay, needle) || (|hay| > 0 && Contains(hay[1..], needle))
  }

  /** `needle` starts at position `i` of `hay`. */
  predicate OccursAt(hay: string, needle: string, i: int) {
    0 <= i <= |hay| - |needle| && hay[i..i + |needle|] == needle
  }

  /** Substring search agrees with "there is a position where `needle` starts". */
  lemma {:induction false} ContainsAt(hay: string, needle: string)
    ensures Contains(hay, needle) <==> exists i :: OccursAt(hay, needle, i)
    decreases |hay|
  {
    if StartsWith(hay, needle) {
      assert OccursAt(hay, needle, 0);
    } else if |hay| > 0 {
      ContainsAt(hay[1..], needle);
      if Contains(hay[1..], needle) {
        var i :| OccursAt(hay[1..], needle, i);
        assert hay[1..][i..i + |needle|] == hay[i + 1..i + 1 + |needle|];
        assert OccursAt(hay, needle, i + 1);
      }
      if exists i :: OccursAt(hay, needle, i) {
        var i :| OccursAt(hay, needle, i);
        assert i != 0;
        assert hay[1..][i - 1..i - 1 + |needle|] == hay[i..i + |needle|];
        assert OccursAt(hay[1..], needle, i - 1);
      }
    }
  }

  /** The empty string occurs in every string. */
  lemma ContainsEmpty(hay: string)
    ensures Contains(hay, "")
  {}

  /** Whatever occurs in a string occurs in any extension of it. */
  lemma ContainsExtend(hay: string, needle: string, suffix: string)
    requires Contains(hay, needle)
    ensures Contains(hay + suffix, needle)
  {
    ContainsAt(hay, needle);
    var i :| OccursAt(hay, needle, i);
    assert (hay + suffix)[i..i + |needle|] == needle;
    assert OccursAt(hay + suffix, needle, i);
    ContainsAt(hay + suffix, needle);
  }

  // ---------------------------------------------------------------------
  // Replacement and stripping

  /** Python `s.replace(pat, rep)` for a non-empty `pat`: left to right, non-overlapping. */
  function Replace(s: string, pat: string, rep: string): string
    requires |pat| > 0
    decreases |s|
  {
    if |s| == 0 then []
    else if StartsWith(s, pat) then rep + Replace(s[|pat|..], pat, rep)
    else [s[0]] + Replace(s[1..], pat, rep)
  }

  /** Replacing one character by a string free of it leaves none of it behind. */
  lemma {:induction false} ReplaceCharRemovesIt(s: string, c: char, rep: string)
    requires c !in rep
    ensures c !in Replace(s, [c], rep)
    decreases |s|
  {
    if |s| > 0 {
      ReplaceCharRemovesIt(s[1..], c, rep);
    }
  }

  /** Replacement never introduces a character absent from `s` and `rep`. */
  lemma {:induction false} ReplaceKeepsAbsent(s: string, pat: string, rep: string, c: char)
    requires |pat| > 0
    requires c !in s && c !in rep
    ensures c !in Replace(s, pat, rep)
    decreases |s|
  {
    if |s| > 0 {
      if StartsWith(s, pat) {
        ReplaceKeepsAbsent(s[|pat|..], pat, rep, c);
      } else {
        ReplaceKeepsAbsent(s[1..], pat, rep, c);
      }
    }
  }

  /** Replacement changes nothing when `pat` does not occur. */
  lemma {:induction false} ReplaceAbsent(s: string, pat: string, rep: string)
    requires |pat| > 0
    requires !Contains(s, pat)
    ensures Replace(s, pat, rep) == s
    decreases |s|
  {
    if |s| > 0 {
      ReplaceAbsent(s[1..], pat, rep);
      assert s == [s[0]] + s[1..];
    }
  }

  /** Python `str.isspace()` for one character (the Unicode whitespace set). */
  predicate IsSpace(c: char) {
    || c == ' ' || ('\t' <= c <= '\r') || ('\U{001c}' <= c <= '\U{001f}')
    || c == '\U{0085}' || c == '\U{00a0}' || c == '\U{1680}' || ('\U{2000}' <= c <= '\U{200a}')
    || c == '\U{2028}' || c == '\U{2029}' || c == '\U{202f}' || c == '\U{205f}' || c == '\U{3000}'
  }

  function StripLeft(s: string): (r: string)
    ensures |r| == 0 || !IsSpace(r[0])
    ensures |r| <= |s| && s[|s| - |r|..] == r
    ensures forall i :: 0 <= i < |s| - |r| ==> IsSpace(s[i])
  {
    if |s| > 0 && IsSpace(s[0]) then StripLeft(s[1..]) else s
  }

  function StripRight(s: string): (r: string)
    ensures |r| == 0 || !IsSpace(r[|r| - 1])
    ensures |r| <= |s| && s[..|r|] == r
    ensures forall i :: |r| <= i < |s| ==> IsSpace(s[i])
  {
    if |s| > 0 && IsSpace(s[|s| - 1]) then StripRight(s[..|s| - 1]) else s
  }

  /** Python `str.strip()` with no argument. */
  function Strip(s: string): (r: string)
    ensures |r| == 0 || (!IsSpace(r[0]) && !IsSpace(r[|r| - 1]))
  {
    StripRight(StripLeft(s))
  }

  /** Python `s.lstrip(c)`: drops every leading `c`. */
  function LStripChar(s: string, c: char): (r: string)
    ensures |r| == 0 || r[0] != c
    ensures |r| <= |s| && s[|s| - |r|..] == r
    ensures forall i :: 0 <= i < |s| - |r| ==> s[i] == c
  {
    if |s| > 0 && s[0] == c then LStripChar(s[1..], c) else s
  }

  // ---------------------------------------------------------------------
  // Decimal digits

  predicate IsDigit(c: char) {
    '0' <= c <= '9'
  }

  predicate AllDigits(s: string) {
    forall i :: 0 <= i < |s| ==> IsDigit(s[i])
  }

  function DigitValue(c: char): nat
    requires IsDigit(c)
  {
    c as int - '0' as int
  }

  function DigitChar(d: nat): (c: char)
    requires d < 10
    ensures IsDigit(c) && DigitValue(c) == d
  {
    ('0' as int + d) as char
  }

  /** The value of a string of decimal digits (leading zeros allowed). */
  function DigitsValue(s: string): nat
    requires AllDigits(s)
  {
    if |s| == 0 then 0 else DigitsValue(s[..|s| - 1]) * 10 + DigitValue(s[|s| - 1])
  }

  lemma DigitsValueSnoc(s: string, c: char)
    requires AllDigits(s) && IsDigit(c)
    ensures AllDigits(s + [c])
    ensures DigitsValue(s + [c]) == DigitsValue(s) * 10 + DigitValue(c)
  {
    assert (s + [c])[..|s|] == s;
  }

  /** Decimal rendering without leading zeros (Python `str(n)` for n >= 0). */
  function NatToString(n: nat): (r: string)
    ensures |r| > 0 && AllDigits(r) && DigitsValue(r) == n
    ensures |r| > 1 ==> r[0] != '0'
  {
    if n < 10 then [DigitChar(n)]
    else
      var prefix := NatToString(n / 10);
      DigitsValueSnoc(prefix, DigitChar(n % 10));
      prefix + [DigitChar(n % 10)]
  }

  function Zeros(k: nat): (r: string)
    ensures |r| == k && AllDigits(r) && DigitsValue(r) == 0
  {
    if k == 0 then []
    else
      DigitsValueSnoc(Zeros(k - 1), '0');
      Zeros(k - 1) + ['0']
  }

  /** Leading zeros do not change a digit string's value. */
  lemma {:induction false} DigitsValueLeadingZeros(k: nat, s: string)
    requires AllDigits(s)
    ensures AllDigits(Zeros(k) + s)
    ensures DigitsValue(Zeros(k) + s) == DigitsValue(s)
    decreases |s|
  {
    if |s| > 0 {
      var init := s[..|s| - 1];
      DigitsValueLeadingZeros(k, init);
      assert Zeros(k) + s == (Zeros(k) + init) + [s[|s| - 1]];
      DigitsValueSnoc(Zeros(k) + init, s[|s| - 1]);
    } else {
      assert Zeros(k) + s == Zeros(k);
    }
  }

  /** Python `format(n, "0wd")` for n >= 0: zero-padded to at least `width` digits. */
  function Pad(n: nat, width: nat): (r: string)
    ensures AllDigits(r) && DigitsValue(r) == n
    ensures |r| == if |NatToString(n)| >= width then |NatToString(n)| else width
  {
    var s := NatToString(n);
    if |s| >= width then s
    else
      DigitsValueLeadingZeros(width - |s|, s);
      Zeros(width - |s|) + s
  }

  /** Python `str(i)` / JavaScript `String(i)` for any integer. */
  function IntToString(i: int): (r: string)
    ensures |r| > 0
    ensures i >= 0 ==> r == NatToString(i)
    ensures i < 0 ==> r == "-" + NatToString(-i)
  {
    if i >= 0 then NatToString(i) else "-" + NatToString(-i)
  }

  function Pow10(k: nat): (r: nat)
    ensures r >= 1
  {
    if k == 0 then 1 else 10 * Pow10(k - 1)
  }

  lemma MulTen(x: int, p: int)
    ensures x * (p * 10) == (x * p) * 10
  {}

  /** The value of a concatenation of digit strings. */
  lemma {:induction false} DigitsValueConcat(a: string, b: string)
    requires AllDigits(a) && AllDigits(b)
    ensures AllDigits(a + b)
    ensures DigitsValue(a + b) == DigitsValue(a) * Pow10(|b|) + DigitsValue(b)
    decreases |b|
  {
    if |b| == 0 {
      assert a + b == a;
    } else {
      var init, last := b[..|b| - 1], b[|b| - 1];
      DigitsValueConcat(a, init);
      assert a + b == (a + init) + [last];
      DigitsValueSnoc(a + init, last);
      assert b == init + [last];
      DigitsValueSnoc(init, last);
      var x, p := DigitsValue(a), Pow10(|init|);
      assert Pow10(|b|) == p * 10;
      MulTen(x, p);
    }
  }

  /** A number below 10^k needs at most k digits (and always one). */
  lemma {:induction false} NatToStringLength(n: nat, k: nat)
    requires n < Pow10(k) && k >= 1
    ensures |NatToString(n)| <= k
  {
    if n >= 10 {
      NatToStringLength(n / 10, k - 1);
    }
  }

  /** Two digit strings of equal length and value are equal. */
  lemma {:induction false} DigitsValueInjective(a: string, b: string)
    requires AllDigits(a) && AllDigits(b) && |a| == |b|
    requires DigitsValue(a) == DigitsValue(b)
    ensures a == b
    decreases |a|
  {
    if |a| > 0 {
      var ia, ib := a[..|a| - 1], b[..|b| - 1];
      assert DigitValue(a[|a| - 1]) == DigitValue(b[|b| - 1]);
      DigitsValueInjective(ia, ib);
      assert a == ia + [a[|a| - 1]] && b == ib + [b[|b| - 1]];
    }
  }

  /** Two-digit zero padding of 0..99 has exactly two digits. */
  lemma PadTwo(n: nat)
    requires n < 100
    ensures |Pad(n, 2)| == 2
  {
    NatToStringLength(n, 2);
  }

  /** Four-digit zero padding of 0..9999 has exactly four digits. */
  lemma PadFour(n: nat)
    requires n < 10000
    ensures |Pad(n, 4)| == 4
  {
    NatToStringLength(n, 4);
  }

  /** Replacing a single character distributes over concatenation. */
  lemma {:induction false} ReplaceCharConcat(a: string, b: string, c: char, rep: string)
    ensures Replace(a + b, [c], rep) == Replace(a, [c], rep) + Replace(b, [c], rep)
    decreases |a|
  {
    if |a| > 0 {
      ReplaceCharConcat(a[1..], b, c, rep);
      assert (a + b)[1..] == a[1..] + b;
      assert StartsWith(a + b, [c]) == StartsWith(a, [c]);
    } else {
      assert a + b == b;
    }
  }

  /** Replacing a character that does not occur changes nothing. */
  lemma {:induction false} ReplaceCharAbsent(s: string, c: char, rep: string)
    requires c !in s
    ensures Replace(s, [c], rep) == s
    decreases |s|
  {
    if |s| > 0 {
      ReplaceCharAbsent(s[1..], c, rep);
      assert s == [s[0]] + s[1..];
    }
  }

  /** Searching for one character is membership. */
  lemma ContainsChar(s: string, c: char)
    ensures Contains(s, [c]) <==> c in s
  {
    ContainsAt(s, [c]);
    if c in s {
      var i :| 0 <= i < |s| && s[i] == c;
      assert OccursAt(s, [c], i);
    }
    if Contains(s, [c]) {
      var i :| OccursAt(s, [c], i);
      assert s[i] == s[i..i + 1][0] == c;
    }
  }

  /** Stripping keeps every character that is not whitespace. */
  lemma StripKeeps(s: string, c: char)
    requires c in s && !IsSpace(c)
    ensures c in Strip(s)
  {
    var l := StripLeft(s);
    var i :| 0 <= i < |s| && s[i] == c;
    assert i >= |s| - |l|;
    assert l[i - (|s| - |l|)] == c;
    var r := StripRight(l);
    assert i - (|s| - |l|) < |r|;
    assert r[i - (|s| - |l|)] == c;
  }

  /** Stripping never brings in a character. */
  lemma StripFrom(s: string, c: char)
    requires c !in s
    ensures c !in Strip(s)
  {
    var l := StripLeft(s);
    assert forall i :: 0 <= i < |l| ==> l[i] == s[|s| - |l| + i];
  }

  /** What `Strip` keeps is one slice of the text, with only whitespace around it. */
  lemma StripBounds(s: string) returns (k: nat, n: nat)
    ensures k <= n <= |s| && Strip(s) == s[k..n]
    ensures forall i :: 0 <= i < k ==> IsSpace(s[i])
    ensures forall i :: n <= i < |s| ==> IsSpace(s[i])
  {
    var l := StripLeft(s);
    var r := StripRight(l);
    k := |s| - |l|;
    n := k + |r|;
    assert l == s[k..];
    assert r == l[..|r|] == s[k..n];
    forall i | n <= i < |s| ensures IsSpace(s[i]) {
      assert s[i] == l[i - k];
    }
  }

  /** Stripping leaves a string with no outer whitespace unchanged. */
  lemma StripNoSpace(s: string)
    requires |s| > 0 && !IsSpace(s[0]) && !IsSpace(s[|s| - 1])
    ensures Strip(s) == s
  {}

  /** A number of at least 10^k needs more than k digits. */
  lemma {:induction false} NatToStringLengthLower(n: nat, k: nat)
    requires n >= Pow10(k)
    ensures |NatToString(n)| > k
  {
    if k > 0 {
      NatToStringLengthLower(n / 10, k - 1);
    }
  }

  /** The value of a digit string is below 10^length. */
  lemma {:induction false} DigitsBound(s: string)
    requires AllDigits(s)
    ensures DigitsValue(s) < Pow10(|s|)
  {
    if |s| > 0 {
      DigitsBound(s[..|s| - 1]);
    }
  }
}

