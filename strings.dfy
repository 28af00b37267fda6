/**
 * The parts of Python's `str` that the pipeline relies on: substring search
 * (`in`, `find`, `split`), `endswith`, `replace(pat, "")`, `strip()`,
 * `int(s)`, `str(n)` and the code-point order used by `<` and by SQLite's
 * BINARY collation.
 */
module Strings {
  import opened Common

  // ---------------------------------------------------------------------------
  // Characters

  predicate IsDigit(c: char) { '0' <= c <= '9' }

  function DigitValue(c: char): (v: nat)
    requires IsDigit(c)
    ensures v < 10
  {
    (c as int) - ('0' as int)
  }

  function DigitChar(d: nat): (c: char)
    requires d < 10
    ensures IsDigit(c) && DigitValue(c) == d
  {
    (d + '0' as int) as char
  }

  predicate AllDigits(s: string) { forall i :: 0 <= i < |s| ==> IsDigit(s[i]) }

  /** Python's `str.isspace()` for one character: the complete list of code points. */
  predicate IsSpace(c: char) {
    ('\t' <= c <= '\r') || ('\U{001C}' <= c <= ' ') ||
    c == '\U{0085}' || c == '\U{00A0}' || c == '\U{1680}' ||
    ('\U{2000}' <= c <= '\U{200A}') || c == '\U{2028}' || c == '\U{2029}' ||
    c == '\U{202F}' || c == '\U{205F}' || c == '\U{3000}'
  }

  predicate AllSpace(s: string) { forall i :: 0 <= i < |s| ==> IsSpace(s[i]) }

  // ---------------------------------------------------------------------------
  // Substrings

  /** `pat` occurs in `s` starting at index `k`. */
  predicate OccursAt(s: string, pat: string, k: int) {
    0 <= k && k + |pat| <= |s| && s[k..k + |pat|] == pat
  }

  /** Leftmost occurrence of `pat` in `s` at or after index `from`. */
  function FindFrom(s: string, pat: string, from: nat): (r: Option<nat>)
    requires from <= |s|
    ensures r.Some? ==> from <= r.value && OccursAt(s, pat, r.value)
    ensures r.Some? ==> forall k :: from <= k < r.value ==> !OccursAt(s, pat, k)
    ensures r.None? ==> forall k :: from <= k ==> !OccursAt(s, pat, k)
    decreases |s| - from
  {
    if from + |pat| > |s| then None
    else if s[from..from + |pat|] == pat then Some(from)
    else FindFrom(s, pat, from + 1)
  }

  /** `s.find(pat)`, with None for -1. */
  function Find(s: string, pat: string): (r: Option<nat>)
    ensures r.Some? ==> OccursAt(s, pat, r.value)
    ensures r.Some? ==> forall k :: 0 <= k < r.value ==> !OccursAt(s, pat, k)
    ensures r.None? ==> forall k :: !OccursAt(s, pat, k)
  {
    FindFrom(s, pat, 0)
  }

  /** Python's `pat in s`. */
  predicate Contains(s: string, pat: string) { Find(s, pat).Some? }

  lemma ContainsIff(s: string, pat: string)
    ensures Contains(s, pat) <==> exists k :: OccursAt(s, pat, k)
  {
    if Contains(s, pat) {
      assert OccursAt(s, pat, Find(s, pat).value);
    }
  }

  /** A leftmost occurrence determines `Find`. */
  lemma FindIs(s: string, pat: string, k: nat)
    requires OccursAt(s, pat, k)
    requires forall j :: 0 <= j < k ==> !OccursAt(s, pat, j)
    ensures Find(s, pat) == Some(k)
  {
  }

  lemma FindFromIs(s: string, pat: string, from: nat, k: nat)
    requires from <= k && OccursAt(s, pat, k)
    requires forall j :: from <= j < k ==> !OccursAt(s, pat, j)
    ensures FindFrom(s, pat, from) == Some(k)
  {
  }

  /** An occurrence inside a slice is an occurrence in the whole string. */
  lemma OccursInSlice(s: string, i: nat, j: nat, pat: string, k: int)
    requires i <= j <= |s|
    requires OccursAt(s[i..j], pat, k)
    ensures OccursAt(s, pat, i + k)
  {
    var t := s[i..j];
    assert forall m :: 0 <= m < |pat| ==> s[i + k + m] == t[k + m] == pat[m];
    assert s[i + k..i + k + |pat|] == pat;
  }

  /** An occurrence lying inside a slice is an occurrence in the slice. */
  lemma OccursInWhole(s: string, i: nat, j: nat, pat: string, k: int)
    requires i <= k && k + |pat| <= j <= |s| && OccursAt(s, pat, k)
    ensures OccursAt(s[i..j], pat, k - i)
  {
    var a := s[i..j][k - i..k - i + |pat|];
    var b := s[k..k + |pat|];
    forall m | 0 <= m < |pat| ensures a[m] == b[m] {
    }
    assert a == b;
  }

  /** A pattern whose first character never appears in `s` does not occur in it. */
  lemma NotContainsWithoutFirstChar(s: string, pat: string)
    requires pat != [] && forall i :: 0 <= i < |s| ==> s[i] != pat[0]
    ensures !Contains(s, pat)
  {
    forall k | 0 <= k && k + |pat| <= |s| ensures !OccursAt(s, pat, k) {
      assert s[k..k + |pat|][0] == s[k];
    }
    ContainsIff(s, pat);
  }

  /** A pattern absent from a string is absent from each of its slices. */
  lemma NoOccurrenceInSlice(s: string, i: nat, j: nat, pat: string)
    requires i <= j <= |s| && forall k :: !OccursAt(s, pat, k)
    ensures forall k :: !OccursAt(s[i..j], pat, k)
  {
    forall k | OccursAt(s[i..j], pat, k) ensures false {
      OccursInSlice(s, i, j, pat, k);
    }
  }

  /** Text around a string keeps every occurrence inside it. */
  lemma ContainsInConcat(a: string, b: string, pat: string)
    requires Contains(a, pat) || Contains(b, pat)
    ensures Contains(a + b, pat)
  {
    var s := a + b;
    ContainsIff(a, pat);
    ContainsIff(b, pat);
    if Contains(a, pat) {
      var k := Find(a, pat).value;
      assert s[0..|a|] == a;
      OccursInSlice(s, 0, |a|, pat, k);
    } else {
      var k := Find(b, pat).value;
      assert s[|a|..|s|] == b;
      OccursInSlice(s, |a|, |s|, pat, k);
    }
    ContainsIff(s, pat);
  }

  lemma EndsWithConcat(a: string, suffix: string)
    ensures EndsWith(a + suffix, suffix)
  {
    assert (a + suffix)[|a|..] == suffix;
  }

  /** `s.endswith(suffix)`. */
  predicate EndsWith(s: string, suffix: string) {
    |suffix| <= |s| && s[|s| - |suffix|..] == suffix
  }

  /** `s.startswith(prefix)`. */
  predicate StartsWith(s: string, prefix: string) {
    |prefix| <= |s| && s[..|prefix|] == prefix
  }

  // ---------------------------------------------------------------------------
  // s.replace(pat, "")

  /**
   * `s.replace(pat, "")`: scanning from the left, every non-overlapping
   * occurrence of `pat` is dropped.
   */
  function RemoveAll(s: string, pat: string): (r: string)
    requires pat != []
    ensures |r| <= |s|
    decreases |s|
  {
    if |s| < |pat| then s
    else if s[..|pat|] == pat then RemoveAll(s[|pat|..], pat)
    else [s[0]] + RemoveAll(s[1..], pat)
  }

  const Fence := "```"

  /** When `s` does not begin with a backtick, neither does its fence-free form. */
  lemma RemoveFenceHead(s: string)
    requires s != [] && s[0] != '`'
    ensures RemoveAll(s, Fence) != [] && RemoveAll(s, Fence)[0] == s[0]
  {
    if |s| >= 3 {
      assert s[..3] != Fence;
    }
  }

  /**
   * A backtick that does not start a fence is never followed, after
   * removal, by two more backticks.
   */
  lemma TickNotFollowedByTicks(s: string)
    requires |s| >= 3 && s[0] == '`' && s[..3] != Fence
    ensures var rt := RemoveAll(s[1..], Fence); !(|rt| >= 2 && rt[0] == '`' && rt[1] == '`')
  {
    var t := s[1..];
    if t[0] != '`' {
      RemoveFenceHead(t);
    } else {
      assert t[1] == s[2] != '`';
      if |t| >= 3 {
        assert t[..3] != Fence;
      }
      var u := t[1..];
      assert RemoveAll(t, Fence) == [t[0]] + RemoveAll(u, Fence);
      RemoveFenceHead(u);
    }
  }

  lemma OccursAfterHead(c: char, t: string, pat: string, k: int)
    requires k > 0 && OccursAt([c] + t, pat, k)
    ensures OccursAt(t, pat, k - 1)
  {
    assert ([c] + t)[k..k + |pat|] == t[k - 1..k - 1 + |pat|];
  }

  /**
   * Removing "```" leaves no "```" behind: a backtick kept in front of a
   * removed fence would have started an earlier, leftmost fence.
   */
  lemma {:induction false} RemoveFenceComplete(s: string)
    ensures forall k :: !OccursAt(RemoveAll(s, Fence), Fence, k)
    decreases |s|
  {
    if |s| < 3 {
    } else if s[..3] == Fence {
      RemoveFenceComplete(s[3..]);
    } else {
      var rt := RemoveAll(s[1..], Fence);
      RemoveFenceComplete(s[1..]);
      var r := [s[0]] + rt;
      assert RemoveAll(s, Fence) == r;
      forall k ensures !OccursAt(r, Fence, k) {
        if k == 0 {
          if s[0] == '`' {
            TickNotFollowedByTicks(s);
          }
          assert |r| >= 3 ==> r[..3] == [s[0], rt[0], rt[1]];
        } else if OccursAt(r, Fence, k) {
          OccursAfterHead(s[0], rt, Fence, k);
        }
      }
    }
  }

  /** `s` holds no backtick. */
  predicate NoTick(s: string) {
    forall i :: 0 <= i < |s| ==> s[i] != '`'
  }

  /**
   * Removal keeps text that cannot start the pattern: a backtick-free
   * prefix comes through `replace` unchanged, in front of the rest.
   */
  lemma {:induction false} RemoveAllKeepsPrefix(p: string, t: string, pat: string)
    requires pat != [] && pat[0] == '`' && NoTick(p)
    ensures RemoveAll(p + t, pat) == p + RemoveAll(t, pat)
    decreases |p|
  {
    if p != [] {
      var s := p + t;
      assert s[0] == p[0] != '`';
      assert s[1..] == p[1..] + t;
      if |s| >= |pat| {
        assert s[..|pat|][0] == s[0];
        RemoveAllKeepsPrefix(p[1..], t, pat);
        assert [s[0]] + (p[1..] + RemoveAll(t, pat)) == p + RemoveAll(t, pat);
      } else {
        assert |t| < |pat|;
      }
    } else {
      assert p + t == t;
    }
  }

  // ---------------------------------------------------------------------------
  // strip()

  function StripLeft(s: string): (r: string)
    ensures |r| <= |s| && r == s[|s| - |r|..]
    ensures r == [] || !IsSpace(r[0])
  {
    if s != [] && IsSpace(s[0]) then StripLeft(s[1..]) else s
  }

  /** `lstrip()` removes only whitespace. */
  lemma {:induction false} StripLeftSpaces(s: string)
    ensures AllSpace(s[..|s| - |StripLeft(s)|])
  {
    if s != [] && IsSpace(s[0]) {
      var r := StripLeft(s[1..]);
      StripLeftSpaces(s[1..]);
      var head := s[..|s| - |r|];
      forall m | 0 <= m < |head| ensures IsSpace(head[m]) {
        if m > 0 {
          assert head[m] == s[1..][..|s| - 1 - |r|][m - 1];
        }
      }
    }
  }

  function StripRight(s: string): (r: string)
    ensures |r| <= |s| && r == s[..|r|]
    ensures r == [] || !IsSpace(r[|r| - 1])
  {
    if s != [] && IsSpace(s[|s| - 1]) then
      var r := StripRight(s[..|s| - 1]);
      assert s[..|s| - 1][..|r|] == s[..|r|];
      r
    else s
  }

  /** `rstrip()` removes only whitespace. */
  lemma {:induction false} StripRightSpaces(s: string)
    ensures AllSpace(s[|StripRight(s)|..])
  {
    if s != [] && IsSpace(s[|s| - 1]) {
      var r := StripRight(s[..|s| - 1]);
      StripRightSpaces(s[..|s| - 1]);
      var tail := s[|r|..];
      forall m | 0 <= m < |tail| ensures IsSpace(tail[m]) {
        if m < |tail| - 1 {
          assert tail[m] == s[..|s| - 1][|r|..][m];
        }
      }
    }
  }

  /** `s.strip()`: no whitespace is left at either end. */
  function Strip(s: string): (r: string)
    ensures |r| <= |s|
    ensures r == [] || (!IsSpace(r[0]) && !IsSpace(r[|r| - 1]))
    ensures var i := |s| - |StripLeft(s)|; i + |r| <= |s| && r == s[i..i + |r|]
  {
    var l := StripLeft(s);
    var r := StripRight(l);
    PrefixOfSuffix(s, l, r);
    r
  }

  /** `strip()` removes only whitespace: its result is a slice with only whitespace outside it. */
  lemma StripSlice(s: string)
    ensures var r := Strip(s);
      exists i :: 0 <= i <= i + |r| <= |s| && r == s[i..i + |r|] &&
                  AllSpace(s[..i]) && AllSpace(s[i + |r|..])
  {
    var l := StripLeft(s);
    var i := |s| - |l|;
    var r := Strip(s);
    StripLeftSpaces(s);
    StripRightSpaces(l);
    SuffixParts(s, i, |r|);
    assert l[|r|..] == s[i + |r|..];
    assert AllSpace(s[..i]) && AllSpace(s[i + |r|..]);
  }

  /** A prefix of a suffix is a slice. */
  lemma PrefixOfSuffix<T>(s: seq<T>, l: seq<T>, r: seq<T>)
    requires |l| <= |s| && l == s[|s| - |l|..]
    requires |r| <= |l| && r == l[..|r|]
    ensures var i := |s| - |l|; i + |r| <= |s| && r == s[i..i + |r|]
  {
    SuffixParts(s, |s| - |l|, |r|);
  }

  lemma SuffixParts<T>(s: seq<T>, i: nat, n: nat)
    requires i + n <= |s|
    ensures s[i..][..n] == s[i..i + n] && s[i..][n..] == s[i + n..]
  {
  }

  /** A pattern absent from a string is absent from its `strip()`. */
  lemma StripKeepsAbsence(s: string, pat: string)
    requires forall k :: !OccursAt(s, pat, k)
    ensures forall k :: !OccursAt(Strip(s), pat, k)
  {
    AbsentFromSlice(s, |s| - |StripLeft(s)|, Strip(s), pat);
  }

  lemma AbsentFromSlice(s: string, i: nat, t: string, pat: string)
    requires i + |t| <= |s| && t == s[i..i + |t|]
    requires forall k :: !OccursAt(s, pat, k)
    ensures forall k :: !OccursAt(t, pat, k)
  {
    NoOccurrenceInSlice(s, i, i + |t|, pat);
  }

  /** A string without whitespace at its ends is its own `strip()`. */
  lemma StripNoSpace(s: string)
    requires s == [] || (!IsSpace(s[0]) && !IsSpace(s[|s| - 1]))
    ensures Strip(s) == s
  {
  }

  // ---------------------------------------------------------------------------
  // Decimal numbers: str(n) and int(s)

  /** Value of a string of ASCII digits, most significant first. */
  function DigitsValue(s: string): (v: nat)
    requires AllDigits(s)
  {
    if s == [] then 0 else DigitsValue(s[..|s| - 1]) * 10 + DigitValue(s[|s| - 1])
  }

  /** `str(n)` for n >= 0. */
  function NatToString(n: nat): (s: string)
    ensures s != [] && AllDigits(s)
  {
    (if n < 10 then "" else NatToString(n / 10)) + [DigitChar(n % 10)]
  }

  /** `str(i)`, e.g. in the f-strings "Pessoa {index}" and "Type {x}". */
  function IntToString(i: int): (s: string)
    ensures s != []
  {
    if i < 0 then "-" + NatToString(-i) else NatToString(i)
  }

  lemma {:induction false} NatToStringValue(n: nat)
    ensures DigitsValue(NatToString(n)) == n
  {
    var s := NatToString(n);
    assert s[..|s| - 1] == (if n < 10 then "" else NatToString(n / 10));
    if n >= 10 {
      NatToStringValue(n / 10);
    }
  }

  lemma NatToStringInjective(a: nat, b: nat)
    requires NatToString(a) == NatToString(b)
    ensures a == b
  {
    NatToStringValue(a);
    NatToStringValue(b);
  }

  lemma IntToStringInjective(a: int, b: int)
    requires IntToString(a) == IntToString(b)
    ensures a == b
  {
    var sa, sb := IntToString(a), IntToString(b);
    assert (sa[0] == '-') == (a < 0) by { if a >= 0 { assert IsDigit(sa[0]); } }
    assert (sb[0] == '-') == (b < 0) by { if b >= 0 { assert IsDigit(sb[0]); } }
    if a < 0 {
      assert NatToString(-a) == sa[1..] && NatToString(-b) == sb[1..];
      NatToStringInjective(-a, -b);
    } else {
      NatToStringInjective(a, b);
    }
  }

  /**
   * `int(s)` for base 10: surrounding whitespace, an optional sign and at
   * least one ASCII digit; anything else raises ValueError (None).
   */
  function ParseInt(s: string): (r: Option<int>)
  {
    ParseSigned(Strip(s))
  }

  /** An optional sign followed by at least one digit. */
  function ParseSigned(t: string): (r: Option<int>)
  {
    if t == [] then None
    else
      var digits := if t[0] == '-' || t[0] == '+' then t[1..] else t;
      if digits == [] || !AllDigits(digits) then None
      else
        var v: int := DigitsValue(digits);
        Some(if t[0] == '-' then -v else v)
  }

  /** A string of ASCII digits is read as its decimal value. */
  lemma ParseDigits(s: string)
    requires s != [] && AllDigits(s)
    ensures ParseInt(s) == Some(DigitsValue(s))
  {
    assert IsDigit(s[0]) && IsDigit(s[|s| - 1]);
    StripNoSpace(s);
  }

  /** `int(str(i)) == i`. */
  lemma ParseIntToString(i: int)
    ensures ParseInt(IntToString(i)) == Some(i)
  {
    StripIntToString(i);
    ParseSignedIntToString(i);
  }

  lemma StripIntToString(i: int)
    ensures Strip(IntToString(i)) == IntToString(i)
  {
    var s := IntToString(i);
    assert IsDigit(s[|s| - 1]);
    assert IsDigit(s[0]) || s[0] == '-';
    StripNoSpace(s);
  }

  lemma ParseSignedIntToString(i: int)
    ensures ParseSigned(IntToString(i)) == Some(i)
  {
    if i < 0 {
      ParseSignedNegative(i);
    } else {
      ParseSignedNatural(i);
    }
  }

  lemma ParseSignedNegative(i: int)
    requires i < 0
    ensures ParseSigned(IntToString(i)) == Some(i)
  {
    var d := NatToString(-i);
    NatToStringValue(-i);
    ParseSignedMinus(d);
  }

  lemma ParseSignedMinus(d: string)
    requires d != [] && AllDigits(d)
    ensures ParseSigned("-" + d) == Some(0 - DigitsValue(d) as int)
  {
    var t := "-" + d;
    assert t[0] == '-' && t[1..] == d;
  }

  lemma ParseSignedNatural(n: nat)
    ensures ParseSigned(IntToString(n)) == Some(n)
  {
    var s := IntToString(n);
    assert s == NatToString(n);
    assert IsDigit(s[0]);
    NatToStringValue(n);
  }

  // ---------------------------------------------------------------------------
  // Ordering of strings

  /** Python's `a < b` on str, and SQLite's BINARY collation on ASCII text. */
  predicate LexLess(a: string, b: string) {
    if a == [] then b != []
    else if b == [] then false
    else if a[0] != b[0] then a[0] < b[0]
    else LexLess(a[1..], b[1..])
  }

  /** Comparing two concatenations whose first parts have equal length. */
  lemma {:induction false} LexLessConcat(x1: string, y1: string, x2: string, y2: string)
    requires |x1| == |x2|
    ensures LexLess(x1 + y1, x2 + y2) <==> LexLess(x1, x2) || (x1 == x2 && LexLess(y1, y2))
    decreases |x1|
  {
    if x1 == [] {
      assert x1 + y1 == y1 && x2 + y2 == y2;
    } else {
      assert (x1 + y1)[0] == x1[0] && (x2 + y2)[0] == x2[0];
      assert (x1 + y1)[1..] == x1[1..] + y1 && (x2 + y2)[1..] == x2[1..] + y2;
      if x1[0] == x2[0] {
        LexLessConcat(x1[1..], y1, x2[1..], y2);
        assert x1 == x2 <==> x1[1..] == x2[1..] by {
          if x1[1..] == x2[1..] { assert x1 == [x1[0]] + x1[1..]; assert x2 == [x2[0]] + x2[1..]; }
        }
      }
    }
  }

  lemma ConcatEq(x1: string, y1: string, x2: string, y2: string)
    requires |x1| == |x2|
    ensures x1 + y1 == x2 + y2 <==> x1 == x2 && y1 == y2
  {
    if x1 + y1 == x2 + y2 {
      assert x1 == (x1 + y1)[..|x1|] && x2 == (x2 + y2)[..|x2|];
      assert y1 == (x1 + y1)[|x1|..] && y2 == (x2 + y2)[|x2|..];
    }
  }
}
