/**
 * The PHP string primitives the core relies on, on strings whose characters
 * stand for single bytes: ASCII-only strtolower, trim() with its default
 * character list, preg_replace of a character class, truthiness, and the
 * decimal rendering of an integer in string concatenation.
 */
module PhpStrings {

  /** The PCRE class `\s`: space, tab, line feed, vertical tab, form feed, carriage return. */
  predicate IsPcreSpace(c: char) {
    c == ' ' || c == '\t' || c == '\n' || c == '\r' || c as int == 0x0B || c as int == 0x0C
  }

  /** The characters trim() removes by default: space, tab, line feed, carriage return, NUL, vertical tab. */
  predicate IsTrimChar(c: char) {
    c == ' ' || c == '\t' || c == '\n' || c == '\r' || c == '\0' || c as int == 0x0B
  }

  predicate IsLowerAlpha(c: char) { 'a' <= c <= 'z' }
  predicate IsUpperAlpha(c: char) { 'A' <= c <= 'Z' }
  predicate IsDigit(c: char) { '0' <= c <= '9' }
  predicate IsHyphen(c: char) { c == '-' }

  /** A character a slug may hold: `a-z`, `0-9` or `-`. */
  predicate IsSlugChar(c: char) { IsLowerAlpha(c) || IsDigit(c) || IsHyphen(c) }

  /** The characters generateSimpleSlug and Str::slug keep: `a-z`, `0-9`, `\s` and `-`. */
  predicate IsSlugSourceChar(c: char) { IsLowerAlpha(c) || IsDigit(c) || IsPcreSpace(c) || IsHyphen(c) }

  /** No two adjacent hyphens. */
  predicate NoDoubleHyphen(s: string) {
    forall i :: 0 <= i < |s| - 1 ==> !(s[i] == '-' && s[i + 1] == '-')
  }

  /** PHP truthiness of a string: "" and "0" are false, every other string is true. */
  predicate Truthy(s: string) { s != "" && s != "0" }

  /** PHP empty() of a string (null is modelled as ""). */
  predicate IsEmpty(s: string) { !Truthy(s) }

  /** strtolower on one byte: only `A-Z` change. */
  function LowerChar(c: char): (d: char)
    ensures IsUpperAlpha(c) ==> IsLowerAlpha(d) && d as int == c as int + 32
    ensures !IsUpperAlpha(c) ==> d == c
  {
    if IsUpperAlpha(c) then (c as int + 32) as char else c
  }

  /** strtolower: lower-cases `A-Z` and leaves every other byte alone. */
  function StrToLower(s: string): string {
    if s == [] then [] else [LowerChar(s[0])] + StrToLower(s[1..])
  }

  /** preg_replace('/[^K]/', '', s): keeps exactly the characters satisfying `keep`, in order. */
  function Filter(s: string, keep: char -> bool): string {
    if s == [] then []
    else (if keep(s[0]) then [s[0]] else []) + Filter(s[1..], keep)
  }

  /** The longest suffix of `s` that does not start with a character satisfying `p`. */
  function DropWhile(s: string, p: char -> bool): (r: string)
    ensures |r| <= |s|
  {
    if s != [] && p(s[0]) then DropWhile(s[1..], p) else s
  }

  /** The longest prefix of `s` that does not end with a character satisfying `p`. */
  function DropWhileEnd(s: string, p: char -> bool): (r: string)
    ensures |r| <= |s|
  {
    if s != [] && p(s[|s| - 1]) then DropWhileEnd(s[..|s| - 1], p) else s
  }

  /** DropWhile removes a prefix of characters of the set and stops at one outside it. */
  lemma {:induction false} DropWhileFacts(s: string, p: char -> bool)
    ensures var r := DropWhile(s, p);
      r == s[|s| - |r|..] && (r == [] || !p(r[0])) && (forall i :: 0 <= i < |s| - |r| ==> p(s[i]))
  {
    if s != [] && p(s[0]) {
      DropWhileFacts(s[1..], p);
    }
  }

  /** DropWhileEnd removes a suffix of characters of the set and stops at one outside it. */
  lemma {:induction false} DropWhileEndFacts(s: string, p: char -> bool)
    ensures var r := DropWhileEnd(s, p);
      r == s[..|r|] && (r == [] || !p(r[|r| - 1])) && (forall i :: |r| <= i < |s| ==> p(s[i]))
  {
    if s != [] && p(s[|s| - 1]) {
      DropWhileEndFacts(s[..|s| - 1], p);
    }
  }

  /** How many characters trim(s, chars) removes from the front. */
  function TrimStart(s: string, p: char -> bool): nat {
    |s| - |DropWhile(s, p)|
  }

  /**
   * trim(s, chars) for the character set `p`: the result is a contiguous
   * piece of `s` that neither starts nor ends with a character of the set,
   * and a string that already does neither is returned unchanged. Every
   * character removed from either end belongs to the set.
   */
  function TrimBy(s: string, p: char -> bool): (r: string)
    ensures TrimStart(s, p) + |r| <= |s| && r == s[TrimStart(s, p)..TrimStart(s, p) + |r|]
    ensures r == [] || (!p(r[0]) && !p(r[|r| - 1]))
    ensures (s == [] || (!p(s[0]) && !p(s[|s| - 1]))) ==> r == s
    ensures forall i :: 0 <= i < TrimStart(s, p) ==> p(s[i])
    ensures forall i :: TrimStart(s, p) + |r| <= i < |s| ==> p(s[i])
  {
    TrimBySlice(s, p);
    TrimByEnds(s, p);
    TrimByRemoved(s, p);
    DropWhileEnd(DropWhile(s, p), p)
  }

  lemma TrimByRemoved(s: string, p: char -> bool)
    ensures var r := DropWhileEnd(DropWhile(s, p), p);
      && (forall i :: 0 <= i < TrimStart(s, p) ==> p(s[i]))
      && (forall i :: TrimStart(s, p) + |r| <= i < |s| ==> p(s[i]))
  {
    var d := DropWhile(s, p);
    var r := DropWhileEnd(d, p);
    DropWhileFacts(s, p);
    DropWhileEndFacts(d, p);
    forall i | TrimStart(s, p) + |r| <= i < |s| ensures p(s[i]) {
      assert s[i] == d[i - TrimStart(s, p)];
    }
  }

  lemma TrimBySlice(s: string, p: char -> bool)
    ensures var r := DropWhileEnd(DropWhile(s, p), p);
      TrimStart(s, p) + |r| <= |s| && r == s[TrimStart(s, p)..TrimStart(s, p) + |r|]
  {
    var d := DropWhile(s, p);
    DropWhileFacts(s, p);
    DropWhileEndFacts(d, p);
  }

  lemma TrimByEnds(s: string, p: char -> bool)
    ensures var r := DropWhileEnd(DropWhile(s, p), p); r == [] || (!p(r[0]) && !p(r[|r| - 1]))
  {
    var d := DropWhile(s, p);
    var r := DropWhileEnd(d, p);
    DropWhileFacts(s, p);
    DropWhileEndFacts(d, p);
    assert r != [] ==> r[0] == d[0];
  }

  /** trim(s) with the default character list. */
  function Trim(s: string): string { TrimBy(s, IsTrimChar) }

  /** rtrim(s) with the default character list. */
  function RTrim(s: string): string { DropWhileEnd(s, IsTrimChar) }

  /**
   * preg_replace('/[P]+/', sep, s): every maximal run of characters
   * satisfying `p` becomes `sep`.
   */
  function ReplaceRuns(s: string, p: char -> bool, sep: string): string
    decreases |s|
  {
    if s == [] then []
    else if p(s[0]) then sep + ReplaceRuns(DropWhile(s[1..], p), p, sep)
    else [s[0]] + ReplaceRuns(s[1..], p, sep)
  }

  /** str_replace of the single character `c` by `rep`. */
  function ReplaceChar(s: string, c: char, rep: string): string {
    if s == [] then []
    else (if s[0] == c then rep else [s[0]]) + ReplaceChar(s[1..], c, rep)
  }

  function DigitChar(d: nat): (c: char)
    requires d < 10
    ensures IsDigit(c)
  {
    ('0' as int + d) as char
  }

  /** The decimal text PHP produces when an integer is concatenated to a string. */
  function NatToString(n: nat): (r: string)
    ensures |r| >= 1
    ensures forall c :: c in r ==> IsDigit(c)
    decreases n
  {
    if n < 10 then [DigitChar(n)] else NatToString(n / 10) + [DigitChar(n % 10)]
  }

  // ---------------------------------------------------------------------
  // Lemmas
  // ---------------------------------------------------------------------

  /** Different numbers have different decimal texts. */
  lemma {:induction false} NatToStringInjective(a: nat, b: nat)
    requires NatToString(a) == NatToString(b)
    ensures a == b
    decreases a
  {
    var sa, sb := NatToString(a), NatToString(b);
    if a < 10 && b < 10 {
      assert sa[0] == DigitChar(a) && sb[0] == DigitChar(b);
    } else if a >= 10 && b >= 10 {
      assert sa[..|sa| - 1] == NatToString(a / 10);
      assert sb[..|sb| - 1] == NatToString(b / 10);
      NatToStringInjective(a / 10, b / 10);
      assert sa[|sa| - 1] == DigitChar(a % 10);
      assert sb[|sb| - 1] == DigitChar(b % 10);
    }
  }

  /** The characters of a trimmed string are characters of the original. */
  lemma TrimBySubset(s: string, p: char -> bool)
    ensures forall c :: c in TrimBy(s, p) ==> c in s
  {
    var r, i := TrimBy(s, p), TrimStart(s, p);
    forall c | c in r ensures c in s {
      var k :| 0 <= k < |r| && r[k] == c;
      assert s[i + k] == c;
    }
  }

  /** strtolower maps each byte on its own. */
  lemma {:induction false} StrToLowerAt(s: string)
    ensures |StrToLower(s)| == |s|
    ensures forall i :: 0 <= i < |s| ==> StrToLower(s)[i] == LowerChar(s[i])
  {
    if s != [] {
      StrToLowerAt(s[1..]);
    }
  }

  /** A filtered string holds only characters of the original that pass the filter. */
  lemma {:induction false} FilterChars(s: string, keep: char -> bool)
    ensures |Filter(s, keep)| <= |s|
    ensures forall c :: c in Filter(s, keep) ==> c in s && keep(c)
  {
    if s != [] {
      FilterChars(s[1..], keep);
    }
  }

  lemma {:induction false} StrToLowerConcat(a: string, b: string)
    ensures StrToLower(a + b) == StrToLower(a) + StrToLower(b)
  {
    StrToLowerAt(a + b);
    StrToLowerAt(a);
    StrToLowerAt(b);
    forall i | 0 <= i < |a + b| ensures StrToLower(a + b)[i] == (StrToLower(a) + StrToLower(b))[i] {
      if i < |a| { assert (a + b)[i] == a[i]; } else { assert (a + b)[i] == b[i - |a|]; }
    }
  }

  /** strtolower changes nothing in a string without `A-Z`. */
  lemma StrToLowerIdentity(s: string)
    requires forall i :: 0 <= i < |s| ==> !IsUpperAlpha(s[i])
    ensures StrToLower(s) == s
  {
    StrToLowerAt(s);
    assert forall i :: 0 <= i < |s| ==> StrToLower(s)[i] == s[i];
  }

  lemma {:induction false} FilterConcat(a: string, b: string, keep: char -> bool)
    ensures Filter(a + b, keep) == Filter(a, keep) + Filter(b, keep)
  {
    if a == [] {
      assert a + b == b;
    } else {
      var head := if keep(a[0]) then [a[0]] else [];
      assert (a + b)[0] == a[0] && (a + b)[1..] == a[1..] + b;
      FilterConcat(a[1..], b, keep);
      calc {
        Filter(a + b, keep);
        head + Filter(a[1..] + b, keep);
        head + (Filter(a[1..], keep) + Filter(b, keep));
        { SeqAssoc(head, Filter(a[1..], keep), Filter(b, keep)); }
        Filter(a, keep) + Filter(b, keep);
      }
    }
  }

  /** Filtering keeps nothing when no character passes. */
  lemma {:induction false} FilterNone(s: string, keep: char -> bool)
    requires forall i :: 0 <= i < |s| ==> !keep(s[i])
    ensures Filter(s, keep) == []
  {
    if s != [] {
      assert forall i :: 0 <= i < |s[1..]| ==> s[1..][i] == s[i + 1];
      FilterNone(s[1..], keep);
    }
  }

  /** Filtering keeps a string whose every character passes the filter. */
  lemma {:induction false} FilterAllKept(s: string, keep: char -> bool)
    requires forall i :: 0 <= i < |s| ==> keep(s[i])
    ensures Filter(s, keep) == s
  {
    if s != [] {
      FilterAllKept(s[1..], keep);
    }
  }

  lemma {:induction false} DropWhileConcat(a: string, b: string, p: char -> bool)
    requires DropWhile(a, p) != []
    ensures DropWhile(a + b, p) == DropWhile(a, p) + b
  {
    if p(a[0]) {
      assert (a + b)[0] == a[0] && (a + b)[1..] == a[1..] + b;
      DropWhileConcat(a[1..], b, p);
    }
  }

  /** Replacing runs distributes over a split that does not cut a run. */
  lemma {:induction false} ReplaceRunsConcat(a: string, b: string, p: char -> bool, sep: string)
    requires a != [] ==> !p(a[|a| - 1])
    ensures ReplaceRuns(a + b, p, sep) == ReplaceRuns(a, p, sep) + ReplaceRuns(b, p, sep)
    decreases |a|
  {
    if a == [] {
      assert a + b == b;
    } else {
      assert (a + b)[0] == a[0] && (a + b)[1..] == a[1..] + b;
      if p(a[0]) {
        ReplaceRunsConcatRun(a, b, p, sep);
      } else {
        ReplaceRunsConcat(a[1..], b, p, sep);
        assert ReplaceRuns(a + b, p, sep) == [a[0]] + ReplaceRuns(a[1..] + b, p, sep);
      }
    }
  }

  lemma {:induction false} ReplaceRunsConcatRun(a: string, b: string, p: char -> bool, sep: string)
    requires a != [] && p(a[0]) && !p(a[|a| - 1])
    ensures ReplaceRuns(a + b, p, sep) == ReplaceRuns(a, p, sep) + ReplaceRuns(b, p, sep)
    decreases |a|, 0
  {
    var a1 := a[1..];
    var d := DropWhile(a1, p);
    DropWhileFacts(a1, p);
    assert d != [];
    assert d[|d| - 1] == a[|a| - 1] by {
      assert d == a1[|a1| - |d|..];
    }
    var ab := a + b;
    assert ab[0] == a[0];
    assert ab[1..] == a1 + b;
    DropWhileConcat(a1, b, p);
    ReplaceRunsConcat(d, b, p, sep);
    assert ReplaceRuns(ab, p, sep) == sep + ReplaceRuns(d + b, p, sep);
    assert ReplaceRuns(a, p, sep) == sep + ReplaceRuns(d, p, sep);
    var rd, rb := ReplaceRuns(d, p, sep), ReplaceRuns(b, p, sep);
    SeqAssoc(sep, rd, rb);
  }

  /** The middle part of a three-part concatenation sits right after the first part. */
  lemma InfixAt(a: string, b: string, c: string)
    ensures |a| + |b| <= |a + b + c| && (a + b + c)[|a|..|a| + |b|] == b
  {
  }

  /** The second part of a concatenation is its suffix. */
  lemma SuffixAt(a: string, b: string)
    ensures (a + b)[|a + b| - |b|..] == b
  {
  }

  lemma SeqAssoc(x: string, y: string, z: string)
    ensures x + (y + z) == (x + y) + z
  {
  }

  /** A string with no character of the set is returned unchanged by ReplaceRuns. */
  lemma {:induction false} ReplaceRunsNoMatch(s: string, p: char -> bool, sep: string)
    requires forall i :: 0 <= i < |s| ==> !p(s[i])
    ensures ReplaceRuns(s, p, sep) == s
  {
    if s != [] {
      ReplaceRunsNoMatch(s[1..], p, sep);
    }
  }

  /** Every character of ReplaceRuns comes from `sep` or is a character of `s` outside the set. */
  lemma {:induction false} ReplaceRunsChars(s: string, p: char -> bool, sep: string)
    ensures forall c :: c in ReplaceRuns(s, p, sep) ==> c in sep || (c in s && !p(c))
    decreases |s|
  {
    if s == [] {
    } else if p(s[0]) {
      var d := DropWhile(s[1..], p);
      DropWhileFacts(s[1..], p);
      ReplaceRunsChars(d, p, sep);
      assert forall c :: c in d ==> c in s;
    } else {
      ReplaceRunsChars(s[1..], p, sep);
      assert forall c :: c in s[1..] ==> c in s;
    }
  }

  /** When the replaced set contains `-`, collapsing runs into `-` leaves no doubled hyphen. */
  lemma {:induction false} ReplaceRunsNoDoubleHyphen(s: string, p: char -> bool)
    requires p('-')
    ensures NoDoubleHyphen(ReplaceRuns(s, p, "-"))
    decreases |s|
  {
    if s == [] {
    } else if p(s[0]) {
      var d := DropWhile(s[1..], p);
      DropWhileFacts(s[1..], p);
      ReplaceRunsNoDoubleHyphen(d, p);
      var t := ReplaceRuns(d, p, "-");
      assert t != [] ==> t[0] == d[0] && t[0] != '-';
      assert ReplaceRuns(s, p, "-") == "-" + t;
    } else {
      ReplaceRunsNoDoubleHyphen(s[1..], p);
      var t := ReplaceRuns(s[1..], p, "-");
      assert ReplaceRuns(s, p, "-") == [s[0]] + t;
      assert s[0] != '-';
    }
  }

  /** A piece of a string without doubled hyphens has none either. */
  lemma NoDoubleHyphenSlice(s: string, i: nat, j: nat)
    requires i <= j <= |s| && NoDoubleHyphen(s)
    ensures NoDoubleHyphen(s[i..j])
  {
    var t := s[i..j];
    forall k | 0 <= k < |t| - 1 ensures !(t[k] == '-' && t[k + 1] == '-') {
      assert t[k] == s[i + k] && t[k + 1] == s[i + k + 1];
    }
  }
}
