/**
 * Simplified bodies for the three library functions the core calls:
 * Str::slug, Str::limit and strip_tags. Their real implementations live in
 * the framework and in PHP itself; these versions follow the same steps on
 * strings whose characters stand for ASCII bytes (see README, "Left out").
 */
module Laravel {
  import opened PhpStrings

  predicate IsUnderscore(c: char) { c == '_' }
  predicate IsHyphenOrSpace(c: char) { IsHyphen(c) || IsPcreSpace(c) }

  /**
   * A well-formed slug: only `a-z`, `0-9` and `-`, no leading, trailing or
   * doubled hyphen. The empty string is well formed too: it is what an
   * all-symbol title produces.
   */
  predicate IsSlug(s: string) {
    && (forall i :: 0 <= i < |s| ==> IsSlugChar(s[i]))
    && (s != [] ==> s[0] != '-' && s[|s| - 1] != '-')
    && NoDoubleHyphen(s)
  }

  /**
   * Str::slug($title) with separator '-': runs of `_` become `-`, `@`
   * becomes `-at-`, the text is lower-cased, everything but letters, digits,
   * whitespace and `-` is dropped, every run of `-` and whitespace becomes a
   * single `-`, and leading and trailing `-` are trimmed. (ASCII
   * transliteration is the identity on ASCII and is not modelled.)
   */
  function StrSlug(title: string): (r: string)
    ensures IsSlug(r)
  {
    var underscores := ReplaceRuns(title, IsUnderscore, "-");
    var ats := ReplaceChar(underscores, '@', "-at-");
    var kept := Filter(StrToLower(ats), IsSlugSourceChar);
    var collapsed := ReplaceRuns(kept, IsHyphenOrSpace, "-");
    FilterChars(StrToLower(ats), IsSlugSourceChar);
    CollapsedSlugIsSlug(kept);
    TrimBy(collapsed, IsHyphen)
  }

  /** The last two steps of Str::slug turn any `[a-z0-9\s-]*` text into a well-formed slug. */
  lemma CollapsedSlugIsSlug(kept: string)
    requires forall c :: c in kept ==> IsSlugSourceChar(c)
    ensures IsSlug(TrimBy(ReplaceRuns(kept, IsHyphenOrSpace, "-"), IsHyphen))
  {
    var collapsed := ReplaceRuns(kept, IsHyphenOrSpace, "-");
    ReplaceRunsChars(kept, IsHyphenOrSpace, "-");
    ReplaceRunsNoDoubleHyphen(kept, IsHyphenOrSpace);
    var r := TrimBy(collapsed, IsHyphen);
    var i := TrimStart(collapsed, IsHyphen);
    NoDoubleHyphenSlice(collapsed, i, i + |r|);
    forall k | 0 <= k < |r| ensures IsSlugChar(r[k]) {
      assert r[k] == collapsed[i + k];
      assert collapsed[i + k] in collapsed;
    }
  }

  /**
   * Str::limit($value, $limit): a value of at most `limit` characters is
   * returned as it is; a longer one is cut to `limit` characters, trailing
   * whitespace is removed, and "..." is appended.
   */
  function StrLimit(value: string, limit: nat): (r: string)
    ensures |value| <= limit ==> r == value
    ensures |value| > limit ==> |r| >= 3 && r[|r| - 3..] == "..." && r[..|r| - 3] <= value
    ensures |r| <= limit + 3
  {
    if |value| <= limit then value
    else
      var cut := RTrim(value[..limit]);
      LimitCutIsPrefix(value, limit);
      assert (cut + "...")[..|cut|] == cut;
      cut + "..."
  }

  lemma LimitCutIsPrefix(value: string, limit: nat)
    requires limit < |value|
    ensures |RTrim(value[..limit])| <= limit && RTrim(value[..limit]) <= value
  {
    DropWhileEndFacts(value[..limit], IsTrimChar);
  }

  /** Every character Str::limit returns comes from the value or from the "..." marker. */
  lemma StrLimitChars(value: string, limit: nat)
    ensures forall c :: c in StrLimit(value, limit) ==> c in value || c == '.'
  {
    if |value| > limit {
      var cut := RTrim(value[..limit]);
      DropWhileEndFacts(value[..limit], IsTrimChar);
      assert StrLimit(value, limit) == cut + "...";
      assert forall c :: c in cut ==> c in value[..limit];
      assert forall c :: c in value[..limit] ==> c in value;
    }
  }

  /** Drops everything up to and including the first `>`; all of it when there is none. */
  function SkipTag(s: string): (r: string)
    ensures |r| <= |s| && r == s[|s| - |r|..]
  {
    if s == [] then [] else if s[0] == '>' then s[1..] else SkipTag(s[1..])
  }

  /**
   * strip_tags($s), simplified: every `<` starts a tag that runs to the next
   * `>`, and the tag is removed; a tag left open removes the rest of the
   * string. NUL bytes are dropped. No `<` and no NUL is left in the result.
   */
  function StripTags(s: string): (r: string)
    ensures |r| <= |s|
    ensures forall c :: c in r ==> c in s && c != '<' && c != '\0'
    decreases |s|
  {
    if s == [] then []
    else if s[0] == '\0' then StripTags(s[1..])
    else if s[0] == '<' then
      var rest := SkipTag(s[1..]);
      assert forall c :: c in rest ==> c in s;
      StripTags(rest)
    else [s[0]] + StripTags(s[1..])
  }

  /** `r` is `s` with some of its characters deleted: the others are kept, in their order. */
  predicate IsSubsequence(r: string, s: string)
    decreases |s|
  {
    if s == [] then r == []
    else (r != [] && r[0] == s[0] && IsSubsequence(r[1..], s[1..])) || IsSubsequence(r, s[1..])
  }

  /** Deleting a prefix is a deletion: a subsequence of a suffix of `s` is one of `s`. */
  lemma {:induction false} SubsequenceOfSuffix(r: string, s: string, k: nat)
    requires k <= |s| && IsSubsequence(r, s[k..])
    ensures IsSubsequence(r, s)
    decreases k
  {
    if k > 0 {
      assert s[1..][k - 1..] == s[k..];
      SubsequenceOfSuffix(r, s[1..], k - 1);
    } else {
      assert s[k..] == s;
    }
  }

  /** strip_tags only deletes characters: what it keeps stays in its order and is not repeated. */
  lemma {:induction false} StripTagsIsSubsequence(s: string)
    ensures IsSubsequence(StripTags(s), s)
    decreases |s|
  {
    if s == [] {
    } else if s[0] == '\0' {
      StripTagsIsSubsequence(s[1..]);
    } else if s[0] == '<' {
      var rest := SkipTag(s[1..]);
      assert rest == s[|s| - |rest|..];
      StripTagsIsSubsequence(rest);
      SubsequenceOfSuffix(StripTags(s), s, |s| - |rest|);
    } else {
      var r := StripTags(s);
      assert r[0] == s[0] && r[1..] == StripTags(s[1..]);
      StripTagsIsSubsequence(s[1..]);
    }
  }

  /** Text without `<` or NUL holds no tag, and strip_tags returns it unchanged. */
  lemma {:induction false} StripTagsNoMarkup(s: string)
    requires forall i :: 0 <= i < |s| ==> s[i] != '<' && s[i] != '\0'
    ensures StripTags(s) == s
  {
    if s != [] {
      StripTagsNoMarkup(s[1..]);
    }
  }

  /** strip_tags is idempotent. */
  lemma StripTagsIdempotent(s: string)
    ensures StripTags(StripTags(s)) == StripTags(s)
  {
    var r := StripTags(s);
    assert forall i :: 0 <= i < |r| ==> r[i] in r;
    StripTagsNoMarkup(r);
  }
}
