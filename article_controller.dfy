/**
 * The local logic of ArticleController: the fallback slug and summary
 * generators, the cleaning of an AI-produced slug, the choice between the
 * AI answer and the fallback, the normalisation of the listing parameters,
 * and the `published_at` rule of `store` and `update`.
 */
module ArticleController {
  import opened Wrappers
  import opened PhpStrings
  import opened Laravel
  import opened ArticleModel

  // ---------------------------------------------------------------------
  // generateSimpleSlug and the cleaning of an AI slug
  // ---------------------------------------------------------------------

  /** `[a-zA-Z0-9\s-]`: what the AI-slug cleaning keeps before lower-casing. */
  predicate IsMixedSlugSourceChar(c: char) {
    IsLowerAlpha(c) || IsUpperAlpha(c) || IsDigit(c) || IsPcreSpace(c) || IsHyphen(c)
  }

  /**
   * generateSimpleSlug($title): lower-case, drop everything outside
   * `[a-z0-9\s-]`, turn each whitespace run into `-`, trim `-` at both ends.
   * The result holds only `a-z`, `0-9` and `-` (so no whitespace) and
   * neither starts nor ends with `-`. Runs of `-` already in the title are
   * not collapsed, and an all-symbol title gives "".
   */
  function SimpleSlug(title: string): string {
    TrimBy(ReplaceRuns(Filter(StrToLower(title), IsSlugSourceChar), IsPcreSpace, "-"), IsHyphen)
  }

  /** A simple slug holds only `a-z`, `0-9` and `-`, and neither starts nor ends with `-`. */
  lemma SimpleSlugShape(title: string)
    ensures forall i :: 0 <= i < |SimpleSlug(title)| ==> IsSlugChar(SimpleSlug(title)[i])
    ensures SimpleSlug(title) != [] ==> SimpleSlug(title)[0] != '-' && SimpleSlug(title)[|SimpleSlug(title)| - 1] != '-'
  {
    var kept := Filter(StrToLower(title), IsSlugSourceChar);
    FilterChars(StrToLower(title), IsSlugSourceChar);
    DashedSlugChars(kept);
    assert SimpleSlug(title) == TrimBy(ReplaceRuns(kept, IsPcreSpace, "-"), IsHyphen);
  }

  /** Turning whitespace runs of `[a-z0-9\s-]*` text into `-` and trimming leaves only slug characters. */
  lemma DashedSlugChars(kept: string)
    requires forall c :: c in kept ==> IsSlugSourceChar(c)
    ensures var r := TrimBy(ReplaceRuns(kept, IsPcreSpace, "-"), IsHyphen);
      forall i :: 0 <= i < |r| ==> IsSlugChar(r[i])
  {
    var dashed := ReplaceRuns(kept, IsPcreSpace, "-");
    ReplaceRunsChars(kept, IsPcreSpace, "-");
    var r := TrimBy(dashed, IsHyphen);
    var start := TrimStart(dashed, IsHyphen);
    forall i | 0 <= i < |r| ensures IsSlugChar(r[i]) {
      assert r[i] == dashed[start + i];
      assert dashed[start + i] in dashed;
    }
  }

  /** A string of slug characters that neither starts nor ends with `-` is its own simple slug. */
  lemma {:induction false} SimpleSlugFixesSlugs(s: string)
    requires forall i :: 0 <= i < |s| ==> IsSlugChar(s[i])
    requires s != [] ==> s[0] != '-' && s[|s| - 1] != '-'
    ensures SimpleSlug(s) == s
  {
    StrToLowerIdentity(s);
    FilterAllKept(s, IsSlugSourceChar);
    forall i | 0 <= i < |s| ensures !IsPcreSpace(s[i]) {
      assert IsSlugChar(s[i]);
    }
    ReplaceRunsNoMatch(s, IsPcreSpace, "-");
  }

  /** generateSimpleSlug is idempotent. */
  lemma SimpleSlugIdempotent(title: string)
    ensures SimpleSlug(SimpleSlug(title)) == SimpleSlug(title)
  {
    SimpleSlugShape(title);
    SimpleSlugFixesSlugs(SimpleSlug(title));
  }

  /**
   * The cleaning applied to an AI answer in generateAISlug: trim, drop
   * everything outside `[a-zA-Z0-9\s-]`, lower-case, turn whitespace runs
   * into `-`, trim `-`. It yields the simple slug of the trimmed answer,
   * because filtering with the mixed-case class and then lower-casing is
   * lower-casing and then filtering with the lower-case class.
   */
  function CleanAISlug(answer: string): (r: string)
    ensures r == SimpleSlug(Trim(answer))
  {
    var t := Trim(answer);
    LowerFilterCommute(t);
    TrimBy(ReplaceRuns(StrToLower(Filter(t, IsMixedSlugSourceChar)), IsPcreSpace, "-"), IsHyphen)
  }

  /** strtolower(preg_replace('/[^a-zA-Z0-9\s-]/', '', s)) == preg_replace('/[^a-z0-9\s-]/', '', strtolower(s)). */
  lemma {:induction false} LowerFilterCommute(s: string)
    ensures StrToLower(Filter(s, IsMixedSlugSourceChar)) == Filter(StrToLower(s), IsSlugSourceChar)
  {
    if s != [] {
      LowerFilterCommute(s[1..]);
      var head := if IsMixedSlugSourceChar(s[0]) then [s[0]] else [];
      StrToLowerConcat(head, Filter(s[1..], IsMixedSlugSourceChar));
      assert StrToLower(s) == [LowerChar(s[0])] + StrToLower(s[1..]);
      assert IsMixedSlugSourceChar(s[0]) <==> IsSlugSourceChar(LowerChar(s[0]));
    }
  }

  /** generateSimpleSlug drops punctuation and lower-cases: "Hello, World! 2024" gives "hello-world-2024". */
  lemma SimpleSlugHelloWorld()
    ensures SimpleSlug("Hello, World! 2024") == "hello-world-2024"
  {
    HelloWorldLowered();
    HelloWorldFiltered();
    HelloWorldDashed();
    HelloWorldTrimmed();
  }

  /** generateSimpleSlug keeps hyphens next to spaces: "a - b" gives "a---b". */
  lemma SimpleSlugHyphenRun()
    ensures SimpleSlug("a - b") == "a---b"
  {
    StrToLowerIdentity("a - b");
    FilterAllKept("a - b", IsSlugSourceChar);
    assert ReplaceRuns("a - b", IsPcreSpace, "-") == "a---b";
  }

  /** A title with no letter, digit, whitespace or `-` gives the empty simple slug. */
  lemma SimpleSlugAllSymbols(title: string)
    requires forall i :: 0 <= i < |title| ==> !IsMixedSlugSourceChar(title[i])
    ensures SimpleSlug(title) == ""
  {
    var lowered := StrToLower(title);
    StrToLowerAt(title);
    forall i | 0 <= i < |lowered| ensures !IsSlugSourceChar(lowered[i]) {
      assert lowered[i] == LowerChar(title[i]);
    }
    FilterNone(lowered, IsSlugSourceChar);
  }

  lemma HelloWorldLoweredChunks()
    ensures StrToLower("Hell" + "o, W" + "orld" + "! 20" + "24") == "hell" + "o, w" + "orld" + "! 20" + "24"
  {
    StrToLowerConcat("Hell" + "o, W" + "orld" + "! 20", "24");
    StrToLowerConcat("Hell" + "o, W" + "orld", "! 20");
    StrToLowerConcat("Hell" + "o, W", "orld");
    StrToLowerConcat("Hell", "o, W");
  }

  lemma HelloWorldLowered()
    ensures StrToLower("Hello, World! 2024") == "hello, world! 2024"
  {
    HelloWorldLoweredChunks();
    assert "Hello, World! 2024" == "Hell" + "o, W" + "orld" + "! 20" + "24";
    assert "hello, world! 2024" == "hell" + "o, w" + "orld" + "! 20" + "24";
  }

  lemma HelloWorldFilteredChunks()
    ensures Filter("hell" + "o, w" + "orld" + "! 20" + "24", IsSlugSourceChar) == "hell" + "o w" + "orld" + " 20" + "24"
  {
    FilterConcat("hell" + "o, w" + "orld" + "! 20", "24", IsSlugSourceChar);
    FilterConcat("hell" + "o, w" + "orld", "! 20", IsSlugSourceChar);
    FilteredFront();
    FilteredBang();
    FilterAllKept("24", IsSlugSourceChar);
  }

  lemma FilteredFront()
    ensures Filter("hell" + "o, w" + "orld", IsSlugSourceChar) == "hell" + "o w" + "orld"
  {
    FilterConcat("hell" + "o, w", "orld", IsSlugSourceChar);
    FilterConcat("hell", "o, w", IsSlugSourceChar);
    FilteredComma();
    FilterAllKept("hell", IsSlugSourceChar);
    FilterAllKept("orld", IsSlugSourceChar);
  }

  lemma FilteredComma() ensures Filter("o, w", IsSlugSourceChar) == "o w" {}
  lemma FilteredBang() ensures Filter("! 20", IsSlugSourceChar) == " 20" {}

  lemma HelloWorldFiltered()
    ensures Filter("hello, world! 2024", IsSlugSourceChar) == "hello world 2024"
  {
    HelloWorldFilteredChunks();
    assert "hello, world! 2024" == "hell" + "o, w" + "orld" + "! 20" + "24";
    assert "hello world 2024" == "hell" + "o w" + "orld" + " 20" + "24";
  }

  lemma HelloWorldDashedChunks()
    ensures ReplaceRuns("hello" + " world" + " 2024", IsPcreSpace, "-") == "hello" + "-world" + "-2024"
  {
    ReplaceRunsConcat("hello" + " world", " 2024", IsPcreSpace, "-");
    ReplaceRunsConcat("hello", " world", IsPcreSpace, "-");
    DashedHello();
    DashedWorld();
    Dashed2024();
  }

  lemma DashedHello() ensures ReplaceRuns("hello", IsPcreSpace, "-") == "hello" {}
  lemma DashedWorld() ensures ReplaceRuns(" world", IsPcreSpace, "-") == "-world" {}
  lemma Dashed2024() ensures ReplaceRuns(" 2024", IsPcreSpace, "-") == "-2024" {}

  lemma HelloWorldTrimmed() ensures TrimBy("hello-world-2024", IsHyphen) == "hello-world-2024" {}

  lemma HelloWorldDashed()
    ensures ReplaceRuns("hello world 2024", IsPcreSpace, "-") == "hello-world-2024"
  {
    HelloWorldDashedChunks();
    assert "hello world 2024" == "hello" + " world" + " 2024";
    assert "hello-world-2024" == "hello" + "-world" + "-2024";
  }

  // ---------------------------------------------------------------------
  // generateSimpleSummary
  // ---------------------------------------------------------------------

  /** The sentence terminators of the split pattern `[.!?]+`. */
  predicate IsSentenceEnd(c: char) { c == '.' || c == '!' || c == '?' }

  predicate IsNotSentenceEnd(c: char) { !IsSentenceEnd(c) }

  /**
   * preg_split('/[.!?]+/', s): the pieces between maximal runs of
   * terminators, empty pieces included, so there is always at least one.
   */
  function SplitSentences(s: string): (pieces: seq<string>)
    ensures |pieces| >= 1
    decreases |s|
  {
    if s == [] then [[]]
    else if IsSentenceEnd(s[0]) then [[]] + SplitSentences(DropWhile(s[1..], IsSentenceEnd))
    else
      var rest := SplitSentences(s[1..]);
      [[s[0]] + rest[0]] + rest[1..]
  }

  /** The pieces glued back together. */
  function Concat(pieces: seq<string>): string {
    if pieces == [] then [] else pieces[0] + Concat(pieces[1..])
  }

  /** A piece of the split of `s`: no terminator, and only characters of `s`. */
  predicate IsPieceOf(piece: string, s: string) {
    forall c :: c in piece ==> c in s && !IsSentenceEnd(c)
  }

  /** Every piece of the split is a piece of the split text. */
  lemma {:induction false} SplitSentencesChars(s: string)
    ensures forall k :: 0 <= k < |SplitSentences(s)| ==> IsPieceOf(SplitSentences(s)[k], s)
    decreases |s|
  {
    var ps := SplitSentences(s);
    if s == [] {
    } else if IsSentenceEnd(s[0]) {
      var d := DropWhile(s[1..], IsSentenceEnd);
      DropWhileFacts(s[1..], IsSentenceEnd);
      SplitSentencesChars(d);
      var qs := SplitSentences(d);
      assert forall c :: c in d ==> c in s;
      assert ps == [[]] + qs;
      forall k | 0 <= k < |ps| ensures IsPieceOf(ps[k], s) {
        if k > 0 {
          assert ps[k] == qs[k - 1];
          assert IsPieceOf(qs[k - 1], d);
        }
      }
    } else {
      var rest := SplitSentences(s[1..]);
      SplitSentencesChars(s[1..]);
      assert forall c :: c in s[1..] ==> c in s;
      forall k | 0 <= k < |ps| ensures IsPieceOf(ps[k], s) {
        if k > 0 {
          assert ps[k] == rest[k];
          assert IsPieceOf(rest[k], s[1..]);
        } else {
          assert ps[0] == [s[0]] + rest[0];
          assert IsPieceOf(rest[0], s[1..]);
        }
      }
    }
  }

  /** Splitting loses exactly the terminators: the pieces glue back to the text without them. */
  lemma {:induction false} SplitSentencesConcat(s: string)
    ensures Concat(SplitSentences(s)) == Filter(s, IsNotSentenceEnd)
    decreases |s|
  {
    if s == [] {
    } else if IsSentenceEnd(s[0]) {
      var d := DropWhile(s[1..], IsSentenceEnd);
      SplitSentencesConcat(d);
      SplitAtRun(s);
    } else {
      SplitSentencesConcat(s[1..]);
      SplitAtChar(s);
    }
  }

  /** A text starting with a terminator run splits into "" and the split of what follows the run. */
  lemma SplitAtRun(s: string)
    requires s != [] && IsSentenceEnd(s[0])
    ensures var d := DropWhile(s[1..], IsSentenceEnd);
      Concat(SplitSentences(s)) == Concat(SplitSentences(d))
      && Filter(s, IsNotSentenceEnd) == Filter(d, IsNotSentenceEnd)
  {
    var d := DropWhile(s[1..], IsSentenceEnd);
    FilterDropsRun(s[1..]);
    assert Concat(SplitSentences(s)) == [] + Concat(SplitSentences(d));
  }

  /** A text starting with another character glues it to the first piece of the rest. */
  lemma SplitAtChar(s: string)
    requires s != [] && !IsSentenceEnd(s[0])
    ensures Concat(SplitSentences(s)) == [s[0]] + Concat(SplitSentences(s[1..]))
    ensures Filter(s, IsNotSentenceEnd) == [s[0]] + Filter(s[1..], IsNotSentenceEnd)
  {
    var rest := SplitSentences(s[1..]);
    assert SplitSentences(s) == [[s[0]] + rest[0]] + rest[1..];
    GlueFirst(s[0], rest);
  }

  /** Prepending a character to the first piece prepends it to the glued text. */
  lemma GlueFirst(c: char, rest: seq<string>)
    requires |rest| >= 1
    ensures Concat([[c] + rest[0]] + rest[1..]) == [c] + Concat(rest)
  {
    var ps := [[c] + rest[0]] + rest[1..];
    assert ps[1..] == rest[1..];
    var tail := Concat(rest[1..]);
    calc {
      Concat(ps);
      ([c] + rest[0]) + tail;
      { SeqAssoc([c], rest[0], tail); }
      [c] + (rest[0] + tail);
    }
  }

  /** Dropping a leading run of terminators does not change what the filter keeps. */
  lemma {:induction false} FilterDropsRun(s: string)
    ensures Filter(DropWhile(s, IsSentenceEnd), IsNotSentenceEnd) == Filter(s, IsNotSentenceEnd)
  {
    if s != [] && IsSentenceEnd(s[0]) {
      FilterDropsRun(s[1..]);
    }
  }

  /** What the loop appends for one piece: `trim(piece) . '. '` when the trimmed piece is truthy. */
  function SummaryPiece(piece: string): string {
    if Truthy(Trim(piece)) then Trim(piece) + ". " else ""
  }

  /** The loop's accumulator after the pieces `ps`, appended in order. */
  function Accumulated(ps: seq<string>): string {
    if ps == [] then "" else Accumulated(ps[..|ps| - 1]) + SummaryPiece(ps[|ps| - 1])
  }

  /** How many of the pieces are kept. */
  function KeptCount(ps: seq<string>): (n: nat)
    ensures n <= |ps|
  {
    if ps == [] then 0 else KeptCount(ps[..|ps| - 1]) + (if Truthy(Trim(ps[|ps| - 1])) then 1 else 0)
  }

  /** The pieces the loop visits: the first min(3, count) of the split. */
  function SummaryPieces(content: string): (ps: seq<string>)
    ensures |ps| <= 3
  {
    var sentences := SplitSentences(StripTags(content));
    sentences[..if |sentences| < 3 then |sentences| else 3]
  }

  /** generateSimpleSummary as a value: trim of the accumulated pieces. */
  function SummaryOf(content: string): string {
    Trim(Accumulated(SummaryPieces(content)))
  }

  /**
   * generateSimpleSummary($content): strips the tags, splits into
   * sentences, and for each of the first three appends the trimmed
   * sentence and ". " when the trimmed sentence is truthy; the result is
   * trimmed.
   */
  method SimpleSummary(content: string) returns (summary: string)
    ensures summary == SummaryOf(content)
  {
    var text := StripTags(content);
    var sentences := SplitSentences(text);
    var n := if |sentences| < 3 then |sentences| else 3;
    var acc := "";
    for i := 0 to n
      invariant acc == Accumulated(sentences[..i])
    {
      var piece := Trim(sentences[i]);
      if Truthy(piece) {
        acc := acc + (piece + ". ");
      }
      AccumulatedStep(sentences, i);
    }
    summary := Trim(acc);
  }

  lemma AccumulatedStep(ps: seq<string>, i: nat)
    requires i < |ps|
    ensures Accumulated(ps[..i + 1]) == Accumulated(ps[..i]) + SummaryPiece(ps[i])
  {
    assert ps[..i + 1][..i] == ps[..i];
  }

  /**
   * The accumulator is empty exactly when no piece is kept; otherwise it
   * starts with a character trim() keeps and ends with ". ". Its full stops
   * are one per kept piece when the pieces hold none, and its characters
   * are those of the pieces plus '.' and ' '.
   */
  lemma {:induction false} AccumulatedShape(ps: seq<string>)
    ensures var acc := Accumulated(ps);
      && (acc == "" <==> KeptCount(ps) == 0)
      && (acc != "" ==> |acc| >= 2 && !IsTrimChar(acc[0]) && acc[|acc| - 2] == '.' && acc[|acc| - 1] == ' ')
    decreases |ps|
  {
    if ps != [] {
      var init, last := ps[..|ps| - 1], ps[|ps| - 1];
      AccumulatedShape(init);
      var t := Trim(last);
      if Truthy(t) {
        var a := Accumulated(init);
        assert Accumulated(ps) == a + (t + ". ");
        if a == "" {
          assert Accumulated(ps)[0] == t[0];
        } else {
          assert Accumulated(ps)[0] == a[0];
        }
      }
    }
  }

  /** Every character of the accumulator is '.', ' ' or a character of one of the pieces. */
  lemma {:induction false} AccumulatedChars(ps: seq<string>)
    ensures forall c :: c in Accumulated(ps) ==> c == '.' || c == ' ' || exists k :: 0 <= k < |ps| && c in ps[k]
    decreases |ps|
  {
    if ps != [] {
      var init, last := ps[..|ps| - 1], ps[|ps| - 1];
      AccumulatedChars(init);
      TrimBySubset(last, IsTrimChar);
      forall c | c in Accumulated(ps) ensures c == '.' || c == ' ' || exists k :: 0 <= k < |ps| && c in ps[k] {
        if c in Accumulated(init) {
          if c != '.' && c != ' ' {
            var k :| 0 <= k < |init| && c in init[k];
            assert ps[k] == init[k];
          }
        } else {
          assert c in SummaryPiece(last);
          if c != '.' && c != ' ' {
            assert ps[|ps| - 1] == last;
          }
        }
      }
    }
  }

  /** When no piece holds a full stop, the accumulator holds one per kept piece. */
  lemma {:induction false} AccumulatedDots(ps: seq<string>)
    requires forall k :: 0 <= k < |ps| ==> '.' !in ps[k]
    ensures multiset(Accumulated(ps))['.'] == KeptCount(ps)
    decreases |ps|
  {
    if ps != [] {
      var init, last := ps[..|ps| - 1], ps[|ps| - 1];
      assert forall k :: 0 <= k < |init| ==> init[k] == ps[k];
      AccumulatedDots(init);
      TrimBySubset(last, IsTrimChar);
      var t := Trim(last);
      assert multiset(t)['.'] == 0;
      assert multiset(Accumulated(ps)) == multiset(Accumulated(init)) + multiset(SummaryPiece(last));
      if Truthy(t) {
        assert multiset(t + ". ") == multiset(t) + multiset(". ");
      }
    }
  }

  /** Trimming the accumulator removes exactly its final space. */
  lemma TrimAccumulated(ps: seq<string>)
    ensures var acc := Accumulated(ps);
      acc != "" ==> Trim(acc) == acc[..|acc| - 1]
  {
    var acc := Accumulated(ps);
    AccumulatedShape(ps);
    if acc != "" {
      DropWhileFacts(acc, IsTrimChar);
      var front := DropWhile(acc, IsTrimChar);
      assert front == acc;
      var cut := acc[..|acc| - 1];
      assert DropWhileEnd(acc, IsTrimChar) == DropWhileEnd(cut, IsTrimChar);
      assert cut[|cut| - 1] == '.';
    }
  }

  /**
   * The simple summary is "" exactly when none of the first three sentences
   * is kept; otherwise it is the accumulator without its final space, so it
   * ends with '.', and it neither starts nor ends with a character trim()
   * removes.
   */
  lemma SimpleSummaryShape(content: string)
    ensures SummaryOf(content) == "" <==> KeptCount(SummaryPieces(content)) == 0
    ensures SummaryOf(content) != "" ==>
      && SummaryOf(content) == Accumulated(SummaryPieces(content))[..|Accumulated(SummaryPieces(content))| - 1]
      && SummaryOf(content)[|SummaryOf(content)| - 1] == '.'
      && !IsTrimChar(SummaryOf(content)[0])
  {
    var ps := SummaryPieces(content);
    AccumulatedShape(ps);
    TrimAccumulated(ps);
  }

  /** The simple summary holds one '.' per kept sentence, so at most three. */
  lemma SimpleSummaryDots(content: string)
    ensures multiset(SummaryOf(content))['.'] == KeptCount(SummaryPieces(content)) <= 3
  {
    var ps := SummaryPieces(content);
    PiecesHaveNoEnd(content);
    forall k | 0 <= k < |ps| ensures '.' !in ps[k] {
      assert IsPieceOf(ps[k], StripTags(content));
    }
    TrimmedDots(ps);
  }

  lemma TrimmedDots(ps: seq<string>)
    requires forall k :: 0 <= k < |ps| ==> '.' !in ps[k]
    ensures multiset(Trim(Accumulated(ps)))['.'] == KeptCount(ps)
  {
    var acc := Accumulated(ps);
    AccumulatedShape(ps);
    AccumulatedDots(ps);
    assert multiset(acc)['.'] == KeptCount(ps);
    if acc != "" {
      TrimAccumulated(ps);
      assert Trim(acc) == acc[..|acc| - 1];
      assert acc[|acc| - 1] == ' ';
      DropLastSpace(acc);
    }
  }

  lemma DropLastSpace(s: string)
    requires s != [] && s[|s| - 1] == ' '
    ensures multiset(s[..|s| - 1])['.'] == multiset(s)['.']
  {
    assert s == s[..|s| - 1] + [' '];
  }

  /** The visited pieces are pieces of the stripped text. */
  lemma PiecesHaveNoEnd(content: string)
    ensures forall k :: 0 <= k < |SummaryPieces(content)| ==> IsPieceOf(SummaryPieces(content)[k], StripTags(content))
  {
    var sentences := SplitSentences(StripTags(content));
    SplitSentencesChars(StripTags(content));
    var ps := SummaryPieces(content);
    assert forall k :: 0 <= k < |ps| ==> ps[k] == sentences[k];
  }

  /** The simple summary holds no '!', no '?' and no '<'. */
  lemma SimpleSummaryChars(content: string)
    ensures '!' !in SummaryOf(content) && '?' !in SummaryOf(content) && '<' !in SummaryOf(content)
  {
    var ps := SummaryPieces(content);
    PiecesHaveNoEnd(content);
    AccumulatedChars(ps);
    TrimBySubset(Accumulated(ps), IsTrimChar);
    forall c | c in SummaryOf(content) ensures c != '!' && c != '?' && c != '<' {
      if c != '.' && c != ' ' {
        var k :| 0 <= k < |ps| && c in ps[k];
      }
    }
  }

  // ---------------------------------------------------------------------
  // generateAISlug and generateAISummary: the AI answer or the fallback
  // ---------------------------------------------------------------------

  /** What the chat client call gives back: an exception, or the content of the first choice (null as ""). */
  datatype ClientReply = ClientThrew | ClientAnswered(content: string)

  /**
   * generateAISlug($title, $content): with a configured key and an answer,
   * the cleaned answer (even when the cleaning leaves ""); with no key or
   * when the client throws, the simple slug of the title. Either way the
   * result is made of `a-z`, `0-9` and `-` and has no `-` at either end.
   */
  function GenerateAISlug(apiKey: string, title: string, reply: ClientReply): (r: string)
    ensures forall i :: 0 <= i < |r| ==> IsSlugChar(r[i])
    ensures r != [] ==> r[0] != '-' && r[|r| - 1] != '-'
    ensures Truthy(apiKey) && reply.ClientAnswered? ==> r == SimpleSlug(Trim(reply.content))
    ensures !Truthy(apiKey) || reply.ClientThrew? ==> r == SimpleSlug(title)
  {
    if Truthy(apiKey) && reply.ClientAnswered? then
      SimpleSlugShape(Trim(reply.content));
      CleanAISlug(reply.content)
    else
      SimpleSlugShape(title);
      SimpleSlug(title)
  }

  /**
   * generateAISummary($content): with a configured key and an answer, the
   * trimmed answer; with no key or when the client throws, the simple
   * summary of the content.
   */
  method GenerateAISummary(apiKey: string, content: string, reply: ClientReply) returns (summary: string)
    ensures Truthy(apiKey) && reply.ClientAnswered? ==> summary == Trim(reply.content)
    ensures !Truthy(apiKey) || reply.ClientThrew? ==> summary == SummaryOf(content)
  {
    if Truthy(apiKey) && reply.ClientAnswered? {
      summary := Trim(reply.content);
    } else {
      summary := SimpleSummary(content);
    }
  }

  // ---------------------------------------------------------------------
  // index: per_page, sort and status parameters
  // ---------------------------------------------------------------------

  const DefaultPerPage: int := 10
  const MinPerPage: int := 1
  const MaxPerPage: int := 100

  /** `min(max($request->get('per_page', 10), 1), 100)`. */
  function PerPage(requested: Option<int>): (r: int)
    ensures MinPerPage <= r <= MaxPerPage
    ensures requested.None? ==> r == DefaultPerPage
    ensures requested.Some? && MinPerPage <= requested.value <= MaxPerPage ==> r == requested.value
    ensures requested.Some? && requested.value < MinPerPage ==> r == MinPerPage
    ensures requested.Some? && requested.value > MaxPerPage ==> r == MaxPerPage
  {
    var p := requested.GetOr(DefaultPerPage);
    var atLeastOne := if p < MinPerPage then MinPerPage else p;
    if atLeastOne > MaxPerPage then MaxPerPage else atLeastOne
  }

  /** Clamping is idempotent: a clamped value passed back as `per_page` is kept. */
  lemma PerPageIdempotent(requested: Option<int>)
    ensures PerPage(Some(PerPage(requested))) == PerPage(requested)
  {
  }

  const AllowedSortFields: seq<string> := ["title", "created_at", "updated_at", "published_at", "status"]
  const DefaultSortField: string := "created_at"
  const AllowedSortOrders: seq<string> := ["asc", "desc"]
  const DefaultSortOrder: string := "desc"

  /** `sort_by`: a whitelisted column is kept, anything else (or nothing) becomes `created_at`. */
  function SortField(requested: Option<string>): (r: string)
    ensures r in AllowedSortFields
    ensures requested.Some? && requested.value in AllowedSortFields <==> requested.Some? && r == requested.value
    ensures !(requested.Some? && requested.value in AllowedSortFields) ==> r == DefaultSortField
  {
    match requested
    case Some(f) => if f in AllowedSortFields then f else DefaultSortField
    case None => DefaultSortField
  }

  /** `sort_order`: `asc` or `desc` is kept, anything else (or nothing) becomes `desc`. */
  function SortOrder(requested: Option<string>): (r: string)
    ensures r in AllowedSortOrders
    ensures requested.Some? && requested.value in AllowedSortOrders <==> requested.Some? && r == requested.value
    ensures !(requested.Some? && requested.value in AllowedSortOrders) ==> r == DefaultSortOrder
  {
    match requested
    case Some(o) => if o in AllowedSortOrders then o else DefaultSortOrder
    case None => DefaultSortOrder
  }

  /**
   * The `status` filter: it applies only when the parameter is present,
   * not empty, and one of `draft`, `published`, `archived`; it then
   * filters on that status.
   */
  function StatusFilter(requested: Option<string>): (r: Option<Status>)
    ensures r.Some? <==> requested.Some? && requested.value in ["draft", "published", "archived"]
    ensures r.Some? ==> StatusName(r.value) == requested.value
  {
    match requested
    case None => None
    case Some(v) => if IsEmpty(v) then None else ParseStatus(v)
  }

  // ---------------------------------------------------------------------
  // store and update
  // ---------------------------------------------------------------------

  /** `'published_at' => $request->status === 'published' ? now() : null`. */
  function PublishedAtFor(status: Status, now: int): (r: Option<int>)
    ensures r.Some? <==> status == Published
    ensures r.Some? ==> r.value == now
  {
    if status == Published then Some(now) else None
  }

  /**
   * store: creates the article from the validated request with the
   * published_at rule; the `creating` hook fills in slug, summary and
   * author, and the `created` hook queues the two jobs.
   */
  method Store(db: ArticleTable, title: string, content: string, summary: string, status: Status,
               authId: Option<int>, now: int) returns (id: int)
    requires db.Valid()
    modifies db
    ensures db.Valid()
    ensures id !in old(db.articles) && id in db.articles
    ensures db.articles == old(db.articles)[id := Creating(
      Article(0, title, "", content, summary, status, PublishedAtFor(status, now), authId), authId).(id := id)]
    ensures db.articles[id].publishedAt.Some? <==> status == Published
    ensures db.queue == old(db.queue) + [SlugJob(id, title, content), SummaryJob(id, content)]
  {
    var attrs := Article(0, title, "", content, summary, status, PublishedAtFor(status, now), authId);
    id := db.Create(attrs, authId);
  }

  /** The attributes `update` passes to `$article->update([...])`. */
  function UpdateChanges(title: string, content: string, summary: string, status: Status, now: int): Changes {
    Changes(Some(title), None, Some(content), Some(summary), Some(status), Some(PublishedAtFor(status, now)))
  }

  /**
   * update: writes title, content, summary, status and the published_at
   * rule to the stored article; the `updating` and `updated` hooks run as
   * for any update.
   */
  method Update(db: ArticleTable, id: int, title: string, content: string, summary: string, status: Status, now: int)
    requires db.Valid() && id in db.articles
    modifies db
    ensures db.Valid()
    ensures db.articles == old(db.articles)[id := Saved(old(db.articles)[id], UpdateChanges(title, content, summary, status, now))]
    ensures db.articles[id].publishedAt.Some? <==> status == Published
    ensures db.articles[id].title == title && db.articles[id].content == content && db.articles[id].status == status
    ensures db.queue == old(db.queue) + UpdatedJobs(db.articles[id], title != old(db.articles)[id].title,
                                                    content != old(db.articles)[id].content)
    ensures db.nextId == old(db.nextId)
  {
    db.Update(id, UpdateChanges(title, content, summary, status, now));
  }
}
