/**
 * AIContentService: the prompts it assembles, the null-returning contract of
 * its OpenAI call, and the choice between the AI answer and the local
 * fallback in generateSlug and generateSummary. The HTTP exchange itself is
 * an input: the outcome the client would observe if a request were sent.
 */
module AIContentService {
  import opened Wrappers
  import opened PhpStrings
  import opened Laravel
  import opened ArticleModel

  /** The token budget of the slug request. */
  const SlugMaxTokens: int := 50
  /** The token budget of the summary request. */
  const SummaryMaxTokens: int := 200

  // ---------------------------------------------------------------------
  // Prompts
  // ---------------------------------------------------------------------

  /** The fixed instructions that open the slug prompt. */
  const SlugInstructions: string :=
    "Generate a unique, SEO-friendly URL slug for this article. The slug should be:\n"
    + "- 3-5 words maximum\n"
    + "- All lowercase\n"
    + "- Words separated by hyphens\n"
    + "- Descriptive and relevant to the content\n"
    + "- No special characters except hyphens\n\n"

  const SlugClosing: string := "Generate only the slug, no additional text:"

  function TitleLine(title: string): string { "Title: " + title + "\n" }

  function PreviewLine(content: string): string { "Content preview: " + Excerpt(content) + "\n\n" }

  /** The optional preview part: present only for non-empty content. */
  function PreviewPart(content: string): string {
    if IsEmpty(content) then "" else PreviewLine(content)
  }

  /** The slug prompt: instructions, the title line, the preview line when content is non-empty, the closing line. */
  function SlugPrompt(title: string, content: string): string {
    SlugInstructions + TitleLine(title) + PreviewPart(content) + SlugClosing
  }

  /**
   * The prompt as generateSlug builds it: the instruction lines, the title
   * line, the preview line when the content is non-empty, and the closing
   * line, appended one after the other.
   */
  method BuildSlugPrompt(title: string, content: string) returns (prompt: string)
    ensures prompt == SlugPrompt(title, content)
  {
    prompt := "Generate a unique, SEO-friendly URL slug for this article. The slug should be:\n";
    prompt := prompt + "- 3-5 words maximum\n";
    prompt := prompt + "- All lowercase\n";
    prompt := prompt + "- Words separated by hyphens\n";
    prompt := prompt + "- Descriptive and relevant to the content\n";
    prompt := prompt + "- No special characters except hyphens\n\n";
    prompt := prompt + TitleLine(title);
    if !IsEmpty(content) {
      prompt := prompt + PreviewLine(content);
    }
    prompt := prompt + SlugClosing;
  }

  /** The title line always sits right after the instructions, and the prompt ends with the closing line. */
  lemma SlugPromptHasTitle(title: string, content: string)
    ensures var p, n := SlugPrompt(title, content), |SlugInstructions|;
      && n + |TitleLine(title)| <= |p|
      && p[n..n + |TitleLine(title)|] == TitleLine(title)
      && p[|p| - |SlugClosing|..] == SlugClosing
  {
    var t, v := TitleLine(title), PreviewPart(content);
    InfixAt(SlugInstructions, t, v + SlugClosing);
    SuffixAt(SlugInstructions + t + v, SlugClosing);
    SeqAssoc(SlugInstructions + t, v, SlugClosing);
  }

  /** For non-empty content the preview line follows the title line. */
  lemma SlugPromptHasPreview(title: string, content: string)
    requires !IsEmpty(content)
    ensures var p, n := SlugPrompt(title, content), |SlugInstructions| + |TitleLine(title)|;
      && n + |PreviewLine(content)| <= |p|
      && p[n..n + |PreviewLine(content)|] == PreviewLine(content)
  {
    var t, v := TitleLine(title), PreviewLine(content);
    InfixAt(SlugInstructions + t, v, SlugClosing);
  }

  /** The content changes the slug prompt if and only if it is non-empty. */
  lemma SlugPromptPreviewIff(title: string, content: string)
    ensures SlugPrompt(title, content) == SlugPrompt(title, "") <==> IsEmpty(content)
  {
    if !IsEmpty(content) {
      assert |SlugPrompt(title, content)| > |SlugPrompt(title, "")|;
    }
  }

  /** The fixed instructions that open the summary prompt. */
  const SummaryInstructions: string :=
    "Generate a brief, engaging summary of this article content in 2-3 sentences. "
    + "The summary should:\n"
    + "- Be 100-150 characters maximum\n"
    + "- Capture the main points\n"
    + "- Be written in a professional tone\n"
    + "- Not include HTML tags\n\n"

  const SummaryClosing: string := "Summary:"

  /** The summary prompt: instructions, the stripped content, the closing line. */
  function SummaryPrompt(content: string): string {
    SummaryInstructions + "Content: " + StripTags(content) + "\n\n" + SummaryClosing
  }

  /** The prompt as generateSummary builds it, line by line. */
  method BuildSummaryPrompt(content: string) returns (prompt: string)
    ensures prompt == SummaryPrompt(content)
  {
    prompt := "Generate a brief, engaging summary of this article content in 2-3 sentences. ";
    prompt := prompt + "The summary should:\n";
    prompt := prompt + "- Be 100-150 characters maximum\n";
    prompt := prompt + "- Capture the main points\n";
    prompt := prompt + "- Be written in a professional tone\n";
    prompt := prompt + "- Not include HTML tags\n\n";
    prompt := prompt + "Content: " + StripTags(content) + "\n\n";
    prompt := prompt + SummaryClosing;
  }

  /** The stripped content sits right after the "Content: " label. */
  lemma SummaryPromptHasContent(content: string)
    ensures var p, n := SummaryPrompt(content), |SummaryInstructions| + |"Content: "|;
      && n + |StripTags(content)| <= |p|
      && p[n..n + |StripTags(content)|] == StripTags(content)
  {
    var x := StripTags(content);
    InfixAt(SummaryInstructions + "Content: ", x, "\n\n" + SummaryClosing);
    SeqAssoc(SummaryInstructions + "Content: " + x, "\n\n", SummaryClosing);
  }

  // ---------------------------------------------------------------------
  // callOpenAI
  // ---------------------------------------------------------------------

  /** A chat-completion request: the user prompt and the token budget. */
  datatype ChatRequest = ChatRequest(prompt: string, maxTokens: int)

  /**
   * What the HTTP client would observe for a request: an exception, or a
   * reply with its success flag and the `choices[0].message.content` field
   * of its body (None when the field is missing or null).
   */
  datatype HttpOutcome = HttpThrew | HttpReplied(successful: bool, content: Option<string>)

  /** One call: the request sent, if any, and the value returned (None is null). */
  datatype ApiCall = ApiCall(sent: Option<ChatRequest>, response: Option<string>)

  /**
   * callOpenAI($prompt, $maxTokens): with an empty key nothing is sent and
   * null is returned; otherwise the request is sent, and the content of a
   * successful reply is returned. A failed status, a missing content and an
   * exception all give null; the call itself never throws.
   */
  function CallOpenAI(apiKey: string, prompt: string, maxTokens: int, outcome: HttpOutcome): (call: ApiCall)
    ensures call.sent.None? <==> IsEmpty(apiKey)
    ensures call.sent.Some? ==> call.sent.value == ChatRequest(prompt, maxTokens)
    ensures call.response.Some? <==>
      !IsEmpty(apiKey) && outcome.HttpReplied? && outcome.successful && outcome.content.Some?
    ensures call.response.Some? ==> outcome.content == call.response
  {
    if IsEmpty(apiKey) then ApiCall(None, None)
    else
      var response :=
        match outcome
        case HttpThrew => None
        case HttpReplied(ok, content) => if ok then content else None;
      ApiCall(Some(ChatRequest(prompt, maxTokens)), response)
  }

  /** PHP truthiness of a nullable string: null, "" and "0" are false. */
  predicate TruthyResponse(r: Option<string>) { r.Some? && Truthy(r.value) }

  // ---------------------------------------------------------------------
  // generateSlug and generateSummary
  // ---------------------------------------------------------------------

  /** The request generateSlug sends (if a key is configured). */
  function SlugCall(apiKey: string, title: string, content: string, outcome: HttpOutcome): ApiCall {
    CallOpenAI(apiKey, SlugPrompt(title, content), SlugMaxTokens, outcome)
  }

  /**
   * generateSlug($title, $content): Str::slug of a truthy response when
   * that slug is truthy, otherwise Str::slug of the title. The result is
   * always a slug, and it is the title's slug whenever no key is set.
   */
  function GenerateSlug(apiKey: string, title: string, content: string, outcome: HttpOutcome): (r: string)
    ensures IsSlug(r)
    ensures var resp := SlugCall(apiKey, title, content, outcome).response;
      if TruthyResponse(resp) && Truthy(StrSlug(resp.value)) then r == StrSlug(resp.value) else r == StrSlug(title)
    ensures IsEmpty(apiKey) ==> r == StrSlug(title)
  {
    var resp := SlugCall(apiKey, title, content, outcome).response;
    if TruthyResponse(resp) then
      var slug := StrSlug(resp.value);
      if Truthy(slug) then slug else StrSlug(title)
    else StrSlug(title)
  }

  /** The request generateSummary sends (if a key is configured). */
  function SummaryCall(apiKey: string, content: string, outcome: HttpOutcome): ApiCall {
    CallOpenAI(apiKey, SummaryPrompt(content), SummaryMaxTokens, outcome)
  }

  /**
   * With a key configured, generateSlug sends its prompt with a budget of
   * 50 tokens and generateSummary sends its prompt with a budget of 200.
   */
  lemma RequestsCarryBudgets(apiKey: string, title: string, content: string, outcome: HttpOutcome)
    requires !IsEmpty(apiKey)
    ensures SlugCall(apiKey, title, content, outcome).sent == Some(ChatRequest(SlugPrompt(title, content), 50))
    ensures SummaryCall(apiKey, content, outcome).sent == Some(ChatRequest(SummaryPrompt(content), 200))
  {
  }

  /**
   * generateSummary($content): for a truthy response, Str::limit of the
   * trimmed, tag-stripped response; otherwise the excerpt of the content.
   * Either way the result holds no `<` and is at most 200 characters plus
   * "...".
   */
  function GenerateSummary(apiKey: string, content: string, outcome: HttpOutcome): (r: string)
    ensures '<' !in r
    ensures |r| <= SummaryLimit + 3
    ensures var resp := SummaryCall(apiKey, content, outcome).response;
      if TruthyResponse(resp) then r == StrLimit(Trim(StripTags(resp.value)), SummaryLimit) else r == Excerpt(content)
    ensures IsEmpty(apiKey) ==> r == Excerpt(content)
  {
    var resp := SummaryCall(apiKey, content, outcome).response;
    if TruthyResponse(resp) then
      var cleaned := Trim(StripTags(resp.value));
      TrimBySubset(StripTags(resp.value), IsTrimChar);
      StrLimitChars(cleaned, SummaryLimit);
      StrLimit(cleaned, SummaryLimit)
    else Excerpt(content)
  }

  /** A reply that brings a truthy content: the only outcome from which an AI answer is used. */
  predicate UsableOutcome(outcome: HttpOutcome) {
    outcome.HttpReplied? && outcome.successful && outcome.content.Some? && Truthy(outcome.content.value)
  }

  /**
   * An exception, a failed status, a missing or falsy content, or a missing
   * key all give the title's slug: generateSlug never fails.
   */
  lemma GenerateSlugFallback(apiKey: string, title: string, content: string, outcome: HttpOutcome)
    requires IsEmpty(apiKey) || !UsableOutcome(outcome)
    ensures GenerateSlug(apiKey, title, content, outcome) == StrSlug(title)
  {
  }

  /** With a key and a usable reply, the AI slug is used exactly when its Str::slug is truthy. */
  lemma GenerateSlugUsesAnswer(apiKey: string, title: string, content: string, outcome: HttpOutcome)
    requires !IsEmpty(apiKey) && UsableOutcome(outcome)
    ensures var answer := StrSlug(outcome.content.value);
      GenerateSlug(apiKey, title, content, outcome) == if Truthy(answer) then answer else StrSlug(title)
  {
  }

  /** An exception, a failed status, a missing or falsy content, or a missing key all give the excerpt. */
  lemma GenerateSummaryFallback(apiKey: string, content: string, outcome: HttpOutcome)
    requires IsEmpty(apiKey) || !UsableOutcome(outcome)
    ensures GenerateSummary(apiKey, content, outcome) == Excerpt(content)
  {
  }

  /** With a key and a usable reply, the summary is the cleaned and limited answer. */
  lemma GenerateSummaryUsesAnswer(apiKey: string, content: string, outcome: HttpOutcome)
    requires !IsEmpty(apiKey) && UsableOutcome(outcome)
    ensures GenerateSummary(apiKey, content, outcome) == StrLimit(Trim(StripTags(outcome.content.value)), SummaryLimit)
  {
  }
}
