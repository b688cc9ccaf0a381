# ai-cms content-enrichment core in Dafny

This project models the deterministic core of the ai-cms article pipeline. That core gives each article a URL slug and a summary. There are two ways to get them:

- Local fallbacks: the controller's simple slug and simple summary, and the framework's `Str::slug` and `Str::limit(strip_tags(...), 200)`.
- An AI answer, used when an OpenAI key is configured and the call returns something usable.

The model covers:

- the rules that choose between the AI answer and the fallback;
- the string functions themselves;
- the `index` parameter normalisation;
- the `published_at` rule of `store` and `update`;
- the Eloquent lifecycle hooks of `Article` and `Category`, which fill in slugs, summaries and authors and queue jobs;
- the two queued jobs. `GenerateSlugJob` makes the AI slug unique across the article table by probing `s`, `s-1`, `s-2`, … and writes it. `GenerateSummaryJob` writes the AI summary.

The files:

- `wrappers.dfy`: `Option`.
- `php_strings.dfy`: PHP's character classes, truthiness, `strtolower`, `trim`, a regex-like run replacement and integer-to-string conversion, with the lemmas about them.
- `laravel.dfy`: simplified bodies for `Str::slug`, `Str::limit` and `strip_tags`, with the properties that the controller and the jobs rely on.
- `article.dfy`: the article record, the status predicates, and the `creating`/`updating`/`updated` hooks as functions. Also the `ArticleTable` class: rows, auto-increment counter and job queue. Its methods are `create`, `update`, `publish`, `archive`, `regenerateSlug`, `regenerateSummary` and the `created`/`updated` hooks.
- `article_controller.dfy`: `generateSimpleSlug`, the AI-slug cleaning, `generateSimpleSummary` (a method with its loop), `generateAISlug`/`generateAISummary`, the `per_page`/sort/status normalisation of `index`, and `store`/`update`.
- `ai_content_service.dfy`: the two prompts, `callOpenAI` with the HTTP outcome as an input, and the selection rules of `generateSlug`/`generateSummary`.
- `generate_slug_job.dfy`: `makeSlugUnique` (a while loop with a termination bound), `handle`, `generateFallbackSlug` and `failed`.
- `generate_summary_job.dfy`: `handle`, `generateFallbackSummary` and `failed`.
- `category.dfy`: the category record, its slug hooks, and the category table.

PHP's loose truthiness is modelled as `Truthy(s) = s != "" && s != "0"`; `empty()` is its negation. A null string column or request value is modelled as `""`. It appears in these checks:

- `if ($response)`: a response `"0"` is treated like no response.
- `$slug ?: Str::slug($title)`: an AI slug `"0"` falls back to the title's slug.
- `if (trim($piece))`: a sentence `"0"` is skipped.
- `empty($article->slug)`.

Outside input is a parameter:

- The HTTP exchange of `callOpenAI` is an `HttpOutcome` (exception, or a reply with a status flag and an optional content).
- The OpenAI client call inside the controller is a `ClientReply`.
- The API key is a string.
- `Auth::id()` and `now()` are values passed in.

## Model

| member | source | states |
|---|---|---|
| ArticleController.SimpleSlug | app/Http/Controllers/ArticleController.php:595-603 | generateSimpleSlug as the composition strtolower, the `[^a-z0-9\s-]` filter, the `\s+` to `-` replacement, and `trim($slug, '-')`; its properties are the lemmas in the rows below |
| ArticleController.SimpleSlugShape | app/Http/Controllers/ArticleController.php:595-603 | the simple slug holds only `a-z`, `0-9` and `-` (so no whitespace) and neither starts nor ends with `-` |
| ArticleController.SimpleSlugFixesSlugs | app/Http/Controllers/ArticleController.php:597-600 | any string of slug characters without a `-` at either end is returned unchanged |
| ArticleController.SimpleSlugIdempotent | app/Http/Controllers/ArticleController.php:597-600 | applying generateSimpleSlug to its own output gives the same string |
| ArticleController.SimpleSlugHelloWorld | app/Http/Controllers/ArticleController.php:597-602 | "Hello, World! 2024" gives "hello-world-2024" |
| ArticleController.SimpleSlugHyphenRun | app/Http/Controllers/ArticleController.php:598-600 | hyphen runs are not collapsed: "a - b" gives "a---b" |
| ArticleController.SimpleSlugAllSymbols | app/Http/Controllers/ArticleController.php:597-602 | every title without a letter, digit, whitespace or `-` gives the empty slug |
| ArticleController.CleanAISlug | app/Http/Controllers/ArticleController.php:556-560 | cleaning an AI answer yields exactly the simple slug of the trimmed answer |
| ArticleController.LowerFilterCommute | app/Http/Controllers/ArticleController.php:558 | filtering with `[a-zA-Z0-9\s-]` then lower-casing equals lower-casing then filtering with `[a-z0-9\s-]` (the class used at line 598) |
| ArticleController.SplitSentences | app/Http/Controllers/ArticleController.php:579 | `preg_split('/[.!?]+/')`: the pieces between maximal terminator runs, empty pieces included, so there is always at least one piece |
| ArticleController.SplitSentencesChars | app/Http/Controllers/ArticleController.php:579 | every piece of `preg_split('/[.!?]+/')` holds no terminator and only characters of the text |
| ArticleController.SplitSentencesConcat | app/Http/Controllers/ArticleController.php:579 | the pieces glued back together are the text with its terminators removed, so no other character is lost |
| ArticleController.SimpleSummary | app/Http/Controllers/ArticleController.php:576-590 | the loop over the first min(3, count) pieces appends `trim(piece) . ". "` for each truthy trimmed piece, and the result is the trimmed accumulator (`SummaryOf`) |
| ArticleController.AccumulatedShape | app/Http/Controllers/ArticleController.php:583-587 | the accumulator is empty iff no piece is kept; otherwise it starts with a character trim() keeps and ends with ". " |
| ArticleController.AccumulatedDots | app/Http/Controllers/ArticleController.php:583-587 | when the pieces hold no '.', the accumulator holds exactly one '.' per kept piece |
| ArticleController.SimpleSummaryShape | app/Http/Controllers/ArticleController.php:579-589 | the summary is "" iff none of the first three pieces is kept; otherwise it ends with '.' and does not start with a character trim() removes (a form feed can still lead, since trim() keeps it) |
| ArticleController.SimpleSummaryDots | app/Http/Controllers/ArticleController.php:579-589 | the summary holds one '.' per kept sentence, at most three |
| ArticleController.SimpleSummaryChars | app/Http/Controllers/ArticleController.php:578-589 | the summary holds no '!' and no '?', and, with strip_tags as simplified here, no '<' |
| ArticleController.GenerateAISlug | app/Http/Controllers/ArticleController.php:533-571 | with a key and an answer, the cleaned answer; with no key or an exception, the simple slug of the title; either way only slug characters and no `-` at either end |
| ArticleController.GenerateAISummary | app/Http/Controllers/ArticleController.php:496-528 | with a key and an answer, the trimmed answer; otherwise the simple summary of the content |
| ArticleController.PerPage | app/Http/Controllers/ArticleController.php:104-105 | the page size lies in [1, 100]; it is the request value when that is in range, 1 below and 100 above the range, and 10 when absent |
| ArticleController.PerPageIdempotent | app/Http/Controllers/ArticleController.php:105 | a clamped page size is kept when passed back |
| ArticleController.SortField | app/Http/Controllers/ArticleController.php:88-95 | sort_by is always whitelisted; it is the requested column iff that column is whitelisted, else `created_at` |
| ArticleController.SortOrder | app/Http/Controllers/ArticleController.php:89-99 | sort_order is always `asc` or `desc`; it is the request value iff that is allowed, else `desc` |
| ArticleController.StatusFilter | app/Http/Controllers/ArticleController.php:27-31 | the status filter applies iff the parameter is one of `draft`, `published`, `archived`, and then filters on that status |
| ArticleController.PublishedAtFor | app/Http/Controllers/ArticleController.php:178 | published_at is non-null iff the status is published, and is then now |
| ArticleController.Store | app/Http/Controllers/ArticleController.php:172-179 | a fresh row is inserted through the creating hook; published_at is set iff the status is published; the slug job and then the summary job are queued |
| ArticleController.Update | app/Http/Controllers/ArticleController.php:278-284 | title, content and status are written; published_at is non-null iff the status is published; the row goes through the updating hook; a slug job is queued iff the title changed and a summary job iff the content changed; the id counter is unchanged |
| ArticleModel.ParseStatus | app/Models/Article.php:129-148 | a stored string denotes exactly the status whose name it is |
| ArticleModel.IsPublished | app/Models/Article.php:129-132 | `isPublished()`: the status is published |
| ArticleModel.IsDraft | app/Models/Article.php:137-140 | `isDraft()`: the status is draft |
| ArticleModel.IsArchived | app/Models/Article.php:145-148 | `isArchived()`: the status is archived |
| ArticleModel.Excerpt | app/Models/Article.php:46 | `Str::limit(strip_tags(content), 200)` is at most 203 characters, is the whole stripped text when that fits, and, with strip_tags as simplified here, holds no '<' |
| ArticleModel.Creating | app/Models/Article.php:34-48 | an unset author becomes the authenticated user; an empty slug becomes Str::slug(title); an empty summary becomes the excerpt; supplied values and all other fields are kept |
| ArticleModel.Updating | app/Models/Article.php:60-70 | the slug is recomputed only when the title is dirty and the slug empty, the summary only when the content is dirty and the summary empty; nothing else changes |
| ArticleModel.UpdatedJobs | app/Models/Article.php:73-83 | a slug job is queued iff the title changed and a summary job iff the content changed, slug job first |
| ArticleModel.Fill | app/Models/Article.php:15-23 | each supplied attribute (title, slug, content, summary, status, published_at) replaces the stored one and each absent one is kept; id and author are kept |
| ArticleModel.Saved | app/Models/Article.php:60-70 | the row `$article->update($ch)` stores: title, content, status and published_at take the supplied values; a non-empty slug or summary is stored as given; an empty slug becomes Str::slug(title) exactly when the title changed, an empty summary the excerpt exactly when the content changed |
| ArticleModel.SavedWithoutTextChange | app/Models/Article.php:60-83 | an update touching neither title nor content stores the filled row unchanged and queues nothing |
| ArticleModel.ArticleTable.Created | app/Models/Article.php:51-57 | appends exactly SlugJob(id, title, content) then SummaryJob(id, content) |
| ArticleModel.ArticleTable.Updated | app/Models/Article.php:73-83 | appends the jobs of UpdatedJobs and nothing else |
| ArticleModel.ArticleTable.Create | app/Models/Article.php:34-57 | a fresh id, the row after the creating hook, and the two jobs of the created hook |
| ArticleModel.ArticleTable.Update | app/Models/Article.php:60-83 | the row becomes the filled record after the updating hook; the updated hook's jobs are queued |
| ArticleModel.ArticleTable.Publish | app/Models/Article.php:153-159 | status becomes published and published_at becomes now; no other field or row changes and nothing is queued |
| ArticleModel.ArticleTable.Archive | app/Models/Article.php:164-169 | status becomes archived; published_at and every other field are kept and nothing is queued |
| ArticleModel.ArticleTable.RegenerateSlug | app/Models/Article.php:174-177 | queues one slug job with the stored title and content; no row changes |
| ArticleModel.ArticleTable.RegenerateSummary | app/Models/Article.php:182-185 | queues one summary job with the stored content; no row changes |
| AIContentService.BuildSlugPrompt | app/Services/AIContentService.php:26-36 | the step-by-step prompt equals SlugPrompt: instructions, title line, preview line when content is non-empty, closing line |
| AIContentService.SlugPromptHasTitle | app/Services/AIContentService.php:32 | the title line always follows the instructions, and the prompt ends with the closing line |
| AIContentService.SlugPromptHasPreview | app/Services/AIContentService.php:33-35 | for non-empty content the preview line follows the title line |
| AIContentService.SlugPromptPreviewIff | app/Services/AIContentService.php:33-35 | the content changes the prompt iff it is non-empty |
| AIContentService.BuildSummaryPrompt | app/Services/AIContentService.php:59-66 | the step-by-step prompt equals SummaryPrompt |
| AIContentService.SummaryPromptHasContent | app/Services/AIContentService.php:65 | the stripped content sits right after the "Content: " label |
| AIContentService.CallOpenAI | app/Services/AIContentService.php:86-120 | no request is sent iff the key is empty; a value is returned iff a key is set and the reply is successful with a content, which is then returned; otherwise null |
| AIContentService.RequestsCarryBudgets | app/Services/AIContentService.php:38-68 | with a key set, the request generateSlug sends carries its prompt and 50 tokens, and the one generateSummary sends carries its prompt and 200 tokens |
| AIContentService.GenerateSlug | app/Services/AIContentService.php:23-51 | Str::slug of a truthy response when that slug is truthy, else Str::slug(title); always a well-formed slug |
| AIContentService.GenerateSlugFallback | app/Services/AIContentService.php:38-50 | no key, an exception, a failed status or a missing or falsy content all give Str::slug(title) |
| AIContentService.GenerateSlugUsesAnswer | app/Services/AIContentService.php:40-43 | with a key and a usable reply, the AI slug is used iff it is truthy |
| AIContentService.GenerateSummary | app/Services/AIContentService.php:56-81 | a truthy response gives Str::limit(trim(strip_tags(response)), 200), anything else the excerpt; at most 203 characters, and no '<' with strip_tags as simplified here |
| AIContentService.GenerateSummaryFallback | app/Services/AIContentService.php:68-80 | no key, an exception, a failed status or a missing or falsy content all give the excerpt |
| AIContentService.GenerateSummaryUsesAnswer | app/Services/AIContentService.php:70-74 | with a key and a usable reply, the summary is the cleaned and limited answer |
| GenerateSlugJob.Taken | app/Jobs/GenerateSlugJob.php:72 | `Article::where('slug', $slug)->where('id', '!=', $excludeId)->exists()`: some article other than the excluded one holds the slug |
| GenerateSlugJob.CandidateInjective | app/Jobs/GenerateSlugJob.php:73 | different counters give different candidates |
| GenerateSlugJob.CandidatesTakenBound | app/Jobs/GenerateSlugJob.php:72-75 | the first n candidates can all be taken only if the table has at least n articles |
| GenerateSlugJob.FreeFrom | app/Jobs/GenerateSlugJob.php:72-75 | the first free counter exists and is at most the number of articles |
| GenerateSlugJob.UniqueSlugIsFirstFree | app/Jobs/GenerateSlugJob.php:69-77 | the result is `s` or `s-k` with k at most the number of articles, held by no other article, and every earlier candidate is taken |
| GenerateSlugJob.UniqueSlugKeepsFree | app/Jobs/GenerateSlugJob.php:69-77 | a slug no other article holds is returned unchanged |
| GenerateSlugJob.UniqueSlugIgnoresExcluded | app/Jobs/GenerateSlugJob.php:72 | the excluded article's own row does not affect the result |
| GenerateSlugJob.MakeSlugUnique | app/Jobs/GenerateSlugJob.php:67-78 | the probing loop terminates (the counter never exceeds the number of articles plus one) and returns the first free candidate |
| GenerateSlugJob.WriteUniqueSlug | app/Jobs/GenerateSlugJob.php:49-52 | after writing the unique slug it is held by that article alone, and a table without shared slugs stays so |
| GenerateSlugJob.WriteSlug | app/Jobs/GenerateSlugJob.php:52 | only the target article's slug changes and nothing is queued |
| GenerateSlugJob.Handle | app/Jobs/GenerateSlugJob.php:35-62 | a missing article means no write; otherwise only its slug changes, to makeSlugUnique(generateSlug(title, content), id), which no other article holds |
| GenerateSlugJob.FallbackSlug | app/Jobs/GenerateSlugJob.php:83-90 | the target's slug becomes makeSlugUnique(Str::slug(title), id), held by no other article |
| GenerateSlugJob.Failed | app/Jobs/GenerateSlugJob.php:95-104 | the fallback slug is written iff the article exists, otherwise nothing changes |
| GenerateSummaryJob.WriteSummary | app/Jobs/GenerateSummaryJob.php:49 | only the target article's summary changes and nothing is queued |
| GenerateSummaryJob.Handle | app/Jobs/GenerateSummaryJob.php:35-59 | a missing article means no write; otherwise only its summary changes, to generateSummary of the content captured with the job |
| GenerateSummaryJob.FallbackSummary | app/Jobs/GenerateSummaryJob.php:64-70 | only the target's summary changes, to the excerpt of the captured content |
| GenerateSummaryJob.Failed | app/Jobs/GenerateSummaryJob.php:75-84 | the fallback summary is written iff the article exists |
| CategoryModel.Creating | app/Models/Category.php:22-26 | an empty slug becomes Str::slug(name), a supplied slug is kept, and no other field changes |
| CategoryModel.Updating | app/Models/Category.php:29-33 | the slug is recomputed only when the name is dirty and the slug empty; no other field changes |
| CategoryModel.HooksKeepSuppliedSlug | app/Models/Category.php:22-33 | a category with a slug passes both hooks unchanged |
| CategoryModel.CreatingSettles | app/Models/Category.php:22-26 | once creating gave a truthy slug, running it again changes nothing |
| CategoryModel.CategoryTable.Create | app/Models/Category.php:22-26 | a fresh id and the row after the creating hook |
| CategoryModel.CategoryTable.Update | app/Models/Category.php:29-33 | the filled row after the updating hook, dirty meaning the name changed |
| Laravel.StrSlug | app/Models/Article.php:42 | Str::slug(title) as simplified here is always a well-formed slug: `a-z0-9-`, no edge or doubled hyphen |
| Laravel.StrLimit | app/Models/Article.php:46 | a short value is returned unchanged; a longer one is a prefix of it plus "..."; at most limit + 3 characters |
| Laravel.StripTags | app/Models/Article.php:46 | strip_tags as simplified here keeps only characters that occur in its input, is no longer than it, drops NUL bytes and leaves no '<' |
| Laravel.StripTagsIsSubsequence | app/Models/Article.php:46 | strip_tags as simplified here only deletes characters: its result is a subsequence of its input, so nothing is reordered or repeated |
| Laravel.StripTagsIdempotent | app/Http/Controllers/ArticleController.php:437-440 | stripping twice is stripping once; the content stripped at line 437 is stripped again by generateSimpleSummary at line 578 |
| PhpStrings.TrimBy | app/Http/Controllers/ArticleController.php:600 | `trim($s, '-')` is a slice of its input with no trimmed character at either end; every character removed before or after the slice is a trimmed character; text already trimmed is returned unchanged |
| PhpStrings.NatToStringInjective | app/Jobs/GenerateSlugJob.php:73 | different counters print differently |

## Left out

- HTTP plumbing of the controllers is not modelled: request validation, authorisation and role checks, Eloquent query building, the date and search filters, pagination and JSON responses. Only the local rules listed above are modelled. `CategoryController` is not part of this model. Its sort and `per_page` rules have the same shape as the article rules, with other columns and defaults: sort columns name, articles_count and created_at, defaults name and asc, and a page size of 20.
- The network calls are not modelled. The HTTP request of `callOpenAI` and the OpenAI client calls of the controller are foreign I/O. Their outcome is an input (`HttpOutcome`, `ClientReply`), and the controller's prompt text, `substr` limits and model name are not modelled.
- Dispatching a job is an append to the table's `queue`. Running the queue worker, retries (`$tries`), timeouts, the queue name and the async closures `generateSlugAsync`/`generateSummaryAsync` are framework behaviour and are not modelled.
- Each job is modelled as running alone. The race between `makeSlugUnique`'s probe and the later write cannot be expressed in a sequential model.
- The `catch` branches of both jobs' `handle` are not modelled. They call the fallback with `$article`, which may be unset at that point, so their meaning depends on where the exception came from. `failed` and the fallbacks are modelled when called on an existing article.
- Logging, the 0.7 temperature, the base URL and the request headers are not modelled; none of them affects a result.
- `Str::slug`, `Str::limit` and `strip_tags` are framework and PHP library code. Laravel.StrSlug, Laravel.StrLimit and Laravel.StripTags are simplified bodies over ASCII text:
  - no transliteration, and no multibyte character counting;
  - letters and digits are the ASCII ones: Laravel's `\pL`/`\pN` classes also keep non-ASCII letters and digits, and its lower-casing is multibyte;
  - strip_tags treats every `<` as the start of a tag running to the next `>`, and ignores quoting, comments and PHP tags.
  The slug shape, the prefix plus "..." and the absence of `<` are proved of these simplified bodies, not of the library code.
- Laravel.StripTags: PHP copies a `<` that is followed by whitespace, together with the text after it, so strip_tags("1 < 2") is "1 < 2". The simplified body drops `<` and everything up to the next `>` instead, and gives "1 ". For content with such a `<`, the modelled excerpt and summaries therefore differ from the program's. The "no `<`" results of ArticleModel.Excerpt, AIContentService.GenerateSummary and ArticleController.SimpleSummaryChars hold for the simplified body only. Under PHP's rule, the result holds no `<` that opens a tag.
- `Auth::id()` and `now()` are parameters. Timestamps are integers, and casts to datetime are not modelled.
- `per_page` is modelled as an integer or absent. PHP's comparison of a non-numeric `per_page` string with integers inside `min`/`max` is not modelled.
- ArticleController.PerPage: a request with an empty `per_page` (`?per_page=`) carries the key with the value `""` or null, so `get` does not fall back to 10, and `max(…, 1)` gives 1. The model has no value for a present but empty parameter: `None` stands for an absent key only, and the "10 when absent" clause does not cover the empty case.
- A null slug or summary column is modelled as `""`, which `empty()` treats the same way. Database collation, and the difference between NULL and `""` in the `where('slug', …)` lookup, are not modelled.
- ArticleController.GenerateAISlug and ArticleController.GenerateAISummary: the client reply is an exception or a content string. A reply without a `choices[0]` entry, which would raise inside the `try` and so take the fallback like an exception, is covered as `ClientThrew`.
- ArticleController.SimpleSummary: no length bound is stated, because the code applies none.
- The code governs where a plain reading of the intended behaviour differs from it, and the model follows the code:
  - generateSimpleSlug keeps runs of `-` from the title and can return "".
  - generateSimpleSummary can return "": content such as "!!!" has no kept sentence.
  - Articles created with a supplied or `Str::slug` slug are not made unique until the slug job runs.
  - A response or AI slug equal to `"0"` counts as absent.
