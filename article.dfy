/**
 * The Article model: its record, the status predicates, the `creating`
 * and `updating` hooks that fill in the slug, summary and author of a
 * pending record, and the article table with the job queue, whose methods
 * are the model operations that write rows (`create`, `update`, `publish`,
 * `archive`) or dispatch jobs (`created`, `updated`, `regenerateSlug`,
 * `regenerateSummary`).
 */
module ArticleModel {
  import opened Wrappers
  import opened PhpStrings
  import opened Laravel

  datatype Status = Draft | Published | Archived

  /** The string stored in the `status` column. */
  function StatusName(s: Status): string {
    match s
    case Draft => "draft"
    case Published => "published"
    case Archived => "archived"
  }

  /** The status a stored string denotes, if it is one of the three names. */
  function ParseStatus(s: string): (r: Option<Status>)
    ensures r.Some? ==> StatusName(r.value) == s
    ensures forall st: Status :: StatusName(st) == s ==> r == Some(st)
  {
    if s == "draft" then Some(Draft)
    else if s == "published" then Some(Published)
    else if s == "archived" then Some(Archived)
    else None
  }

  /** One row of the `articles` table. A null timestamp or author is None. */
  datatype Article = Article(
    id: int,
    title: string,
    slug: string,
    content: string,
    summary: string,
    status: Status,
    publishedAt: Option<int>,
    authorId: Option<int>)

  predicate IsPublished(a: Article) { a.status == Published }
  predicate IsDraft(a: Article) { a.status == Draft }
  predicate IsArchived(a: Article) { a.status == Archived }

  /** A queued job: GenerateSlugJob(id, title, content) or GenerateSummaryJob(id, content). */
  datatype Job =
    | SlugJob(articleId: int, title: string, content: string)
    | SummaryJob(articleId: int, content: string)

  /** The summary limit used by every Str::limit call of the pipeline. */
  const SummaryLimit: nat := 200

  /**
   * Str::limit(strip_tags(content), 200): the excerpt the hooks and the
   * summary fallbacks use. It holds no markup, is at most 200 characters
   * plus the "..." marker, and is the whole stripped text when that fits.
   */
  function Excerpt(content: string): (r: string)
    ensures forall c :: c in r ==> c != '<'
    ensures |r| <= SummaryLimit + 3
    ensures |StripTags(content)| <= SummaryLimit ==> r == StripTags(content)
  {
    StrLimitChars(StripTags(content), SummaryLimit);
    StrLimit(StripTags(content), SummaryLimit)
  }

  /** PHP empty() of the author id: null or 0. */
  predicate AuthorUnset(a: Option<int>) { a == None || a == Some(0) }

  /**
   * The `creating` hook, applied to the record about to be inserted: an
   * unset author becomes the authenticated user, an empty slug becomes
   * Str::slug(title), an empty summary becomes the excerpt of the content;
   * supplied values are kept, and no other field changes.
   */
  function Creating(a: Article, authId: Option<int>): (r: Article)
    ensures AuthorUnset(a.authorId) ==> r.authorId == authId
    ensures !AuthorUnset(a.authorId) ==> r.authorId == a.authorId
    ensures IsEmpty(a.slug) ==> r.slug == StrSlug(a.title)
    ensures !IsEmpty(a.slug) ==> r.slug == a.slug
    ensures IsEmpty(a.summary) ==> r.summary == Excerpt(a.content)
    ensures !IsEmpty(a.summary) ==> r.summary == a.summary
    ensures r.(slug := a.slug, summary := a.summary, authorId := a.authorId) == a
  {
    var author := if AuthorUnset(a.authorId) then authId else a.authorId;
    var slug := if IsEmpty(a.slug) then StrSlug(a.title) else a.slug;
    var summary := if IsEmpty(a.summary) then Excerpt(a.content) else a.summary;
    a.(authorId := author, slug := slug, summary := summary)
  }

  /**
   * The `updating` hook, applied to the filled record before it is saved:
   * the slug is recomputed only when the title is dirty and the slug is
   * empty, the summary only when the content is dirty and the summary is
   * empty; no other field changes.
   */
  function Updating(a: Article, titleDirty: bool, contentDirty: bool): (r: Article)
    ensures titleDirty && IsEmpty(a.slug) ==> r.slug == StrSlug(a.title)
    ensures !(titleDirty && IsEmpty(a.slug)) ==> r.slug == a.slug
    ensures contentDirty && IsEmpty(a.summary) ==> r.summary == Excerpt(a.content)
    ensures !(contentDirty && IsEmpty(a.summary)) ==> r.summary == a.summary
    ensures r.(slug := a.slug, summary := a.summary) == a
  {
    var slug := if titleDirty && IsEmpty(a.slug) then StrSlug(a.title) else a.slug;
    var summary := if contentDirty && IsEmpty(a.summary) then Excerpt(a.content) else a.summary;
    a.(slug := slug, summary := summary)
  }

  /**
   * The jobs the `updated` hook dispatches for a saved record: a slug job
   * exactly when the title changed and a summary job exactly when the
   * content changed, the slug job first.
   */
  function UpdatedJobs(a: Article, titleChanged: bool, contentChanged: bool): (js: seq<Job>)
    ensures SlugJob(a.id, a.title, a.content) in js <==> titleChanged
    ensures SummaryJob(a.id, a.content) in js <==> contentChanged
    ensures |js| == (if titleChanged then 1 else 0) + (if contentChanged then 1 else 0)
    ensures titleChanged && contentChanged ==> js == [SlugJob(a.id, a.title, a.content), SummaryJob(a.id, a.content)]
  {
    (if titleChanged then [SlugJob(a.id, a.title, a.content)] else [])
      + (if contentChanged then [SummaryJob(a.id, a.content)] else [])
  }

  /** The attributes passed to `$article->update([...])`; None leaves a column as it is. */
  datatype Changes = Changes(
    title: Option<string>,
    slug: Option<string>,
    content: Option<string>,
    summary: Option<string>,
    status: Option<Status>,
    publishedAt: Option<Option<int>>)

  /** Only the slug. */
  function SlugChange(slug: string): Changes {
    Changes(None, Some(slug), None, None, None, None)
  }

  /** Only the summary. */
  function SummaryChange(summary: string): Changes {
    Changes(None, None, None, Some(summary), None, None)
  }

  /** `fill`: every supplied attribute replaces the stored one. */
  function Fill(a: Article, ch: Changes): (r: Article)
    ensures ch.title.Some? ==> r.title == ch.title.value
    ensures ch.title.None? ==> r.title == a.title
    ensures ch.content.Some? ==> r.content == ch.content.value
    ensures ch.content.None? ==> r.content == a.content
    ensures ch.slug.Some? ==> r.slug == ch.slug.value
    ensures ch.slug.None? ==> r.slug == a.slug
    ensures ch.summary.Some? ==> r.summary == ch.summary.value
    ensures ch.summary.None? ==> r.summary == a.summary
    ensures ch.status.Some? ==> r.status == ch.status.value
    ensures ch.status.None? ==> r.status == a.status
    ensures ch.publishedAt.Some? ==> r.publishedAt == ch.publishedAt.value
    ensures ch.publishedAt.None? ==> r.publishedAt == a.publishedAt
    ensures r.id == a.id && r.authorId == a.authorId
  {
    a.(title := ch.title.GetOr(a.title),
       slug := ch.slug.GetOr(a.slug),
       content := ch.content.GetOr(a.content),
       summary := ch.summary.GetOr(a.summary),
       status := ch.status.GetOr(a.status),
       publishedAt := ch.publishedAt.GetOr(a.publishedAt))
  }

  /**
   * The row `$article->update($ch)` stores: the filled record after the
   * `updating` hook. Title, content and status take the supplied values; a
   * supplied non-empty slug or summary is stored as given; an empty slug is
   * recomputed exactly when the title changes, and an empty summary exactly
   * when the content changes.
   */
  function Saved(a: Article, ch: Changes): (r: Article)
    ensures r.id == a.id && r.title == ch.title.GetOr(a.title) && r.content == ch.content.GetOr(a.content)
    ensures r.status == ch.status.GetOr(a.status) && r.publishedAt == ch.publishedAt.GetOr(a.publishedAt)
    ensures !IsEmpty(Fill(a, ch).slug) ==> r.slug == Fill(a, ch).slug
    ensures IsEmpty(Fill(a, ch).slug) ==> r.slug == if r.title != a.title then StrSlug(r.title) else Fill(a, ch).slug
    ensures !IsEmpty(Fill(a, ch).summary) ==> r.summary == Fill(a, ch).summary
    ensures IsEmpty(Fill(a, ch).summary) ==>
      r.summary == if r.content != a.content then Excerpt(r.content) else Fill(a, ch).summary
  {
    var filled := Fill(a, ch);
    Updating(filled, filled.title != a.title, filled.content != a.content)
  }

  /**
   * An update that leaves title and content as they are stores exactly the
   * filled record: the `updating` hook changes nothing and the `updated`
   * hook dispatches nothing.
   */
  lemma SavedWithoutTextChange(a: Article, ch: Changes)
    requires Fill(a, ch).title == a.title && Fill(a, ch).content == a.content
    ensures Saved(a, ch) == Fill(a, ch)
    ensures UpdatedJobs(Saved(a, ch), false, false) == []
  {
  }

  /** The `articles` table with its auto-increment counter, and the job queue. */
  class ArticleTable {
    var articles: map<int, Article>
    var queue: seq<Job>
    var nextId: int

    /** Every row is stored under its own id, and ids below the counter are the only ones in use. */
    ghost predicate Valid()
      reads this
    {
      && 1 <= nextId
      && forall id :: id in articles ==> articles[id].id == id && id < nextId
    }

    constructor ()
      ensures Valid() && articles == map[] && queue == []
    {
      articles := map[];
      queue := [];
      nextId := 1;
    }

    /** The `created` hook: dispatches a slug job and then a summary job for the new row. */
    method Created(a: Article)
      modifies this`queue
      ensures queue == old(queue) + [SlugJob(a.id, a.title, a.content), SummaryJob(a.id, a.content)]
    {
      queue := queue + [SlugJob(a.id, a.title, a.content)];
      queue := queue + [SummaryJob(a.id, a.content)];
    }

    /** The `updated` hook: dispatches a job for each of title and content that changed. */
    method Updated(a: Article, titleChanged: bool, contentChanged: bool)
      modifies this`queue
      ensures queue == old(queue) + UpdatedJobs(a, titleChanged, contentChanged)
    {
      if titleChanged {
        queue := queue + [SlugJob(a.id, a.title, a.content)];
      }
      if contentChanged {
        queue := queue + [SummaryJob(a.id, a.content)];
      }
    }

    /**
     * Article::create($attrs): runs the `creating` hook, inserts the row
     * under a fresh id, and runs the `created` hook.
     */
    method Create(attrs: Article, authId: Option<int>) returns (id: int)
      requires Valid()
      modifies this
      ensures Valid()
      ensures id !in old(articles)
      ensures articles == old(articles)[id := Creating(attrs, authId).(id := id)]
      ensures queue == old(queue) + [SlugJob(id, attrs.title, attrs.content), SummaryJob(id, attrs.content)]
    {
      var row := Creating(attrs, authId);
      id := nextId;
      nextId := nextId + 1;
      row := row.(id := id);
      articles := articles[id := row];
      Created(row);
    }

    /**
     * `$article->update($ch)` on a stored row: fills the attributes, runs
     * the `updating` hook, stores the row and runs the `updated` hook with
     * the title and content changes.
     */
    method Update(id: int, ch: Changes)
      requires Valid() && id in articles
      modifies this
      ensures Valid() && nextId == old(nextId)
      ensures articles == old(articles)[id := Saved(old(articles)[id], ch)]
      ensures queue == old(queue) + UpdatedJobs(Saved(old(articles)[id], ch),
                                                Fill(old(articles)[id], ch).title != old(articles)[id].title,
                                                Fill(old(articles)[id], ch).content != old(articles)[id].content)
    {
      var original := articles[id];
      var filled := Fill(original, ch);
      var titleDirty := filled.title != original.title;
      var contentDirty := filled.content != original.content;
      var row := Updating(filled, titleDirty, contentDirty);
      articles := articles[id := row];
      Updated(row, titleDirty, contentDirty);
    }

    /** `publish()`: status becomes published and published_at becomes now; nothing else changes and no job is queued. */
    method Publish(id: int, now: int)
      requires Valid() && id in articles
      modifies this
      ensures Valid()
      ensures articles == old(articles)[id := old(articles)[id].(status := Published, publishedAt := Some(now))]
      ensures IsPublished(articles[id])
      ensures queue == old(queue) && nextId == old(nextId)
    {
      var ch := Changes(None, None, None, None, Some(Published), Some(Some(now)));
      SavedWithoutTextChange(articles[id], ch);
      Update(id, ch);
    }

    /** `archive()`: status becomes archived; published_at and every other field are kept and no job is queued. */
    method Archive(id: int)
      requires Valid() && id in articles
      modifies this
      ensures Valid()
      ensures articles == old(articles)[id := old(articles)[id].(status := Archived)]
      ensures IsArchived(articles[id])
      ensures queue == old(queue) && nextId == old(nextId)
    {
      var ch := Changes(None, None, None, None, Some(Archived), None);
      SavedWithoutTextChange(articles[id], ch);
      Update(id, ch);
    }

    /** `regenerateSlug()`: queues a slug job with the stored title and content; no row changes. */
    method RegenerateSlug(id: int)
      requires id in articles
      modifies this`queue
      ensures queue == old(queue) + [SlugJob(id, articles[id].title, articles[id].content)]
    {
      queue := queue + [SlugJob(id, articles[id].title, articles[id].content)];
    }

    /** `regenerateSummary()`: queues a summary job with the stored content; no row changes. */
    method RegenerateSummary(id: int)
      requires id in articles
      modifies this`queue
      ensures queue == old(queue) + [SummaryJob(id, articles[id].content)]
    {
      queue := queue + [SummaryJob(id, articles[id].content)];
    }
  }
}
