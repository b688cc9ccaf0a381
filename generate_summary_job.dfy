/**
 * GenerateSummaryJob: it asks the AI service for a summary of the content
 * captured when the job was dispatched and writes it to the article. Its
 * fallback and `failed` paths write the excerpt of that same content.
 */
module GenerateSummaryJob {
  import opened ArticleModel
  import opened AIContentService

  /** The row after a summary write: the stored row with the new summary and nothing else changed. */
  function WithSummary(articles: map<int, Article>, id: int, summary: string): map<int, Article>
    requires id in articles
  {
    articles[id := articles[id].(summary := summary)]
  }

  /** Store `summary` on the article `id` through `$article->update(['summary' => ...])`. */
  method WriteSummary(db: ArticleTable, id: int, summary: string)
    requires db.Valid() && id in db.articles
    modifies db
    ensures db.Valid()
    ensures db.articles == WithSummary(old(db.articles), id, summary)
    ensures db.queue == old(db.queue) && db.nextId == old(db.nextId)
  {
    var ch := SummaryChange(summary);
    SavedWithoutTextChange(db.articles[id], ch);
    db.Update(id, ch);
  }

  /**
   * handle(): a missing article means no write. Otherwise the summary is
   * generateSummary of the job's captured content, whatever the article's
   * content is now; no other article or field changes and no job is queued.
   */
  method Handle(db: ArticleTable, job: Job, apiKey: string, outcome: HttpOutcome)
    requires job.SummaryJob? && db.Valid()
    modifies db
    ensures db.Valid() && db.queue == old(db.queue) && db.nextId == old(db.nextId)
    ensures job.articleId !in old(db.articles) ==> db.articles == old(db.articles)
    ensures job.articleId in old(db.articles) ==>
      db.articles == WithSummary(old(db.articles), job.articleId, GenerateSummary(apiKey, job.content, outcome))
  {
    var id := job.articleId;
    if id !in db.articles {
      return;
    }
    var summary := GenerateSummary(apiKey, job.content, outcome);
    WriteSummary(db, id, summary);
  }

  /** generateFallbackSummary($article): the excerpt of the job's captured content. */
  method FallbackSummary(db: ArticleTable, job: Job)
    requires job.SummaryJob? && db.Valid() && job.articleId in db.articles
    modifies db
    ensures db.Valid() && db.queue == old(db.queue) && db.nextId == old(db.nextId)
    ensures db.articles == WithSummary(old(db.articles), job.articleId, Excerpt(job.content))
  {
    WriteSummary(db, job.articleId, Excerpt(job.content));
  }

  /** failed(): the fallback summary is written exactly when the article exists. */
  method Failed(db: ArticleTable, job: Job)
    requires job.SummaryJob? && db.Valid()
    modifies db
    ensures db.Valid() && db.queue == old(db.queue) && db.nextId == old(db.nextId)
    ensures job.articleId !in old(db.articles) ==> db.articles == old(db.articles)
    ensures job.articleId in old(db.articles) ==>
      db.articles == WithSummary(old(db.articles), job.articleId, Excerpt(job.content))
  {
    if job.articleId in db.articles {
      FallbackSummary(db, job);
    }
  }
}
