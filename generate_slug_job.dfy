/**
 * GenerateSlugJob: it asks the AI service for a slug, makes that slug
 * unique among the other articles by probing `s`, `s-1`, `s-2`, ... and
 * writes it to the article. Its fallback and `failed` paths do the same
 * with the title's Str::slug.
 */
module GenerateSlugJob {
  import opened PhpStrings
  import opened Laravel
  import opened ArticleModel
  import opened AIContentService

  // ---------------------------------------------------------------------
  // Candidates and the first free one
  // ---------------------------------------------------------------------

  /** The k-th candidate the loop probes: `s` itself, then `s . '-' . k`. */
  function Candidate(s: string, k: nat): string {
    if k == 0 then s else s + "-" + NatToString(k)
  }

  /** `Article::where('slug', $slug)->where('id', '!=', $excludeId)->exists()`. */
  predicate Taken(articles: map<int, Article>, slug: string, excludeId: int) {
    exists id :: id in articles && id != excludeId && articles[id].slug == slug
  }

  /** Different counters give different candidates. */
  lemma CandidateInjective(s: string, j: nat, k: nat)
    requires Candidate(s, j) == Candidate(s, k)
    ensures j == k
  {
    if j != 0 && k != 0 {
      var cj, ck := Candidate(s, j), Candidate(s, k);
      assert cj[|s| + 1..] == NatToString(j);
      assert ck[|s| + 1..] == NatToString(k);
      NatToStringInjective(j, k);
    }
  }

  /** The articles other than `excludeId` holding one of the first `n` candidates. */
  function Holders(articles: map<int, Article>, s: string, excludeId: int, n: nat): set<int> {
    set id | id in articles && id != excludeId && exists j :: 0 <= j < n && articles[id].slug == Candidate(s, j)
  }

  lemma SubsetCard(a: set<int>, b: set<int>)
    requires a <= b
    ensures |a| <= |b|
  {
    assert b == a + (b - a);
  }

  /** When the first `n` candidates are all taken, they have at least `n` distinct holders. */
  lemma {:induction false} HoldersCount(articles: map<int, Article>, s: string, excludeId: int, n: nat)
    requires forall j :: 0 <= j < n ==> Taken(articles, Candidate(s, j), excludeId)
    ensures |Holders(articles, s, excludeId, n)| >= n
  {
    if n > 0 {
      HoldersCount(articles, s, excludeId, n - 1);
      assert Taken(articles, Candidate(s, n - 1), excludeId);
      var h :| h in articles && h != excludeId && articles[h].slug == Candidate(s, n - 1);
      HolderIsNew(articles, s, excludeId, n - 1, h);
      var before := Holders(articles, s, excludeId, n - 1);
      SubsetCard(before + {h}, Holders(articles, s, excludeId, n));
    }
  }

  /** A holder of candidate `n` holds none of the earlier ones, and joins the holders of the first `n + 1`. */
  lemma HolderIsNew(articles: map<int, Article>, s: string, excludeId: int, n: nat, h: int)
    requires h in articles && h != excludeId && articles[h].slug == Candidate(s, n)
    ensures h !in Holders(articles, s, excludeId, n)
    ensures Holders(articles, s, excludeId, n) + {h} <= Holders(articles, s, excludeId, n + 1)
  {
    if h in Holders(articles, s, excludeId, n) {
      var j :| 0 <= j < n && articles[h].slug == Candidate(s, j);
      CandidateInjective(s, j, n);
    }
  }

  /**
   * Pigeonhole: the first `n` candidates can all be taken only when the
   * table holds at least `n` articles, so the probing loop stops by the
   * counter value |articles| + 1.
   */
  lemma CandidatesTakenBound(articles: map<int, Article>, s: string, excludeId: int, n: nat)
    requires forall j :: 0 <= j < n ==> Taken(articles, Candidate(s, j), excludeId)
    ensures n <= |articles|
  {
    HoldersCount(articles, s, excludeId, n);
    SubsetCard(Holders(articles, s, excludeId, n), articles.Keys);
  }

  /** The first free counter at or after `k`, given that the ones before `k` are taken. */
  function FreeFrom(articles: map<int, Article>, s: string, excludeId: int, k: nat): (r: nat)
    requires forall j :: 0 <= j < k ==> Taken(articles, Candidate(s, j), excludeId)
    ensures k <= r <= |articles|
    ensures !Taken(articles, Candidate(s, r), excludeId)
    ensures forall j :: 0 <= j < r ==> Taken(articles, Candidate(s, j), excludeId)
    decreases |articles| - k
  {
    CandidatesTakenBound(articles, s, excludeId, k);
    if Taken(articles, Candidate(s, k), excludeId) then
      CandidatesTakenBound(articles, s, excludeId, k + 1);
      FreeFrom(articles, s, excludeId, k + 1)
    else k
  }

  /** The counter of the first candidate no other article holds. */
  function FirstFreeIndex(articles: map<int, Article>, s: string, excludeId: int): nat {
    FreeFrom(articles, s, excludeId, 0)
  }

  /** What makeSlugUnique returns: the first free candidate. */
  function UniqueSlug(articles: map<int, Article>, s: string, excludeId: int): string {
    Candidate(s, FirstFreeIndex(articles, s, excludeId))
  }

  /**
   * The unique slug is held by no article other than `excludeId`; it is
   * `s` or `s-k` with k at most the number of articles; and every earlier
   * candidate is held by another article.
   */
  lemma UniqueSlugIsFirstFree(articles: map<int, Article>, s: string, excludeId: int)
    ensures var k := FirstFreeIndex(articles, s, excludeId);
      && UniqueSlug(articles, s, excludeId) == Candidate(s, k)
      && k <= |articles|
      && !Taken(articles, UniqueSlug(articles, s, excludeId), excludeId)
      && forall j :: 0 <= j < k ==> Taken(articles, Candidate(s, j), excludeId)
  {
  }

  /** A counter that is free and has only taken counters before it is the first free one. */
  lemma FirstFreeIndexUnique(articles: map<int, Article>, s: string, excludeId: int, k: nat)
    requires !Taken(articles, Candidate(s, k), excludeId)
    requires forall j :: 0 <= j < k ==> Taken(articles, Candidate(s, j), excludeId)
    ensures FirstFreeIndex(articles, s, excludeId) == k
  {
  }

  /** A slug no other article holds is kept unchanged. */
  lemma UniqueSlugKeepsFree(articles: map<int, Article>, s: string, excludeId: int)
    requires !Taken(articles, s, excludeId)
    ensures UniqueSlug(articles, s, excludeId) == s
  {
    FirstFreeIndexUnique(articles, s, excludeId, 0);
  }

  /** The excluded article's own slug plays no part: changing that row does not change the result. */
  lemma UniqueSlugIgnoresExcluded(articles: map<int, Article>, s: string, excludeId: int, row: Article)
    requires excludeId in articles
    ensures UniqueSlug(articles[excludeId := row], s, excludeId) == UniqueSlug(articles, s, excludeId)
  {
    var other := articles[excludeId := row];
    forall t: string ensures Taken(other, t, excludeId) <==> Taken(articles, t, excludeId) {
      if Taken(other, t, excludeId) {
        var id :| id in other && id != excludeId && other[id].slug == t;
        assert articles[id].slug == t;
      }
      if Taken(articles, t, excludeId) {
        var id :| id in articles && id != excludeId && articles[id].slug == t;
        assert other[id].slug == t;
      }
    }
    var k := FirstFreeIndex(articles, s, excludeId);
    assert |other| == |articles|;
    FirstFreeIndexUnique(other, s, excludeId, k);
  }

  // ---------------------------------------------------------------------
  // makeSlugUnique
  // ---------------------------------------------------------------------

  /**
   * makeSlugUnique($slug, $excludeId): probes `s`, `s-1`, `s-2`, ... while
   * another article holds the probe, and returns the first free one. The
   * counter never exceeds the number of articles plus one.
   */
  method MakeSlugUnique(db: ArticleTable, slug: string, excludeId: int) returns (r: string)
    ensures r == UniqueSlug(db.articles, slug, excludeId)
  {
    r := slug;
    var counter: nat := 1;
    while Taken(db.articles, r, excludeId)
      invariant 1 <= counter <= |db.articles| + 1
      invariant r == Candidate(slug, counter - 1)
      invariant forall j :: 0 <= j < counter - 1 ==> Taken(db.articles, Candidate(slug, j), excludeId)
      decreases |db.articles| + 1 - counter
    {
      CandidatesTakenBound(db.articles, slug, excludeId, counter);
      r := slug + "-" + NatToString(counter);
      counter := counter + 1;
    }
    FirstFreeIndexUnique(db.articles, slug, excludeId, counter - 1);
  }

  // ---------------------------------------------------------------------
  // handle, generateFallbackSlug, failed
  // ---------------------------------------------------------------------

  /** No article other than `id` holds the slug of `id`. */
  predicate SlugHeldOnlyBy(articles: map<int, Article>, id: int)
    requires id in articles
  {
    forall other :: other in articles && other != id ==> articles[other].slug != articles[id].slug
  }

  /** No two articles share a slug. */
  predicate SlugsUnique(articles: map<int, Article>) {
    forall a, b :: a in articles && b in articles && a != b ==> articles[a].slug != articles[b].slug
  }

  /** The row written by a slug write: the stored row with the new slug and nothing else changed. */
  function WithSlug(articles: map<int, Article>, id: int, slug: string): map<int, Article>
    requires id in articles
  {
    articles[id := articles[id].(slug := slug)]
  }

  /** Writing the unique slug leaves it held by that article alone, and keeps the table free of shared slugs. */
  lemma WriteUniqueSlug(articles: map<int, Article>, s: string, id: int)
    requires id in articles
    ensures var after := WithSlug(articles, id, UniqueSlug(articles, s, id));
      SlugHeldOnlyBy(after, id) && (SlugsUnique(articles) ==> SlugsUnique(after))
  {
    var u := UniqueSlug(articles, s, id);
    var after := WithSlug(articles, id, u);
    UniqueSlugIsFirstFree(articles, s, id);
    forall other | other in after && other != id ensures after[other].slug != u {
      assert after[other] == articles[other];
    }
  }

  /** Store `slug` on the article `id` through `$article->update(['slug' => ...])`. */
  method WriteSlug(db: ArticleTable, id: int, slug: string)
    requires db.Valid() && id in db.articles
    modifies db
    ensures db.Valid()
    ensures db.articles == WithSlug(old(db.articles), id, slug)
    ensures db.queue == old(db.queue) && db.nextId == old(db.nextId)
  {
    var ch := SlugChange(slug);
    SavedWithoutTextChange(db.articles[id], ch);
    db.Update(id, ch);
  }

  /**
   * handle(): a missing article means no write. Otherwise the AI slug for
   * the job's title and content is made unique, excluding the article
   * itself, and written as its slug; no other article or field changes and
   * no job is queued.
   */
  method Handle(db: ArticleTable, job: Job, apiKey: string, outcome: HttpOutcome)
    requires job.SlugJob? && db.Valid()
    modifies db
    ensures db.Valid() && db.queue == old(db.queue) && db.nextId == old(db.nextId)
    ensures job.articleId !in old(db.articles) ==> db.articles == old(db.articles)
    ensures job.articleId in old(db.articles) ==>
      db.articles == WithSlug(old(db.articles), job.articleId,
        UniqueSlug(old(db.articles), GenerateSlug(apiKey, job.title, job.content, outcome), job.articleId))
    ensures job.articleId in old(db.articles) ==> SlugHeldOnlyBy(db.articles, job.articleId)
  {
    var id := job.articleId;
    if id !in db.articles {
      return;
    }
    var aiSlug := GenerateSlug(apiKey, job.title, job.content, outcome);
    var unique := MakeSlugUnique(db, aiSlug, id);
    WriteUniqueSlug(db.articles, aiSlug, id);
    WriteSlug(db, id, unique);
  }

  /** generateFallbackSlug($article): the unique form of Str::slug of the job's title. */
  method FallbackSlug(db: ArticleTable, job: Job)
    requires job.SlugJob? && db.Valid() && job.articleId in db.articles
    modifies db
    ensures db.Valid() && db.queue == old(db.queue) && db.nextId == old(db.nextId)
    ensures db.articles == WithSlug(old(db.articles), job.articleId,
      UniqueSlug(old(db.articles), StrSlug(job.title), job.articleId))
    ensures SlugHeldOnlyBy(db.articles, job.articleId)
  {
    var id := job.articleId;
    var unique := MakeSlugUnique(db, StrSlug(job.title), id);
    WriteUniqueSlug(db.articles, StrSlug(job.title), id);
    WriteSlug(db, id, unique);
  }

  /** failed(): the fallback slug is written exactly when the article exists. */
  method Failed(db: ArticleTable, job: Job)
    requires job.SlugJob? && db.Valid()
    modifies db
    ensures db.Valid() && db.queue == old(db.queue) && db.nextId == old(db.nextId)
    ensures job.articleId !in old(db.articles) ==> db.articles == old(db.articles)
    ensures job.articleId in old(db.articles) ==>
      db.articles == WithSlug(old(db.articles), job.articleId,
        UniqueSlug(old(db.articles), StrSlug(job.title), job.articleId))
  {
    if job.articleId in db.articles {
      FallbackSlug(db, job);
    }
  }
}
