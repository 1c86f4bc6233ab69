/**
 * The authors page: per-author statistics over the articles each author
 * wrote, the authors ranked by article count, the header totals and the
 * "Top Author" badge of the first three cards.
 */
module AuthorsPage {
  import opened Options
  import opened Types
  import opened Seqs
  import opened Sorting
  import opened Stats

  /** `{ ...author, articleCount, totalViews, latestArticle, featuredCount, avgViews }`. */
  datatype AuthorWithStats = AuthorWithStats(
    author: Author,
    articleCount: nat,
    totalViews: int,
    latestArticle: Option<Article>,
    featuredCount: nat,
    avgViews: int)

  /** The statistics of one author whose articles are `articles`. */
  function StatsOf(author: Author, articles: seq<Article>): (r: AuthorWithStats)
    ensures r.author == author && r.articleCount == |articles|
    ensures r.totalViews == TotalViews(articles) && r.totalViews >= 0
    ensures r.featuredCount == FeaturedCount(articles) && r.featuredCount <= r.articleCount
    ensures r.latestArticle == LatestArticle(articles)
    ensures r.latestArticle.None? <==> r.articleCount == 0
    ensures r.latestArticle.Some? ==>
              && r.latestArticle.value in articles
              && forall i :: 0 <= i < |articles| ==> articles[i].publishedAt <= r.latestArticle.value.publishedAt
    ensures r.articleCount == 0 ==> r.avgViews == 0
    ensures r.articleCount > 0 ==>
      2 * r.articleCount * r.avgViews <= 2 * r.totalViews + r.articleCount < 2 * r.articleCount * r.avgViews + 2 * r.articleCount
  {
    var total := TotalViews(articles);
    AuthorWithStats(author, |articles|, total, LatestArticle(articles), FeaturedCount(articles),
      if |articles| > 0 then RoundedMean(total, |articles|) else 0)
  }

  /**
   * The body of the `authors.map` callback. `articles` is the array the
   * fetch returned; the newest-first sort reorders it in place, and the
   * featured count is taken on the reordered array.
   */
  method CollectStats(author: Author, articles: array<Article>) returns (r: AuthorWithStats)
    modifies articles
    ensures r == StatsOf(author, old(articles[..]))
    ensures articles[..] == SortDesc(old(articles[..]), PublishedKey)
  {
    ghost var before := articles[..];
    var totalViews := TotalViews(articles[..]);
    var latestArticle := SortedLatest(articles);
    SortDescMultiset(before, PublishedKey);
    FeaturedCountPermutation(articles[..], before);
    var featuredCount := FeaturedCount(articles[..]);
    var avgViews := if articles.Length > 0 then RoundedMean(totalViews, articles.Length) else 0;
    r := AuthorWithStats(author, articles.Length, totalViews, latestArticle, featuredCount, avgViews);
  }

  /** The statistics of the articles one fetch returned, sorted in an array of their own. */
  method StatsOfFetched(author: Author, fetched: seq<Article>) returns (r: AuthorWithStats)
    ensures r == StatsOf(author, fetched)
  {
    var articles := ArrayOf(fetched);
    r := CollectStats(author, articles);
  }

  /** `authorsWithStats` before the ranking sort: one entry per author, in the order of `authors`. */
  function AuthorsWithStats(authors: seq<Author>, articlesOf: string -> seq<Article>): (r: seq<AuthorWithStats>)
    ensures |r| == |authors|
    ensures forall i :: 0 <= i < |r| ==> r[i] == StatsOf(authors[i], articlesOf(authors[i].slug))
  {
    seq(|authors|, (i: int) requires 0 <= i < |authors| => StatsOf(authors[i], articlesOf(authors[i].slug)))
  }

  function ArticleCountKey(a: AuthorWithStats): int { a.articleCount }

  function FeaturedCountKey(a: AuthorWithStats): int { a.featuredCount }

  /**
   * Loads the page's data: the statistics of every author, then the
   * in-place ranking by article count. `articlesOf(slug)` is what
   * `getArticlesByAuthor(slug)` returns.
   */
  method LoadAuthors(authors: seq<Author>, articlesOf: string -> seq<Article>) returns (sortedAuthors: seq<AuthorWithStats>)
    ensures sortedAuthors == SortDesc(AuthorsWithStats(authors, articlesOf), ArticleCountKey)
  {
    var stats: seq<AuthorWithStats> := [];
    var i := 0;
    while i < |authors|
      invariant 0 <= i <= |authors|
      invariant |stats| == i
      invariant forall j :: 0 <= j < i ==> stats[j] == StatsOf(authors[j], articlesOf(authors[j].slug))
    {
      var st := StatsOfFetched(authors[i], articlesOf(authors[i].slug));
      stats := stats + [st];
      i := i + 1;
    }
    assert forall j :: 0 <= j < |stats| ==> stats[j] == AuthorsWithStats(authors, articlesOf)[j];
    assert stats == AuthorsWithStats(authors, articlesOf);
    var a := ArrayOf(stats);
    SortInPlace(a, ArticleCountKey);
    sortedAuthors := a[..];
  }

  /** The ranked list holds every author's statistics once, most articles first, ties in input order. */
  lemma AuthorRanking(authors: seq<Author>, articlesOf: string -> seq<Article>, k: int)
    ensures var stats := AuthorsWithStats(authors, articlesOf);
      var sorted := SortDesc(stats, ArticleCountKey);
      && multiset(sorted) == multiset(stats)
      && SortedDesc(sorted, ArticleCountKey)
      && KeyClass(sorted, ArticleCountKey, k) == KeyClass(stats, ArticleCountKey, k)
  {
    var stats := AuthorsWithStats(authors, articlesOf);
    SortDescMultiset(stats, ArticleCountKey);
    SortDescSorted(stats, ArticleCountKey);
    SortDescStable(stats, ArticleCountKey, k);
  }

  /** `authorsWithStats.reduce((sum, author) => sum + author.articleCount, 0)`. */
  function ArticlesPublished(stats: seq<AuthorWithStats>): int { Sum(stats, ArticleCountKey) }

  /** `authorsWithStats.reduce((sum, author) => sum + author.featuredCount, 0)`. */
  function FeaturedArticles(stats: seq<AuthorWithStats>): int { Sum(stats, FeaturedCountKey) }

  /** The number of articles fetched over all authors. */
  function ArticlesOfAll(authors: seq<Author>, articlesOf: string -> seq<Article>): nat
  {
    if authors == [] then 0 else |articlesOf(authors[0].slug)| + ArticlesOfAll(authors[1..], articlesOf)
  }

  /** The number of featured articles fetched over all authors. */
  function FeaturedOfAll(authors: seq<Author>, articlesOf: string -> seq<Article>): nat
  {
    if authors == [] then 0 else FeaturedCount(articlesOf(authors[0].slug)) + FeaturedOfAll(authors[1..], articlesOf)
  }

  lemma {:induction false} StatsSums(authors: seq<Author>, articlesOf: string -> seq<Article>)
    ensures ArticlesPublished(AuthorsWithStats(authors, articlesOf)) == ArticlesOfAll(authors, articlesOf)
    ensures FeaturedArticles(AuthorsWithStats(authors, articlesOf)) == FeaturedOfAll(authors, articlesOf)
  {
    if authors != [] {
      var stats := AuthorsWithStats(authors, articlesOf);
      assert stats[1..] == AuthorsWithStats(authors[1..], articlesOf);
      StatsSums(authors[1..], articlesOf);
    }
  }

  /**
   * The header totals read the array after the in-place ranking sort; they
   * equal the totals over every author's fetched articles and the featured
   * total never exceeds the published total.
   */
  lemma HeaderTotals(authors: seq<Author>, articlesOf: string -> seq<Article>)
    ensures var stats := AuthorsWithStats(authors, articlesOf);
      var sorted := SortDesc(stats, ArticleCountKey);
      && ArticlesPublished(sorted) == ArticlesOfAll(authors, articlesOf)
      && FeaturedArticles(sorted) == FeaturedOfAll(authors, articlesOf)
      && FeaturedArticles(sorted) <= ArticlesPublished(sorted)
  {
    var stats := AuthorsWithStats(authors, articlesOf);
    assert forall i :: 0 <= i < |stats| ==> stats[i] == StatsOf(authors[i], articlesOf(authors[i].slug));
    RankedTotals(stats);
    StatsSums(authors, articlesOf);
  }

  /** Reordering by the ranking sort changes none of the totals. */
  lemma RankedTotals(stats: seq<AuthorWithStats>)
    requires forall i :: 0 <= i < |stats| ==> stats[i].featuredCount <= stats[i].articleCount
    ensures var sorted := SortDesc(stats, ArticleCountKey);
      && ArticlesPublished(sorted) == ArticlesPublished(stats)
      && FeaturedArticles(sorted) == FeaturedArticles(stats)
      && FeaturedArticles(sorted) <= ArticlesPublished(sorted)
  {
    var sorted := SortDesc(stats, ArticleCountKey);
    SortDescMultiset(stats, ArticleCountKey);
    SumPermutation(sorted, stats, ArticleCountKey);
    SumPermutation(sorted, stats, FeaturedCountKey);
    forall i | 0 <= i < |sorted| ensures sorted[i].featuredCount <= sorted[i].articleCount {
      assert sorted[i] in multiset(stats);
      var j :| 0 <= j < |stats| && stats[j] == sorted[i];
    }
    FeaturedBounded(sorted);
  }

  lemma {:induction false} FeaturedBounded(stats: seq<AuthorWithStats>)
    requires forall i :: 0 <= i < |stats| ==> stats[i].featuredCount <= stats[i].articleCount
    ensures FeaturedArticles(stats) <= ArticlesPublished(stats)
  {
    SumMonotone(stats, FeaturedCountKey, ArticleCountKey);
  }

  /** `index < 3`: the card at this position shows the award icon and the "Top Author" badge. */
  predicate HasTopBadge(index: nat) { index < 3 }

  /**
   * The badge goes to the first min(3, n) ranked authors, and none of
   * them has fewer articles than any author without the badge.
   */
  lemma TopAuthorBadge(authors: seq<Author>, articlesOf: string -> seq<Article>, k: int)
    ensures var stats := AuthorsWithStats(authors, articlesOf);
      var sorted := SortDesc(stats, ArticleCountKey);
      var top := Slice(sorted, 3);
      && (forall i :: 0 <= i < |sorted| ==> (HasTopBadge(i) <==> i < |top|))
      && |top| == Min(3, |authors|)
      && (forall x, y :: x in top && y in multiset(stats) - multiset(top) ==> x.articleCount >= y.articleCount)
      && KeyClass(top, ArticleCountKey, k) <= KeyClass(stats, ArticleCountKey, k)
  {
    TopOfRanking(AuthorsWithStats(authors, articlesOf), k);
  }

  lemma TopOfRanking(stats: seq<AuthorWithStats>, k: int)
    ensures var sorted := SortDesc(stats, ArticleCountKey);
      var top := Slice(sorted, 3);
      && (forall i :: 0 <= i < |sorted| ==> (HasTopBadge(i) <==> i < |top|))
      && |top| == Min(3, |stats|)
      && (forall x, y :: x in top && y in multiset(stats) - multiset(top) ==> x.articleCount >= y.articleCount)
      && KeyClass(top, ArticleCountKey, k) <= KeyClass(stats, ArticleCountKey, k)
  {
    var sorted := SortDesc(stats, ArticleCountKey);
    var top := Slice(sorted, 3);
    TopOfSort(stats, ArticleCountKey, 3, k);
    assert |top| == Min(3, |stats|);
    forall x, y | x in top && y in multiset(stats) - multiset(top)
      ensures x.articleCount >= y.articleCount
    {
      assert ArticleCountKey(x) >= ArticleCountKey(y);
    }
  }

}
