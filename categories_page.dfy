/**
 * The categories page: per-category statistics over the articles of each
 * category, the categories ranked by article count, the header totals and
 * the "Popular" badge of the first three cards.
 */
module CategoriesPage {
  import opened Options
  import opened Types
  import opened Seqs
  import opened Sorting
  import opened Stats

  /** `{ ...category, articleCount, totalViews, latestArticle, authors }`. */
  datatype CategoryWithStats = CategoryWithStats(
    category: Category,
    articleCount: nat,
    totalViews: int,
    latestArticle: Option<Article>,
    authors: nat)

  /** The statistics of one category whose articles are `articles`. */
  function StatsOf(category: Category, articles: seq<Article>): (r: CategoryWithStats)
    ensures r.category == category && r.articleCount == |articles|
    ensures r.totalViews == TotalViews(articles) && r.totalViews >= 0
    ensures r.authors == |KeySet(articles, AuthorName)| && r.authors <= r.articleCount
    ensures r.latestArticle == LatestArticle(articles)
    ensures r.latestArticle.None? <==> r.articleCount == 0
    ensures r.latestArticle.Some? ==>
              && r.latestArticle.value in articles
              && forall i :: 0 <= i < |articles| ==> articles[i].publishedAt <= r.latestArticle.value.publishedAt
  {
    CategoryWithStats(category, |articles|, TotalViews(articles), LatestArticle(articles), DistinctAuthorNames(articles))
  }

  /**
   * The body of the `categories.map` callback. `articles` is the array the
   * fetch returned; the newest-first sort reorders it in place, and the
   * distinct author names are collected from the reordered array.
   */
  method CollectStats(category: Category, articles: array<Article>) returns (r: CategoryWithStats)
    modifies articles
    ensures r == StatsOf(category, old(articles[..]))
    ensures articles[..] == SortDesc(old(articles[..]), PublishedKey)
  {
    ghost var before := articles[..];
    var totalViews := TotalViews(articles[..]);
    var latestArticle := SortedLatest(articles);
    SortDescMultiset(before, PublishedKey);
    KeySetPermutation(articles[..], before, AuthorName);
    var authors := DistinctAuthorNames(articles[..]);
    r := CategoryWithStats(category, articles.Length, totalViews, latestArticle, authors);
  }

  /** The statistics of the articles one fetch returned, sorted in an array of their own. */
  method StatsOfFetched(category: Category, fetched: seq<Article>) returns (r: CategoryWithStats)
    ensures r == StatsOf(category, fetched)
  {
    var articles := ArrayOf(fetched);
    r := CollectStats(category, articles);
  }

  /** `categoriesWithStats` before the ranking sort: one entry per category, in the order of `categories`. */
  function CategoriesWithStats(categories: seq<Category>, articlesOf: string -> seq<Article>): (r: seq<CategoryWithStats>)
    ensures |r| == |categories|
    ensures forall i :: 0 <= i < |r| ==> r[i] == StatsOf(categories[i], articlesOf(categories[i].slug))
  {
    seq(|categories|, (i: int) requires 0 <= i < |categories| => StatsOf(categories[i], articlesOf(categories[i].slug)))
  }

  function ArticleCountKey(c: CategoryWithStats): int { c.articleCount }

  function AuthorsKey(c: CategoryWithStats): int { c.authors }

  /**
   * Loads the page's data: the statistics of every category, then the
   * in-place ranking by article count. `articlesOf(slug)` is what
   * `getArticlesByCategory(slug)` returns.
   */
  method LoadCategories(categories: seq<Category>, articlesOf: string -> seq<Article>) returns (sortedCategories: seq<CategoryWithStats>)
    ensures sortedCategories == SortDesc(CategoriesWithStats(categories, articlesOf), ArticleCountKey)
  {
    var stats: seq<CategoryWithStats> := [];
    var i := 0;
    while i < |categories|
      invariant 0 <= i <= |categories|
      invariant |stats| == i
      invariant forall j :: 0 <= j < i ==> stats[j] == StatsOf(categories[j], articlesOf(categories[j].slug))
    {
      var st := StatsOfFetched(categories[i], articlesOf(categories[i].slug));
      stats := stats + [st];
      i := i + 1;
    }
    assert forall j :: 0 <= j < |stats| ==> stats[j] == CategoriesWithStats(categories, articlesOf)[j];
    assert stats == CategoriesWithStats(categories, articlesOf);
    var a := ArrayOf(stats);
    SortInPlace(a, ArticleCountKey);
    sortedCategories := a[..];
  }

  /** The ranked list holds every category's statistics once, most articles first, ties in input order. */
  lemma CategoryRanking(categories: seq<Category>, articlesOf: string -> seq<Article>, k: int)
    ensures var stats := CategoriesWithStats(categories, articlesOf);
      var sorted := SortDesc(stats, ArticleCountKey);
      && multiset(sorted) == multiset(stats)
      && SortedDesc(sorted, ArticleCountKey)
      && KeyClass(sorted, ArticleCountKey, k) == KeyClass(stats, ArticleCountKey, k)
  {
    var stats := CategoriesWithStats(categories, articlesOf);
    SortDescMultiset(stats, ArticleCountKey);
    SortDescSorted(stats, ArticleCountKey);
    SortDescStable(stats, ArticleCountKey, k);
  }

  /** `categoriesWithStats.reduce((sum, cat) => sum + cat.articleCount, 0)`. */
  function TotalArticles(stats: seq<CategoryWithStats>): int { Sum(stats, ArticleCountKey) }

  /** `categoriesWithStats.reduce((sum, cat) => sum + cat.authors, 0)`. */
  function ExpertAuthors(stats: seq<CategoryWithStats>): int { Sum(stats, AuthorsKey) }

  /** The number of articles fetched over all categories. */
  function ArticlesOfAll(categories: seq<Category>, articlesOf: string -> seq<Article>): nat
  {
    if categories == [] then 0 else |articlesOf(categories[0].slug)| + ArticlesOfAll(categories[1..], articlesOf)
  }

  /** The per-category distinct author counts, added up over all categories. */
  function AuthorsOfAll(categories: seq<Category>, articlesOf: string -> seq<Article>): nat
  {
    if categories == [] then 0 else DistinctAuthorNames(articlesOf(categories[0].slug)) + AuthorsOfAll(categories[1..], articlesOf)
  }

  lemma {:induction false} StatsSums(categories: seq<Category>, articlesOf: string -> seq<Article>)
    ensures TotalArticles(CategoriesWithStats(categories, articlesOf)) == ArticlesOfAll(categories, articlesOf)
    ensures ExpertAuthors(CategoriesWithStats(categories, articlesOf)) == AuthorsOfAll(categories, articlesOf)
  {
    if categories != [] {
      var stats := CategoriesWithStats(categories, articlesOf);
      assert stats[1..] == CategoriesWithStats(categories[1..], articlesOf);
      StatsSums(categories[1..], articlesOf);
    }
  }

  /**
   * The header totals read the array after the in-place ranking sort; they
   * equal the totals over every category's fetched articles, and the
   * "Expert Authors" figure never exceeds the "Total Articles" figure.
   */
  lemma HeaderTotals(categories: seq<Category>, articlesOf: string -> seq<Article>)
    ensures var stats := CategoriesWithStats(categories, articlesOf);
      var sorted := SortDesc(stats, ArticleCountKey);
      && TotalArticles(sorted) == ArticlesOfAll(categories, articlesOf)
      && ExpertAuthors(sorted) == AuthorsOfAll(categories, articlesOf)
      && ExpertAuthors(sorted) <= TotalArticles(sorted)
  {
    var stats := CategoriesWithStats(categories, articlesOf);
    assert forall i :: 0 <= i < |stats| ==> stats[i] == StatsOf(categories[i], articlesOf(categories[i].slug));
    RankedTotals(stats);
    StatsSums(categories, articlesOf);
  }

  /** Reordering by the ranking sort changes neither total. */
  lemma RankedTotals(stats: seq<CategoryWithStats>)
    requires forall i :: 0 <= i < |stats| ==> stats[i].authors <= stats[i].articleCount
    ensures var sorted := SortDesc(stats, ArticleCountKey);
      && TotalArticles(sorted) == TotalArticles(stats)
      && ExpertAuthors(sorted) == ExpertAuthors(stats)
      && ExpertAuthors(sorted) <= TotalArticles(sorted)
  {
    var sorted := SortDesc(stats, ArticleCountKey);
    SortDescMultiset(stats, ArticleCountKey);
    SumPermutation(sorted, stats, ArticleCountKey);
    SumPermutation(sorted, stats, AuthorsKey);
    forall i | 0 <= i < |sorted| ensures sorted[i].authors <= sorted[i].articleCount {
      assert sorted[i] in multiset(stats);
      var j :| 0 <= j < |stats| && stats[j] == sorted[i];
    }
    AuthorsBounded(sorted);
  }

  lemma {:induction false} AuthorsBounded(stats: seq<CategoryWithStats>)
    requires forall i :: 0 <= i < |stats| ==> stats[i].authors <= stats[i].articleCount
    ensures ExpertAuthors(stats) <= TotalArticles(stats)
  {
    SumMonotone(stats, AuthorsKey, ArticleCountKey);
  }

  /** `index < 3`: the card at this position shows the "Popular" badge. */
  predicate IsPopular(index: nat) { index < 3 }

  /**
   * The badge goes to the first min(3, n) ranked categories, and none of
   * them has fewer articles than any category without the badge.
   */
  lemma PopularBadge(categories: seq<Category>, articlesOf: string -> seq<Article>, k: int)
    ensures var stats := CategoriesWithStats(categories, articlesOf);
      var sorted := SortDesc(stats, ArticleCountKey);
      var top := Slice(sorted, 3);
      && (forall i :: 0 <= i < |sorted| ==> (IsPopular(i) <==> i < |top|))
      && |top| == Min(3, |categories|)
      && (forall x, y :: x in top && y in multiset(stats) - multiset(top) ==> x.articleCount >= y.articleCount)
      && KeyClass(top, ArticleCountKey, k) <= KeyClass(stats, ArticleCountKey, k)
  {
    TopOfRanking(CategoriesWithStats(categories, articlesOf), k);
  }

  lemma TopOfRanking(stats: seq<CategoryWithStats>, k: int)
    ensures var sorted := SortDesc(stats, ArticleCountKey);
      var top := Slice(sorted, 3);
      && (forall i :: 0 <= i < |sorted| ==> (IsPopular(i) <==> i < |top|))
      && |top| == Min(3, |stats|)
      && (forall x, y :: x in top && y in multiset(stats) - multiset(top) ==> x.articleCount >= y.articleCount)
      && KeyClass(top, ArticleCountKey, k) <= KeyClass(stats, ArticleCountKey, k)
  {
    var sorted := SortDesc(stats, ArticleCountKey);
    var top := Slice(sorted, 3);
    TopOfSort(stats, ArticleCountKey, 3, k);
    assert |top| == Min(3, |stats|);
    forall x, y | x in top && y in multiset(stats) - multiset(top)
      ensures x.articleCount >= y.articleCount
    {
      assert ArticleCountKey(x) >= ArticleCountKey(y);
    }
  }

}
