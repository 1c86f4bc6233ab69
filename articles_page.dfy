/**
 * The articles page: the client-side search, category filter and sort over
 * the loaded articles, the count of active filters and their reset.
 */
module ArticlesPage {
  import opened Options
  import opened Types
  import opened Seqs
  import opened Text
  import opened Sorting
  import Api

  /** `(article.excerpt && article.excerpt.toLowerCase().includes(query))`: a missing or empty excerpt never matches. */
  predicate ExcerptMatches(excerpt: Option<string>, query: string)
  {
    excerpt.Some? && excerpt.value != [] && Contains(Lower(excerpt.value), query)
  }

  /** The search predicate for an already lower-cased query. */
  predicate Matches(a: Article, query: string)
  {
    || Contains(Lower(a.title), query)
    || ExcerptMatches(a.excerpt, query)
    || Contains(Lower(a.author.name), query)
    || Contains(Lower(a.category.name), query)
  }

  function MatchesQuery(query: string): Article -> bool { (a: Article) => Matches(a, query) }

  function InCategory(slug: string): Article -> bool { (a: Article) => a.category.slug == slug }

  /** The search step: skipped for a blank query; otherwise matched against the lower-cased, untrimmed query. */
  function SearchStep(s: seq<Article>, searchQuery: string): seq<Article>
  {
    if IsBlank(searchQuery) then s else Filter(s, MatchesQuery(Lower(searchQuery)))
  }

  /** The category step: skipped for "all". */
  function CategoryStep(s: seq<Article>, selectedCategory: string): seq<Article>
  {
    if selectedCategory == "all" then s else Filter(s, InCategory(selectedCategory))
  }

  /**
   * The sort key of each `switch (sortBy)` case, as a descending key;
   * `None` for a mode the switch has no case for.
   */
  function SortKey(sortBy: string, titleRank: string -> int): Option<Article -> int>
  {
    if sortBy == "newest" then Some(PublishedKey)
    else if sortBy == "oldest" then Some(OldestKey)
    else if sortBy == "popular" then Some(ViewsKey)
    else if sortBy == "alphabetical" then Some((a: Article) => -titleRank(a.title))
    else None
  }

  function SortStep(s: seq<Article>, sortBy: string, titleRank: string -> int): seq<Article>
  {
    match SortKey(sortBy, titleRank)
    case None => s
    case Some(key) => SortDesc(s, key)
  }

  /** `filteredArticles` as a function of the loaded articles and the filter state. */
  function Filtered(articles: seq<Article>, searchQuery: string, selectedCategory: string, sortBy: string,
                    titleRank: string -> int): seq<Article>
  {
    SortStep(CategoryStep(SearchStep(articles, searchQuery), selectedCategory), sortBy, titleRank)
  }

  /**
   * An article is in the result exactly when it was loaded, matches the
   * search unless the query is blank, and is in the selected category
   * unless that is "all".
   */
  lemma FilteredMembers(articles: seq<Article>, searchQuery: string, selectedCategory: string, sortBy: string,
                        titleRank: string -> int, a: Article)
    ensures a in Filtered(articles, searchQuery, selectedCategory, sortBy, titleRank) <==>
      && a in articles
      && (IsBlank(searchQuery) || Matches(a, Lower(searchQuery)))
      && (selectedCategory == "all" || a.category.slug == selectedCategory)
  {
    var searched := SearchStep(articles, searchQuery);
    var narrowed := CategoryStep(searched, selectedCategory);
    if !IsBlank(searchQuery) {
      FilterMembers(articles, MatchesQuery(Lower(searchQuery)), a);
    }
    if selectedCategory != "all" {
      FilterMembers(searched, InCategory(selectedCategory), a);
    }
    SortStepMultiset(narrowed, sortBy, titleRank);
    assert a in narrowed <==> a in multiset(narrowed);
  }

  lemma SortStepMultiset(s: seq<Article>, sortBy: string, titleRank: string -> int)
    ensures multiset(SortStep(s, sortBy, titleRank)) == multiset(s)
  {
    if SortKey(sortBy, titleRank).Some? {
      SortDescMultiset(s, SortKey(sortBy, titleRank).value);
    }
  }

  /**
   * The result never holds an article more often than the loaded list,
   * has every article of the selected category, and is a permutation of
   * the loaded list when neither filter is active.
   */
  lemma FilteredSubset(articles: seq<Article>, searchQuery: string, selectedCategory: string, sortBy: string,
                       titleRank: string -> int)
    ensures var r := Filtered(articles, searchQuery, selectedCategory, sortBy, titleRank);
      && multiset(r) <= multiset(articles)
      && (selectedCategory != "all" ==> forall i :: 0 <= i < |r| ==> r[i].category.slug == selectedCategory)
      && (IsBlank(searchQuery) && selectedCategory == "all" ==> multiset(r) == multiset(articles))
  {
    var narrowed := CategoryStep(SearchStep(articles, searchQuery), selectedCategory);
    SortStepMultiset(narrowed, sortBy, titleRank);
    var r := Filtered(articles, searchQuery, selectedCategory, sortBy, titleRank);
    if selectedCategory != "all" {
      forall i | 0 <= i < |r| ensures r[i].category.slug == selectedCategory {
        assert r[i] in multiset(narrowed);
      }
    }
  }

  /**
   * Each sort mode orders the result by its key: newest and popular
   * first, oldest first, by title rank; any other mode keeps the filtered
   * order.
   */
  lemma FilteredOrder(articles: seq<Article>, searchQuery: string, selectedCategory: string, sortBy: string,
                      titleRank: string -> int)
    ensures var narrowed := CategoryStep(SearchStep(articles, searchQuery), selectedCategory);
      var r := Filtered(articles, searchQuery, selectedCategory, sortBy, titleRank);
      && (sortBy == "newest" ==> forall i, j :: 0 <= i < j < |r| ==> r[i].publishedAt >= r[j].publishedAt)
      && (sortBy == "oldest" ==> forall i, j :: 0 <= i < j < |r| ==> r[i].publishedAt <= r[j].publishedAt)
      && (sortBy == "popular" ==> forall i, j :: 0 <= i < j < |r| ==> r[i].views >= r[j].views)
      && (sortBy == "alphabetical" ==> forall i, j :: 0 <= i < j < |r| ==> titleRank(r[i].title) <= titleRank(r[j].title))
      && (sortBy !in {"newest", "oldest", "popular", "alphabetical"} ==> r == narrowed)
  {
    var narrowed := CategoryStep(SearchStep(articles, searchQuery), selectedCategory);
    if SortKey(sortBy, titleRank).Some? {
      SortDescSorted(narrowed, SortKey(sortBy, titleRank).value);
    }
  }

  /** Articles that tie under the sort mode's key keep their filtered order. */
  lemma FilteredStable(articles: seq<Article>, searchQuery: string, selectedCategory: string, sortBy: string,
                       titleRank: string -> int, k: int)
    requires SortKey(sortBy, titleRank).Some?
    ensures var narrowed := CategoryStep(SearchStep(articles, searchQuery), selectedCategory);
      var key := SortKey(sortBy, titleRank).value;
      KeyClass(Filtered(articles, searchQuery, selectedCategory, sortBy, titleRank), key, k) == KeyClass(narrowed, key, k)
  {
    var narrowed := CategoryStep(SearchStep(articles, searchQuery), selectedCategory);
    SortDescStable(narrowed, SortKey(sortBy, titleRank).value, k);
  }

  /** `hasActiveFilters`. */
  predicate HasActiveFilters(searchQuery: string, selectedCategory: string, sortBy: string)
  {
    !IsBlank(searchQuery) || selectedCategory != "all" || sortBy != "newest"
  }

  function Indicator(b: bool): nat { if b then 1 else 0 }

  /** `facets.filter(Boolean).length`. */
  function CountTruthy(facets: seq<bool>): (r: nat)
    ensures r <= |facets|
  {
    if facets == [] then 0 else Indicator(facets[0]) + CountTruthy(facets[1..])
  }

  /**
   * `[search && "search", category && "category", sort && "sort"].filter(Boolean).length`:
   * the number of active facets, at most three, and positive exactly when a filter is active.
   */
  function BadgeCount(searchQuery: string, selectedCategory: string, sortBy: string): (r: nat)
    ensures r == Indicator(!IsBlank(searchQuery)) + Indicator(selectedCategory != "all") + Indicator(sortBy != "newest")
    ensures r <= 3
    ensures r > 0 <==> HasActiveFilters(searchQuery, selectedCategory, sortBy)
  {
    var facets := [!IsBlank(searchQuery), selectedCategory != "all", sortBy != "newest"];
    FacetCount(facets[0], facets[1], facets[2]);
    CountTruthy(facets)
  }

  lemma FacetCount(a: bool, b: bool, c: bool)
    ensures CountTruthy([a, b, c]) == Indicator(a) + Indicator(b) + Indicator(c)
  {
    assert [a, b, c][1..] == [b, c] && [b, c][1..] == [c] && [c][1..] == [];
    assert CountTruthy([c]) == Indicator(c) + CountTruthy([]);
    assert CountTruthy([b, c]) == Indicator(b) + CountTruthy([c]);
  }

  /**
   * The body of the `useMemo` callback over the array `articles`. With
   * neither filter active, `filtered` is `articles` itself and the sort
   * reorders it in place; otherwise the sort reorders a fresh filtered copy.
   */
  method FilterAndSort(articles: array<Article>, searchQuery: string, selectedCategory: string, sortBy: string,
                       titleRank: string -> int) returns (r: seq<Article>)
    modifies articles
    ensures r == Filtered(old(articles[..]), searchQuery, selectedCategory, sortBy, titleRank)
    ensures if IsBlank(searchQuery) && selectedCategory == "all" then articles[..] == r
            else articles[..] == old(articles[..])
  {
    var filtered := articles;
    if !IsBlank(searchQuery) {
      filtered := ArrayOf(Filter(filtered[..], MatchesQuery(Lower(searchQuery))));
    }
    if selectedCategory != "all" {
      filtered := ArrayOf(Filter(filtered[..], InCategory(selectedCategory)));
    }
    SortStepInPlace(filtered, sortBy, titleRank);
    r := filtered[..];
  }

  /** The `switch (sortBy)`: sorts the array in place by the mode's key, or leaves it alone. */
  method SortStepInPlace(a: array<Article>, sortBy: string, titleRank: string -> int)
    modifies a
    ensures a[..] == SortStep(old(a[..]), sortBy, titleRank)
  {
    var key := SortKey(sortBy, titleRank);
    if key.Some? {
      SortInPlace(a, key.value);
    }
  }

  /**
   * The page's state after loading: the articles array and the three
   * filter fields. `titleRank` stands for `localeCompare` on titles.
   */
  class ArticlesPage {
    var articles: array<Article>
    var searchQuery: string
    var selectedCategory: string
    var sortBy: string
    const titleRank: string -> int

    /** `setArticles(articlesData)` keeps the very array `getArticles()` returned. */
    constructor(articlesData: array<Article>, titleRank: string -> int)
      ensures articles == articlesData
      ensures searchQuery == "" && selectedCategory == "all" && sortBy == "newest"
      ensures this.titleRank == titleRank
    {
      articles := articlesData;
      searchQuery := "";
      selectedCategory := "all";
      sortBy := "newest";
      this.titleRank := titleRank;
    }

    predicate Active()
      reads this
    {
      HasActiveFilters(searchQuery, selectedCategory, sortBy)
    }

    /**
     * Computes `filteredArticles`. With neither filter active, `filtered`
     * is the state array itself and the sort reorders it in place;
     * otherwise it sorts a fresh filtered copy and the state is untouched.
     */
    method FilteredArticles() returns (r: seq<Article>)
      modifies articles
      ensures r == Filtered(old(articles[..]), searchQuery, selectedCategory, sortBy, titleRank)
      ensures if IsBlank(searchQuery) && selectedCategory == "all" then articles[..] == r
              else articles[..] == old(articles[..])
    {
      r := FilterAndSort(articles, searchQuery, selectedCategory, sortBy, titleRank);
    }

    /** `clearFilters`: back to the default state, in which no filter is active. */
    method ClearFilters()
      modifies this
      ensures searchQuery == "" && selectedCategory == "all" && sortBy == "newest"
      ensures articles == old(articles)
      ensures !Active()
    {
      searchQuery := "";
      selectedCategory := "all";
      sortBy := "newest";
    }
  }

  /**
   * `loadData`: the page's state holds the array `getArticles()` returned.
   * On the fallback path that is the mock array itself, so the page's
   * in-place sort reorders the mock for every later fallback caller.
   */
  method LoadArticlesPage(backend: Api.MockBackend, f: Api.Fetched, titleRank: string -> int)
    returns (page: ArticlesPage)
    ensures fresh(page)
    ensures f.Fallback? ==> page.articles == backend.articles
    ensures f.Backend? ==> fresh(page.articles)
    ensures page.articles[..] == Api.GetArticles(f, backend.Store())
    ensures page.searchQuery == "" && page.selectedCategory == "all" && page.sortBy == "newest"
  {
    var a := backend.GetArticlesArray(f);
    page := new ArticlesPage(a, titleRank);
  }
}
