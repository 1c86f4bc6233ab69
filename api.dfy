/**
 * The data layer of lib/api.ts: the mock endpoint dispatcher `getMockData`,
 * the exported listing queries built on `fetchAPI`, the older `*Old`
 * variants that post-process `getArticles()`, and `getRelatedArticles`.
 *
 * `fetchAPI` either returns what the backend sent or, when the request
 * fails, falls back to `getMockData(endpoint)`; which of the two happens is
 * a parameter of type Fetched. The `data` field of the backend's answer is
 * given directly (a missing or falsy field is the empty sequence).
 */
module Api {
  import opened Options
  import opened Types
  import opened Seqs
  import opened Text
  import opened Sorting

  /** The module-level mock collections. */
  datatype MockStore = MockStore(articles: seq<Article>, authors: seq<Author>, categories: seq<Category>, tags: seq<Tag>)

  /** The `data` field of the object `getMockData` returns; NoData is `{ data: [] }`. */
  datatype MockData =
    | ArticlesData(articles: seq<Article>)
    | AuthorsData(authors: seq<Author>)
    | CategoriesData(categories: seq<Category>)
    | TagsData(tags: seq<Tag>)
    | NoData

  /** What one `fetchAPI` call produced: the backend's `data`, or the mock fallback. */
  datatype Fetched = Backend(data: seq<Article>) | Fallback

  // The texts in front of the capture groups of the four regular expressions.
  const CategoryMarker: string := "category][slug][$eq]="
  const TagMarker: string := "tags][slug][$eq]="
  const AuthorMarker: string := "author][slug][$eq]="
  const SlugMarker: string := "slug][$eq]="

  // The comparisons the mock filters make against a captured value, which is
  // `undefined` when the regular expression does not match.

  function HasCategorySlug(c: Option<string>): Article -> bool { (a: Article) => c == Some(a.category.slug) }

  /** `a.tags.some((t) => t.slug === slug)`. */
  predicate TaggedWith(a: Article, slug: string)
  {
    exists i | 0 <= i < |a.tags| :: a.tags[i].slug == slug
  }

  function HasTagSlug(c: Option<string>): Article -> bool { (a: Article) => c.Some? && TaggedWith(a, c.value) }

  function HasAuthorSlug(c: Option<string>): Article -> bool { (a: Article) => c == Some(a.author.slug) }

  function HasSlug(c: Option<string>): Article -> bool { (a: Article) => c == Some(a.slug) }

  function AuthorSlugIs(c: Option<string>): Author -> bool { (a: Author) => c == Some(a.slug) }

  function CategorySlugIs(c: Option<string>): Category -> bool { (a: Category) => c == Some(a.slug) }

  function TagSlugIs(c: Option<string>): Tag -> bool { (a: Tag) => c == Some(a.slug) }

  /**
   * `getMockData(endpoint)`: the first substring test that succeeds, in
   * source order, decides the answer. The sorted branches sort a copy.
   */
  function GetMockData(endpoint: string, store: MockStore): (r: MockData)
    ensures r.NoData? <==> !Contains(endpoint, "/articles") && !Contains(endpoint, "/authors")
                           && !Contains(endpoint, "/categories") && !Contains(endpoint, "/tags")
    ensures Contains(endpoint, "/articles") ==> r.ArticlesData? && multiset(r.articles) <= multiset(store.articles)
    ensures !Contains(endpoint, "/articles") && Contains(endpoint, "/authors") ==>
              r.AuthorsData? && multiset(r.authors) <= multiset(store.authors)
    ensures !Contains(endpoint, "/articles") && !Contains(endpoint, "/authors") && Contains(endpoint, "/categories") ==>
              r.CategoriesData? && multiset(r.categories) <= multiset(store.categories)
    ensures !Contains(endpoint, "/articles") && !Contains(endpoint, "/authors") && !Contains(endpoint, "/categories")
            && Contains(endpoint, "/tags") ==>
              r.TagsData? && multiset(r.tags) <= multiset(store.tags)
  {
    if Contains(endpoint, "/articles") then
      if Contains(endpoint, "featured") then
        ArticlesData(Filter(store.articles, IsFeatured))
      else if Contains(endpoint, "views:desc") then
        SortDescMultiset(store.articles, ViewsKey);
        ArticlesData(SortDesc(store.articles, ViewsKey))
      else if Contains(endpoint, "publishedAt:desc") then
        SortDescMultiset(store.articles, PublishedKey);
        ArticlesData(SortDesc(store.articles, PublishedKey))
      else if Contains(endpoint, "category") then
        ArticlesData(Filter(store.articles, HasCategorySlug(Capture(endpoint, CategoryMarker))))
      else if Contains(endpoint, "tags") then
        ArticlesData(Filter(store.articles, HasTagSlug(Capture(endpoint, TagMarker))))
      else if Contains(endpoint, "author") then
        ArticlesData(Filter(store.articles, HasAuthorSlug(Capture(endpoint, AuthorMarker))))
      else if Contains(endpoint, "slug") then
        ArticlesData(Filter(store.articles, HasSlug(Capture(endpoint, SlugMarker))))
      else
        ArticlesData(store.articles)
    else if Contains(endpoint, "/authors") then
      if Contains(endpoint, "slug") then AuthorsData(Filter(store.authors, AuthorSlugIs(Capture(endpoint, SlugMarker))))
      else AuthorsData(store.authors)
    else if Contains(endpoint, "/categories") then
      if Contains(endpoint, "slug") then CategoriesData(Filter(store.categories, CategorySlugIs(Capture(endpoint, SlugMarker))))
      else CategoriesData(store.categories)
    else if Contains(endpoint, "/tags") then
      if Contains(endpoint, "slug") then TagsData(Filter(store.tags, TagSlugIs(Capture(endpoint, SlugMarker))))
      else TagsData(store.tags)
    else
      NoData
  }

  /** `data?.data || []` for an articles endpoint. */
  function ArticlesOf(d: MockData): seq<Article>
  {
    if d.ArticlesData? then d.articles else []
  }

  /** The article sequence `fetchAPI(endpoint)` yields. */
  function FetchArticles(endpoint: string, f: Fetched, store: MockStore): (r: seq<Article>)
    ensures f.Fallback? && Contains(endpoint, "/articles") ==> multiset(r) <= multiset(store.articles)
  {
    match f
    case Backend(d) => d
    case Fallback => ArticlesOf(GetMockData(endpoint, store))
  }

  // ---------------------------------------------------------------------
  // The endpoints the exported functions request.

  const ArticlesEndpoint: string := "/articles?populate=*"

  // The literal parts of the endpoints that carry a value.
  const SlugQuery: string := "/articles?filters[slug][$eq]="
  const CategoryQuery: string := "/articles?filters[category][slug][$eq]="
  const TagQuery: string := "/articles?filters[tags][slug][$eq]="
  const AuthorQuery: string := "/articles?filters[author][slug][$eq]="
  const TagInQuery: string := "/articles?filters[tags][slug][$in]="
  const PopulateRest: string := "&populate=*"
  const IdFilter: string := "&filters[id][$ne]="
  const LimitRest: string := "&populate=*&pagination[limit]="

  function ArticleBySlugEndpoint(slug: string): string { SlugQuery + slug + PopulateRest }

  const FeaturedHead: string := "/articles?filters[featured][$eq]=true"
  const LatestHead: string := "/articles?sort[0]=publishedAt:desc"
  const TopHead: string := "/articles?sort[0]=views:desc"

  function FeaturedEndpoint(limit: int): string { FeaturedHead + LimitRest + IntToString(limit) }

  function LatestEndpoint(limit: int): string { LatestHead + LimitRest + IntToString(limit) }

  function TopEndpoint(limit: int): string { TopHead + LimitRest + IntToString(limit) }

  function ByCategoryEndpoint(slug: string): string { CategoryQuery + slug + PopulateRest }

  function ByTagEndpoint(slug: string): string { TagQuery + slug + PopulateRest }

  function ByAuthorEndpoint(slug: string): string { AuthorQuery + slug + PopulateRest }

  /** `&filters[id][$ne]=${currentArticleId}&populate=*&pagination[limit]=${limit}`. */
  function RelatedTail(currentId: string, limit: int): string
  {
    IdFilter + currentId + (LimitRest + IntToString(limit))
  }

  function RelatedCategoryEndpoint(categorySlug: string, currentId: string, limit: int): string
  {
    CategoryQuery + categorySlug + RelatedTail(currentId, limit)
  }

  function RelatedTagsEndpoint(tagSlugs: string, currentId: string, limit: int): string
  {
    TagInQuery + tagSlugs + RelatedTail(currentId, limit)
  }

  // ---------------------------------------------------------------------
  // The exported queries (lib/api.ts:426-464).

  /** `getArticles()`. */
  function GetArticles(f: Fetched, store: MockStore): (r: seq<Article>)
    ensures f.Fallback? ==> r == store.articles
  {
    ArticlesEndpointIsPlain(store);
    FetchArticles(ArticlesEndpoint, f, store)
  }

  /** `getArticleBySlug(slug)`: `data?.data?.[0] || null`, the first article of the answer, or null. */
  function GetArticleBySlug(slug: string, f: Fetched, store: MockStore): (r: Option<Article>)
    ensures r.None? <==> FetchArticles(ArticleBySlugEndpoint(slug), f, store) == []
    ensures r.Some? ==> r.value == FetchArticles(ArticleBySlugEndpoint(slug), f, store)[0]
  {
    First(FetchArticles(ArticleBySlugEndpoint(slug), f, store))
  }

  /** `getFeaturedArticles(limit)`. */
  function GetFeaturedArticles(limit: int, f: Fetched, store: MockStore): (r: seq<Article>)
    ensures limit >= 0 ==> |r| <= limit
    ensures r <= FetchArticles(FeaturedEndpoint(limit), f, store)
    ensures f.Fallback? ==> r == GetFeaturedArticlesOld(limit, f, store)
  {
    FeaturedRoute(limit, store);
    Slice(FetchArticles(FeaturedEndpoint(limit), f, store), limit)
  }

  /** `getLatestArticles(limit)`. */
  function GetLatestArticles(limit: int, f: Fetched, store: MockStore): (r: seq<Article>)
    ensures limit >= 0 ==> |r| <= limit
    ensures r <= FetchArticles(LatestEndpoint(limit), f, store)
    ensures f.Fallback? ==> r == Slice(SortDesc(store.articles, PublishedKey), limit)
  {
    LatestRoute(limit, store);
    Slice(FetchArticles(LatestEndpoint(limit), f, store), limit)
  }

  /** `getTopArticles(limit)`. */
  function GetTopArticles(limit: int, f: Fetched, store: MockStore): (r: seq<Article>)
    ensures limit >= 0 ==> |r| <= limit
    ensures r <= FetchArticles(TopEndpoint(limit), f, store)
    ensures f.Fallback? ==> r == Slice(SortDesc(store.articles, ViewsKey), limit)
  {
    TopRoute(limit, store);
    Slice(FetchArticles(TopEndpoint(limit), f, store), limit)
  }

  /** `getArticlesByCategory(slug)`. */
  function GetArticlesByCategory(slug: string, f: Fetched, store: MockStore): (r: seq<Article>)
    ensures f.Fallback? ==> multiset(r) <= multiset(store.articles)
  {
    FetchArticles(ByCategoryEndpoint(slug), f, store)
  }

  /** `getArticlesByTag(slug)`. */
  function GetArticlesByTag(slug: string, f: Fetched, store: MockStore): (r: seq<Article>)
    ensures f.Fallback? ==> multiset(r) <= multiset(store.articles)
  {
    FetchArticles(ByTagEndpoint(slug), f, store)
  }

  /** `getArticlesByAuthor(slug)`. */
  function GetArticlesByAuthor(slug: string, f: Fetched, store: MockStore): (r: seq<Article>)
    ensures f.Fallback? ==> multiset(r) <= multiset(store.articles)
  {
    FetchArticles(ByAuthorEndpoint(slug), f, store)
  }

  // ---------------------------------------------------------------------
  // The `*Old` variants (lib/api.ts:170-209), on the result of `getArticles()`.

  /** `articles.find(article => article.slug === slug) || null`. */
  function GetArticleBySlugOld(slug: string, f: Fetched, store: MockStore): (r: Option<Article>)
    ensures r.None? <==> forall i :: 0 <= i < |GetArticles(f, store)| ==> GetArticles(f, store)[i].slug != slug
    ensures r.Some? ==> r.value.slug == slug && r.value in GetArticles(f, store)
    ensures r.Some? ==> exists k :: 0 <= k < |GetArticles(f, store)| && GetArticles(f, store)[k] == r.value
                                    && forall i :: 0 <= i < k ==> GetArticles(f, store)[i].slug != slug
  {
    var r := Find(GetArticles(f, store), HasSlug(Some(slug)));
    FindFacts(GetArticles(f, store), HasSlug(Some(slug)));
    r
  }

  /** `articles.filter(article => article.featured).slice(0, limit)`. */
  function GetFeaturedArticlesOld(limit: int, f: Fetched, store: MockStore): (r: seq<Article>)
    ensures limit >= 0 ==> |r| <= limit
    ensures forall i :: 0 <= i < |r| ==> r[i].featured
    ensures multiset(r) <= multiset(GetArticles(f, store))
    ensures r <= Filter(GetArticles(f, store), IsFeatured)
    ensures limit >= 0 ==> |r| == Min(limit, |Filter(GetArticles(f, store), IsFeatured)|)
  {
    var all := Filter(GetArticles(f, store), IsFeatured);
    PrefixMultiset(all, Slice(all, limit));
    Slice(all, limit)
  }

  /** `articles.filter(article => article.category?.slug === categorySlug)`. */
  function GetArticlesByCategoryOld(categorySlug: string, f: Fetched, store: MockStore): (r: seq<Article>)
    ensures forall i :: 0 <= i < |r| ==> r[i].category.slug == categorySlug
  {
    Filter(GetArticles(f, store), HasCategorySlug(Some(categorySlug)))
  }

  /** `articles.filter(article => article.tags?.some(tag => tag.slug === tagSlug))`. */
  function GetArticlesByTagOld(tagSlug: string, f: Fetched, store: MockStore): (r: seq<Article>)
    ensures forall i :: 0 <= i < |r| ==> TaggedWith(r[i], tagSlug)
  {
    Filter(GetArticles(f, store), HasTagSlug(Some(tagSlug)))
  }

  /** `articles.filter(article => article.author?.slug === authorSlug)`. */
  function GetArticlesByAuthorOld(authorSlug: string, f: Fetched, store: MockStore): (r: seq<Article>)
    ensures forall i :: 0 <= i < |r| ==> r[i].author.slug == authorSlug
  {
    Filter(GetArticles(f, store), HasAuthorSlug(Some(authorSlug)))
  }

  /** The filters of the `*Old` variants keep exactly the matching articles, in order. */
  lemma OldFiltersExact(f: Fetched, store: MockStore, key: string, a: Article)
    ensures a in GetArticlesByCategoryOld(key, f, store) <==> a in GetArticles(f, store) && a.category.slug == key
    ensures a in GetArticlesByAuthorOld(key, f, store) <==> a in GetArticles(f, store) && a.author.slug == key
    ensures a in GetArticlesByTagOld(key, f, store) <==> a in GetArticles(f, store) && TaggedWith(a, key)
    ensures multiset(GetArticlesByCategoryOld(key, f, store)) <= multiset(GetArticles(f, store))
  {
    FilterMembers(GetArticles(f, store), HasCategorySlug(Some(key)), a);
    FilterMembers(GetArticles(f, store), HasAuthorSlug(Some(key)), a);
    FilterMembers(GetArticles(f, store), HasTagSlug(Some(key)), a);
  }

  lemma FindFacts<T>(s: seq<T>, p: T -> bool)
    ensures Find(s, p).Some? ==> p(Find(s, p).value) && Find(s, p).value in s
    ensures Find(s, p).Some? ==> exists k :: 0 <= k < |s| && s[k] == Find(s, p).value && forall i :: 0 <= i < k ==> !p(s[i])
  {
    if Find(s, p).Some? {
      FindIsFirst(s, p);
    }
  }

  lemma PrefixMultiset<T>(s: seq<T>, r: seq<T>)
    requires r <= s
    ensures multiset(r) <= multiset(s)
  {
    assert s == r + s[|r|..];
  }

  // ---------------------------------------------------------------------
  // Routing facts about the concrete endpoints.

  /** `getArticles()` falls through every test to the whole mock article list. */
  lemma ArticlesEndpointIsPlain(store: MockStore)
    ensures GetMockData(ArticlesEndpoint, store) == ArticlesData(store.articles)
  {
    PlainEndpointWords(ArticlesEndpoint);
  }

  lemma PlainChars(e: string)
    requires e == ArticlesEndpoint
    ensures 'f' !in e && 'v' !in e && 'b' !in e && 'g' !in e && 'h' !in e
  {
  }

  lemma PlainShape(e: string)
    requires e == ArticlesEndpoint
    ensures OccursAt(e, "/articles", 0)
  {
  }

  lemma PlainEndpointWords(e: string)
    requires e == ArticlesEndpoint
    ensures Contains(e, "/articles")
    ensures !Contains(e, "featured") && !Contains(e, "views:desc")
    ensures !Contains(e, "publishedAt:desc") && !Contains(e, "category")
    ensures !Contains(e, "tags") && !Contains(e, "author")
    ensures !Contains(e, "slug")
  {
    PlainChars(e);
    PlainShape(e);
    MissingCharNotContained(e, "featured", 'f');
    MissingCharNotContained(e, "views:desc", 'v');
    MissingCharNotContained(e, "publishedAt:desc", 'b');
    MissingCharNotContained(e, "category", 'g');
    MissingCharNotContained(e, "tags", 'g');
    MissingCharNotContained(e, "author", 'h');
    MissingCharNotContained(e, "slug", 'g');
  }

  /** Neither seam character of a value-carrying endpoint occurs in a routing word. */
  lemma WordChars()
    ensures Lacks("featured", "=&") && Lacks("views:desc", "=&") && Lacks("publishedAt:desc", "=&")
    ensures Lacks("category", "=&") && Lacks("tags", "=&") && Lacks("author", "=&")
  {
  }

  lemma SlugQueryChars(p: string)
    requires p == SlugQuery
    ensures Lacks(p, "dvbyh") && NoPair(p, 't', 'a')
  {
  }

  lemma SlugQueryShape(p: string)
    requires p == SlugQuery
    ensures OccursAt(p, "/articles", 0) && OccursAt(p, "slug", 18) && p[|p| - 1] == '='
  {
  }

  /** The query ends with the marker, and the marker's first two characters meet nowhere earlier. */
  lemma SlugQueryMarker(p: string)
    requires p == SlugQuery
    ensures |p| >= |SlugMarker| && p[|p| - |SlugMarker|..] == SlugMarker
    ensures NoPair(p[..|p| - |SlugMarker| + 1], SlugMarker[0], SlugMarker[1])
  {
    assert p[..19] == "/articles?filters[s";
  }

  lemma PopulateChars(r: string)
    requires r == PopulateRest
    ensures Lacks(r, "dvbygh") && r[0] == '&'
  {
  }

  /**
   * A routing word is missing from `p + v + r` when it is missing from the
   * value, its kp-th character is missing from p and its kr-th from r.
   */
  lemma AbsentAround(p: string, v: string, r: string, w: string, kp: nat, kr: nat, pcs: string, rcs: string)
    requires p != [] && p[|p| - 1] == '=' && r != [] && r[0] == '&' && Lacks(w, "=&")
    requires kp < |w| && w[kp] in pcs && Lacks(p, pcs)
    requires kr < |w| && w[kr] in rcs && Lacks(r, rcs) && !Contains(v, w)
    ensures !Contains(p + v + r, w)
  {
    LackingWord(p, pcs, w, kp);
    LackingWord(r, rcs, w, kr);
    NotContainedInPlaced(p, v, r, w);
  }

  /** An occurrence in the leading piece is an occurrence in the endpoint. */
  lemma PresentAhead(p: string, v: string, r: string, w: string, i: nat)
    requires OccursAt(p, w, i)
    ensures Contains(p + v + r, w)
  {
    ContainedInExtension(p, w, v + r);
    assert p + (v + r) == p + v + r;
  }

  /** The capture of a value placed right after a marker that ends the leading piece. */
  lemma CaptureAfter(p: string, marker: string, v: string, r: string)
    requires v != [] && '&' !in v && (r == [] || r[0] == '&')
    requires |marker| >= 2 && |p| >= |marker| && p[|p| - |marker|..] == marker
    requires NoPair(p[..|p| - |marker| + 1], marker[0], marker[1])
    ensures Capture(p + v + r, marker) == Some(v)
  {
    EarlyMarkerAbsent(p, marker, v + r);
    assert p + (v + r) == p + v + r;
    FirstMatchAtSeam(p, marker, v, r);
    CaptureOfPlacedValue(p, marker, v, r);
  }

  /** The slug branch of the mock articles endpoint, reached when every earlier test fails. */
  lemma SlugBranch(e: string, store: MockStore)
    requires Contains(e, "/articles") && !Contains(e, "featured") && !Contains(e, "views:desc")
    requires !Contains(e, "publishedAt:desc") && !Contains(e, "category") && !Contains(e, "tags")
    requires !Contains(e, "author") && Contains(e, "slug")
    ensures GetMockData(e, store) == ArticlesData(Filter(store.articles, HasSlug(Capture(e, SlugMarker))))
    ensures forall a :: a in GetMockData(e, store).articles <==> a in store.articles && Capture(e, SlugMarker) == Some(a.slug)
    ensures multiset(GetMockData(e, store).articles) <= multiset(store.articles)
  {
    var r := Filter(store.articles, HasSlug(Capture(e, SlugMarker)));
    assert GetMockData(e, store).articles == r;
    forall a ensures a in r <==> a in store.articles && Capture(e, SlugMarker) == Some(a.slug) {
      CapturedFilterExact(e, SlugMarker, store, a);
    }
  }

  /** The words a slug-free value does not bring into the slug query. */
  lemma SlugQueryWordsA(slug: string)
    requires !Contains(slug, "featured") && !Contains(slug, "views:desc") && !Contains(slug, "publishedAt:desc")
    ensures var e := ArticleBySlugEndpoint(slug);
      !Contains(e, "featured") && !Contains(e, "views:desc") && !Contains(e, "publishedAt:desc")
  {
    var p, r := SlugQuery, PopulateRest;
    var e := p + slug + r;
    assert !Contains(e, "featured") by {
      SlugQueryChars(p);
      SlugQueryShape(p);
      PopulateChars(r);
      WordChars();
      AbsentAround(p, slug, r, "featured", 7, 7, "dvbyh", "dvbygh");
    }
    assert !Contains(e, "views:desc") by {
      SlugQueryChars(p);
      SlugQueryShape(p);
      PopulateChars(r);
      WordChars();
      AbsentAround(p, slug, r, "views:desc", 0, 0, "dvbyh", "dvbygh");
    }
    assert !Contains(e, "publishedAt:desc") by {
      SlugQueryChars(p);
      SlugQueryShape(p);
      PopulateChars(r);
      WordChars();
      AbsentAround(p, slug, r, "publishedAt:desc", 2, 2, "dvbyh", "dvbygh");
    }
  }

  lemma SlugQueryWordsB(slug: string)
    requires !Contains(slug, "category") && !Contains(slug, "author")
    ensures var e := ArticleBySlugEndpoint(slug); !Contains(e, "category") && !Contains(e, "author")
  {
    var p, r := SlugQuery, PopulateRest;
    var e := p + slug + r;
    assert !Contains(e, "category") by {
      SlugQueryChars(p);
      SlugQueryShape(p);
      PopulateChars(r);
      WordChars();
      AbsentAround(p, slug, r, "category", 7, 7, "dvbyh", "dvbygh");
    }
    assert !Contains(e, "author") by {
      SlugQueryChars(p);
      SlugQueryShape(p);
      PopulateChars(r);
      WordChars();
      AbsentAround(p, slug, r, "author", 3, 3, "dvbyh", "dvbygh");
    }
  }

  lemma SlugQueryTags(slug: string)
    requires !Contains(slug, "tags")
    ensures !Contains(ArticleBySlugEndpoint(slug), "tags")
  {
    var p, r := SlugQuery, PopulateRest;
    SlugQueryChars(p);
    SlugQueryShape(p);
    PopulateChars(r);
    WordChars();
    PairNotContained(p, "tags", 0);
    LackingWord(r, "dvbygh", "tags", 2);
    NotContainedInPlaced(p, slug, r, "tags");
  }

  /**
   * `getArticleBySlug(slug)` on the mock: the slug branch, provided the slug
   * is a non-empty run without '&' and does not itself contain a word that an
   * earlier branch tests for.
   */
  lemma SlugQueryRoute(slug: string, store: MockStore)
    requires slug != [] && '&' !in slug
    requires !Contains(slug, "featured") && !Contains(slug, "views:desc") && !Contains(slug, "publishedAt:desc")
    requires !Contains(slug, "category") && !Contains(slug, "tags") && !Contains(slug, "author")
    ensures GetMockData(ArticleBySlugEndpoint(slug), store) == ArticlesData(Filter(store.articles, HasSlug(Some(slug))))
  {
    var p, r := SlugQuery, PopulateRest;
    var e := ArticleBySlugEndpoint(slug);
    SlugQueryWordsA(slug);
    SlugQueryWordsB(slug);
    SlugQueryTags(slug);
    assert Contains(e, "/articles") && Contains(e, "slug") by {
      SlugQueryShape(p);
      PresentAhead(p, slug, r, "/articles", 0);
      PresentAhead(p, slug, r, "slug", 18);
    }
    assert Capture(e, SlugMarker) == Some(slug) by {
      SlugQueryMarker(p);
      PopulateChars(r);
      CaptureAfter(p, SlugMarker, slug, r);
    }
    SlugBranch(e, store);
  }

  // ---------------------------------------------------------------------
  // The branches of `getMockData`, each reached when every earlier test fails.

  /** The "featured" branch keeps exactly the featured mock articles, in mock order. */
  lemma FeaturedBranch(e: string, store: MockStore)
    requires Contains(e, "/articles") && Contains(e, "featured")
    ensures GetMockData(e, store) == ArticlesData(Filter(store.articles, IsFeatured))
    ensures forall a :: a in GetMockData(e, store).articles <==> a in store.articles && a.featured
    ensures multiset(GetMockData(e, store).articles) <= multiset(store.articles)
  {
    var r := Filter(store.articles, IsFeatured);
    assert GetMockData(e, store).articles == r;
    forall a ensures a in r <==> a in store.articles && a.featured {
      FilterMembers(store.articles, IsFeatured, a);
    }
  }

  /** The "views:desc" branch: a stable sort of a copy, non-increasing in views. */
  lemma ViewsBranch(e: string, store: MockStore)
    requires Contains(e, "/articles") && !Contains(e, "featured") && Contains(e, "views:desc")
    ensures GetMockData(e, store) == ArticlesData(SortDesc(store.articles, ViewsKey))
    ensures SortedDesc(GetMockData(e, store).articles, ViewsKey)
    ensures multiset(GetMockData(e, store).articles) == multiset(store.articles)
  {
    SortDescSorted(store.articles, ViewsKey);
    SortDescMultiset(store.articles, ViewsKey);
  }

  /** The "publishedAt:desc" branch: a stable sort of a copy, newest first. */
  lemma PublishedBranch(e: string, store: MockStore)
    requires Contains(e, "/articles") && !Contains(e, "featured") && !Contains(e, "views:desc")
    requires Contains(e, "publishedAt:desc")
    ensures GetMockData(e, store) == ArticlesData(SortDesc(store.articles, PublishedKey))
    ensures SortedDesc(GetMockData(e, store).articles, PublishedKey)
    ensures multiset(GetMockData(e, store).articles) == multiset(store.articles)
  {
    SortDescSorted(store.articles, PublishedKey);
    SortDescMultiset(store.articles, PublishedKey);
  }

  /** The "category" branch keeps exactly the mock articles whose category slug is the captured value, in mock order. */
  lemma CategoryBranch(e: string, store: MockStore)
    requires Contains(e, "/articles") && !Contains(e, "featured") && !Contains(e, "views:desc")
    requires !Contains(e, "publishedAt:desc") && Contains(e, "category")
    ensures GetMockData(e, store) == ArticlesData(Filter(store.articles, HasCategorySlug(Capture(e, CategoryMarker))))
    ensures forall a :: a in GetMockData(e, store).articles <==> a in store.articles && Capture(e, CategoryMarker) == Some(a.category.slug)
    ensures multiset(GetMockData(e, store).articles) <= multiset(store.articles)
  {
    var r := Filter(store.articles, HasCategorySlug(Capture(e, CategoryMarker)));
    assert GetMockData(e, store).articles == r;
    forall a ensures a in r <==> a in store.articles && Capture(e, CategoryMarker) == Some(a.category.slug) {
      CapturedFilterExact(e, CategoryMarker, store, a);
    }
  }

  /** The "tags" branch keeps exactly the mock articles carrying a tag whose slug is the captured value, in mock order. */
  lemma TagBranch(e: string, store: MockStore)
    requires Contains(e, "/articles") && !Contains(e, "featured") && !Contains(e, "views:desc")
    requires !Contains(e, "publishedAt:desc") && !Contains(e, "category") && Contains(e, "tags")
    ensures GetMockData(e, store) == ArticlesData(Filter(store.articles, HasTagSlug(Capture(e, TagMarker))))
    ensures forall a :: a in GetMockData(e, store).articles <==> a in store.articles && Capture(e, TagMarker).Some? && TaggedWith(a, Capture(e, TagMarker).value)
    ensures multiset(GetMockData(e, store).articles) <= multiset(store.articles)
  {
    var r := Filter(store.articles, HasTagSlug(Capture(e, TagMarker)));
    assert GetMockData(e, store).articles == r;
    forall a ensures a in r <==> a in store.articles && Capture(e, TagMarker).Some? && TaggedWith(a, Capture(e, TagMarker).value) {
      CapturedFilterExact(e, TagMarker, store, a);
    }
  }

  /** The "author" branch keeps exactly the mock articles whose author slug is the captured value, in mock order. */
  lemma AuthorBranch(e: string, store: MockStore)
    requires Contains(e, "/articles") && !Contains(e, "featured") && !Contains(e, "views:desc")
    requires !Contains(e, "publishedAt:desc") && !Contains(e, "category") && !Contains(e, "tags")
    requires Contains(e, "author")
    ensures GetMockData(e, store) == ArticlesData(Filter(store.articles, HasAuthorSlug(Capture(e, AuthorMarker))))
    ensures forall a :: a in GetMockData(e, store).articles <==> a in store.articles && Capture(e, AuthorMarker) == Some(a.author.slug)
    ensures multiset(GetMockData(e, store).articles) <= multiset(store.articles)
  {
    var r := Filter(store.articles, HasAuthorSlug(Capture(e, AuthorMarker)));
    assert GetMockData(e, store).articles == r;
    forall a ensures a in r <==> a in store.articles && Capture(e, AuthorMarker) == Some(a.author.slug) {
      CapturedFilterExact(e, AuthorMarker, store, a);
    }
  }

  /**
   * A value branch keeps exactly the articles whose field equals the captured
   * value; when the marker does not match (an `$in` query, say) the captured
   * value is `undefined`, no field equals it, and the answer is empty.
   */
  lemma CapturedFilterExact(e: string, marker: string, store: MockStore, a: Article)
    ensures a in Filter(store.articles, HasCategorySlug(Capture(e, marker)))
            <==> a in store.articles && Capture(e, marker) == Some(a.category.slug)
    ensures a in Filter(store.articles, HasTagSlug(Capture(e, marker)))
            <==> a in store.articles && Capture(e, marker).Some? && TaggedWith(a, Capture(e, marker).value)
    ensures a in Filter(store.articles, HasAuthorSlug(Capture(e, marker)))
            <==> a in store.articles && Capture(e, marker) == Some(a.author.slug)
    ensures a in Filter(store.articles, HasSlug(Capture(e, marker)))
            <==> a in store.articles && Capture(e, marker) == Some(a.slug)
  {
    FilterMembers(store.articles, HasCategorySlug(Capture(e, marker)), a);
    FilterMembers(store.articles, HasTagSlug(Capture(e, marker)), a);
    FilterMembers(store.articles, HasAuthorSlug(Capture(e, marker)), a);
    FilterMembers(store.articles, HasSlug(Capture(e, marker)), a);
  }

  lemma {:induction false} NothingMatchesUndefined(articles: seq<Article>)
    ensures Filter(articles, HasCategorySlug(None)) == [] && Filter(articles, HasTagSlug(None)) == []
    ensures Filter(articles, HasAuthorSlug(None)) == [] && Filter(articles, HasSlug(None)) == []
  {
    if articles != [] {
      NothingMatchesUndefined(articles[1..]);
    }
  }

  // ---------------------------------------------------------------------
  // The listing endpoints that end in a numeral.

  lemma FeaturedHeadShape(h: string)
    requires h == FeaturedHead
    ensures OccursAt(h, "/articles", 0) && OccursAt(h, "featured", 18)
  {
  }

  lemma LatestHeadShape(h: string)
    requires h == LatestHead
    ensures OccursAt(h, "/articles", 0) && OccursAt(h, "publishedAt:desc", 18)
  {
  }

  lemma LatestHeadChars(h: string)
    requires h == LatestHead
    ensures Lacks(h, "fw")
  {
  }

  lemma TopHeadShape(h: string)
    requires h == TopHead
    ensures Lacks(h, "f") && OccursAt(h, "/articles", 0) && OccursAt(h, "views:desc", 18)
  {
  }

  lemma LimitRestChars(r: string)
    requires r == LimitRest
    ensures Lacks(r, "fwdvbyhcs$") && r[0] == '&'
  {
  }

  /** The tail `&populate=*&pagination[limit]=${limit}` lacks the characters LimitRest lacks, bar digits. */
  lemma LimitTailChars(limit: int)
    ensures var l := LimitRest + IntToString(limit); Lacks(l, "fwdvbyhcs$") && l != [] && l[0] == '&'
  {
    LimitRestChars(LimitRest);
    assert (LimitRest + IntToString(limit))[0] == LimitRest[0];
    LacksNumeral(limit, "fwdvbyhcs$");
    LacksConcat(LimitRest, IntToString(limit), "fwdvbyhcs$");
  }

  lemma FeaturedRoute(limit: int, store: MockStore)
    ensures GetMockData(FeaturedEndpoint(limit), store) == ArticlesData(Filter(store.articles, IsFeatured))
  {
    var h, t := FeaturedHead, LimitRest + IntToString(limit);
    FeaturedHeadShape(h);
    ContainedInExtension(h, "/articles", t);
    ContainedInExtension(h, "featured", t);
    assert h + t == FeaturedEndpoint(limit);
    FeaturedBranch(FeaturedEndpoint(limit), store);
  }

  lemma LatestRoute(limit: int, store: MockStore)
    ensures GetMockData(LatestEndpoint(limit), store) == ArticlesData(SortDesc(store.articles, PublishedKey))
  {
    LatestWords(limit);
    PublishedBranch(LatestEndpoint(limit), store);
  }

  lemma LatestWords(limit: int)
    ensures var e := LatestEndpoint(limit);
      !Contains(e, "featured") && !Contains(e, "views:desc") && Contains(e, "/articles") && Contains(e, "publishedAt:desc")
  {
    var h, t := LatestHead, LimitRest + IntToString(limit);
    LatestHeadShape(h);
    LatestHeadChars(h);
    LimitTailChars(limit);
    LatestWordsFrom(h, t);
    assert h + t == LatestEndpoint(limit);
  }

  lemma LatestWordsFrom(h: string, t: string)
    requires Lacks(h, "fw") && OccursAt(h, "/articles", 0) && OccursAt(h, "publishedAt:desc", 18)
    requires Lacks(t, "fwdvbyhcs$")
    ensures !Contains(h + t, "featured") && !Contains(h + t, "views:desc")
    ensures Contains(h + t, "/articles") && Contains(h + t, "publishedAt:desc")
  {
    assert Lacks(t, "fw");
    LacksConcat(h, t, "fw");
    LackingWord(h + t, "fw", "featured", 0);
    LackingWord(h + t, "fw", "views:desc", 3);
    ContainedInExtension(h, "/articles", t);
    ContainedInExtension(h, "publishedAt:desc", t);
  }

  lemma TopRoute(limit: int, store: MockStore)
    ensures GetMockData(TopEndpoint(limit), store) == ArticlesData(SortDesc(store.articles, ViewsKey))
  {
    TopWords(limit);
    ViewsBranch(TopEndpoint(limit), store);
  }

  lemma TopWords(limit: int)
    ensures var e := TopEndpoint(limit);
      !Contains(e, "featured") && Contains(e, "/articles") && Contains(e, "views:desc")
  {
    var h, t := TopHead, LimitRest + IntToString(limit);
    TopHeadShape(h);
    LimitTailChars(limit);
    TopWordsFrom(h, t);
    assert h + t == TopEndpoint(limit);
  }

  lemma TopWordsFrom(h: string, t: string)
    requires Lacks(h, "f") && OccursAt(h, "/articles", 0) && OccursAt(h, "views:desc", 18)
    requires Lacks(t, "fwdvbyhcs$")
    ensures !Contains(h + t, "featured") && Contains(h + t, "/articles") && Contains(h + t, "views:desc")
  {
    assert Lacks(t, "f");
    LacksConcat(h, t, "f");
    LackingWord(h + t, "f", "featured", 0);
    ContainedInExtension(h, "/articles", t);
    ContainedInExtension(h, "views:desc", t);
  }

  // ---------------------------------------------------------------------
  // The value-carrying queries: category, tag and author.

  /** The trailing `&populate=*` contains no routing word. */
  lemma PopulateWords(r: string)
    requires r == PopulateRest
    ensures r != [] && r[0] == '&'
    ensures !Contains(r, "featured") && !Contains(r, "views:desc") && !Contains(r, "publishedAt:desc")
    ensures !Contains(r, "category") && !Contains(r, "tags") && !Contains(r, "author")
  {
    PopulateChars(r);
    LackingWords(r);
  }

  /** A string without any of the characters d, v, b, y, g, h holds none of the routing words. */
  lemma LackingWords(r: string)
    requires Lacks(r, "dvbygh")
    ensures !Contains(r, "featured") && !Contains(r, "views:desc") && !Contains(r, "publishedAt:desc")
    ensures !Contains(r, "category") && !Contains(r, "tags") && !Contains(r, "author")
  {
    LackingWord(r, "dvbygh", "featured", 7);
    LackingWord(r, "dvbygh", "views:desc", 0);
    LackingWord(r, "dvbygh", "publishedAt:desc", 2);
    LackingWord(r, "dvbygh", "category", 7);
    LackingWord(r, "dvbygh", "tags", 2);
    LackingWord(r, "dvbygh", "author", 3);
  }

  lemma IdFilterChars(f: string)
    requires f == IdFilter
    ensures Lacks(f, "uvby") && NoPair(f, '$', 'e') && f[0] == '&' && f[|f| - 1] == '='
  {
  }

  /** The id filter and limit that `getRelatedArticles` appends contain no routing word the id lacks. */
  lemma RelatedTailWords(currentId: string, limit: int)
    requires !Contains(currentId, "featured") && !Contains(currentId, "views:desc")
    requires !Contains(currentId, "publishedAt:desc") && !Contains(currentId, "category")
    ensures var t := RelatedTail(currentId, limit);
      && t != [] && t[0] == '&'
      && !Contains(t, "featured") && !Contains(t, "views:desc")
      && !Contains(t, "publishedAt:desc") && !Contains(t, "category")
  {
    IdFilterChars(IdFilter);
    LimitTailChars(limit);
    AbsentAroundWords(IdFilter, currentId, LimitRest + IntToString(limit));
  }

  /** The routing words missing from the value stay missing between a filter without u, v, b, y and a limit tail. */
  lemma AbsentAroundWords(f: string, v: string, l: string)
    requires Lacks(f, "uvby") && f != [] && f[0] == '&' && f[|f| - 1] == '='
    requires Lacks(l, "fwdvbyhcs$") && l != [] && l[0] == '&'
    requires !Contains(v, "featured") && !Contains(v, "views:desc")
    requires !Contains(v, "publishedAt:desc") && !Contains(v, "category")
    ensures var t := f + v + l;
      && t != [] && t[0] == '&'
      && !Contains(t, "featured") && !Contains(t, "views:desc")
      && !Contains(t, "publishedAt:desc") && !Contains(t, "category")
  {
    WordChars();
    AbsentAround(f, v, l, "featured", 4, 7, "uvby", "fwdvbyhcs$");
    AbsentAround(f, v, l, "views:desc", 0, 0, "uvby", "fwdvbyhcs$");
    AbsentAround(f, v, l, "publishedAt:desc", 1, 2, "uvby", "fwdvbyhcs$");
    AbsentAround(f, v, l, "category", 7, 7, "uvby", "fwdvbyhcs$");
  }

  /** Without a '$' in the id, the tail has no "$e", so no `[$eq]=` marker can occur in it. */
  lemma RelatedTailNoEq(currentId: string, limit: int)
    requires Lacks(currentId, "$")
    ensures NoPair(RelatedTail(currentId, limit), '$', 'e')
  {
    var f, l := IdFilter, LimitRest + IntToString(limit);
    IdFilterChars(f);
    LimitTailChars(limit);
    LacksNoPair(l, "fwdvbyhcs$", '$', 'e');
    NoPairPlaced(f, currentId, l, '$', 'e');
  }

  /** A word missing from p (its k-th character is), from the value and from the tail is missing from the endpoint. */
  lemma AbsentBefore(p: string, v: string, r: string, w: string, k: nat, pcs: string)
    requires p != [] && p[|p| - 1] == '=' && r != [] && r[0] == '&' && Lacks(w, "=&")
    requires k < |w| && w[k] in pcs && Lacks(p, pcs) && !Contains(v, w) && !Contains(r, w)
    ensures !Contains(p + v + r, w)
  {
    LackingWord(p, pcs, w, k);
    NotContainedInPlaced(p, v, r, w);
  }

  lemma CategoryQueryChars(p: string)
    requires p == CategoryQuery
    ensures Lacks(p, "dvb")
  {
  }

  lemma CategoryQueryShape(p: string)
    requires p == CategoryQuery
    ensures OccursAt(p, "/articles", 0) && OccursAt(p, "category", 18) && p[|p| - 1] == '='
  {
  }

  /** The query ends with the marker, and the marker's first two characters meet nowhere earlier. */
  lemma CategoryQueryMarker(p: string)
    requires p == CategoryQuery
    ensures |p| >= |CategoryMarker| && p[|p| - |CategoryMarker|..] == CategoryMarker
    ensures NoPair(p[..|p| - |CategoryMarker| + 1], CategoryMarker[0], CategoryMarker[1])
  {
    assert p[..19] == "/articles?filters[c";
  }

  /** The category query with value v and a tail r: the category branch, capturing v. */
  lemma CategoryQueryRoute(v: string, r: string, store: MockStore)
    requires v != [] && '&' !in v && r != [] && r[0] == '&'
    requires !Contains(v, "featured") && !Contains(v, "views:desc") && !Contains(v, "publishedAt:desc")
    requires !Contains(r, "featured") && !Contains(r, "views:desc") && !Contains(r, "publishedAt:desc")
    ensures GetMockData(CategoryQuery + v + r, store) == ArticlesData(Filter(store.articles, HasCategorySlug(Some(v))))
  {
    var p := CategoryQuery;
    var e := p + v + r;
    assert !Contains(e, "featured") by {
      CategoryQueryChars(p);
      CategoryQueryShape(p);
      WordChars();
      AbsentBefore(p, v, r, "featured", 7, "dvb");
    }
    assert !Contains(e, "views:desc") by {
      CategoryQueryChars(p);
      CategoryQueryShape(p);
      WordChars();
      AbsentBefore(p, v, r, "views:desc", 0, "dvb");
    }
    assert !Contains(e, "publishedAt:desc") by {
      CategoryQueryChars(p);
      CategoryQueryShape(p);
      WordChars();
      AbsentBefore(p, v, r, "publishedAt:desc", 2, "dvb");
    }
    assert Contains(e, "/articles") && Contains(e, "category") by {
      CategoryQueryShape(p);
      PresentAhead(p, v, r, "/articles", 0);
      PresentAhead(p, v, r, "category", 18);
    }
    assert Capture(e, CategoryMarker) == Some(v) by {
      CategoryQueryMarker(p);
      CaptureAfter(p, CategoryMarker, v, r);
    }
    CategoryBranch(e, store);
  }

  lemma TagQueryChars(p: string)
    requires p == TagQuery
    ensures Lacks(p, "dvby")
  {
  }

  lemma TagQueryShape(p: string)
    requires p == TagQuery
    ensures OccursAt(p, "/articles", 0) && OccursAt(p, "tags", 18) && p[|p| - 1] == '='
  {
  }

  /** The query ends with the marker, and the marker's first two characters meet nowhere earlier. */
  lemma TagQueryMarker(p: string)
    requires p == TagQuery
    ensures |p| >= |TagMarker| && p[|p| - |TagMarker|..] == TagMarker
    ensures NoPair(p[..|p| - |TagMarker| + 1], TagMarker[0], TagMarker[1])
  {
    assert p[..19] == "/articles?filters[t";
  }

  /** The tag query with value v and a tail r: the tag branch, capturing v. */
  lemma TagQueryRoute(v: string, r: string, store: MockStore)
    requires v != [] && '&' !in v && r != [] && r[0] == '&'
    requires !Contains(v, "featured") && !Contains(v, "views:desc") && !Contains(v, "publishedAt:desc")
    requires !Contains(v, "category")
    requires !Contains(r, "featured") && !Contains(r, "views:desc") && !Contains(r, "publishedAt:desc")
    requires !Contains(r, "category")
    ensures GetMockData(TagQuery + v + r, store) == ArticlesData(Filter(store.articles, HasTagSlug(Some(v))))
  {
    var p := TagQuery;
    var e := p + v + r;
    assert !Contains(e, "featured") by {
      TagQueryChars(p);
      TagQueryShape(p);
      WordChars();
      AbsentBefore(p, v, r, "featured", 7, "dvby");
    }
    assert !Contains(e, "views:desc") by {
      TagQueryChars(p);
      TagQueryShape(p);
      WordChars();
      AbsentBefore(p, v, r, "views:desc", 0, "dvby");
    }
    assert !Contains(e, "publishedAt:desc") by {
      TagQueryChars(p);
      TagQueryShape(p);
      WordChars();
      AbsentBefore(p, v, r, "publishedAt:desc", 2, "dvby");
    }
    assert !Contains(e, "category") by {
      TagQueryChars(p);
      TagQueryShape(p);
      WordChars();
      AbsentBefore(p, v, r, "category", 7, "dvby");
    }
    assert Contains(e, "/articles") && Contains(e, "tags") by {
      TagQueryShape(p);
      PresentAhead(p, v, r, "/articles", 0);
      PresentAhead(p, v, r, "tags", 18);
    }
    assert Capture(e, TagMarker) == Some(v) by {
      TagQueryMarker(p);
      CaptureAfter(p, TagMarker, v, r);
    }
    TagBranch(e, store);
  }

  lemma AuthorQueryChars(p: string)
    requires p == AuthorQuery
    ensures Lacks(p, "dvby") && NoPair(p, 't', 'a')
  {
  }

  lemma AuthorQueryShape(p: string)
    requires p == AuthorQuery
    ensures OccursAt(p, "/articles", 0) && OccursAt(p, "author", 18) && p[|p| - 1] == '='
  {
  }

  /** The query ends with the marker, and the marker's first two characters meet nowhere earlier. */
  lemma AuthorQueryMarker(p: string)
    requires p == AuthorQuery
    ensures |p| >= |AuthorMarker| && p[|p| - |AuthorMarker|..] == AuthorMarker
    ensures NoPair(p[..|p| - |AuthorMarker| + 1], AuthorMarker[0], AuthorMarker[1])
  {
    assert p[..19] == "/articles?filters[a";
  }

  /** The author query with value v and a tail r: the author branch, capturing v. */
  lemma AuthorQueryRoute(v: string, r: string, store: MockStore)
    requires v != [] && '&' !in v && r != [] && r[0] == '&'
    requires !Contains(v, "featured") && !Contains(v, "views:desc") && !Contains(v, "publishedAt:desc")
    requires !Contains(v, "category") && !Contains(v, "tags")
    requires !Contains(r, "featured") && !Contains(r, "views:desc") && !Contains(r, "publishedAt:desc")
    requires !Contains(r, "category") && !Contains(r, "tags")
    ensures GetMockData(AuthorQuery + v + r, store) == ArticlesData(Filter(store.articles, HasAuthorSlug(Some(v))))
  {
    var e := AuthorQuery + v + r;
    AuthorQueryAbsent(v, r);
    AuthorQueryPresent(v, r);
    AuthorBranch(e, store);
  }

  /** The author query, whatever value and tail it carries, names none of the earlier routes. */
  lemma AuthorQueryAbsent(v: string, r: string)
    requires r != [] && r[0] == '&'
    requires !Contains(v, "featured") && !Contains(v, "views:desc") && !Contains(v, "publishedAt:desc")
    requires !Contains(v, "category")
    requires !Contains(r, "featured") && !Contains(r, "views:desc") && !Contains(r, "publishedAt:desc")
    requires !Contains(r, "category")
    ensures var e := AuthorQuery + v + r;
      !Contains(e, "featured") && !Contains(e, "views:desc") && !Contains(e, "publishedAt:desc")
      && !Contains(e, "category")
  {
    var p := AuthorQuery;
    var e := p + v + r;
    assert !Contains(e, "featured") by {
      AuthorQueryChars(p);
      AuthorQueryShape(p);
      WordChars();
      AbsentBefore(p, v, r, "featured", 7, "dvby");
    }
    assert !Contains(e, "views:desc") by {
      AuthorQueryChars(p);
      AuthorQueryShape(p);
      WordChars();
      AbsentBefore(p, v, r, "views:desc", 0, "dvby");
    }
    assert !Contains(e, "publishedAt:desc") by {
      AuthorQueryChars(p);
      AuthorQueryShape(p);
      WordChars();
      AbsentBefore(p, v, r, "publishedAt:desc", 2, "dvby");
    }
    assert !Contains(e, "category") by {
      AuthorQueryChars(p);
      AuthorQueryShape(p);
      WordChars();
      AbsentBefore(p, v, r, "category", 7, "dvby");
    }
  }

  /** The author query holds no "tags", holds the words of its own branch and captures `v`. */
  lemma AuthorQueryPresent(v: string, r: string)
    requires v != [] && '&' !in v && r != [] && r[0] == '&'
    requires !Contains(v, "tags") && !Contains(r, "tags")
    ensures var e := AuthorQuery + v + r;
      !Contains(e, "tags") && Contains(e, "/articles") && Contains(e, "author")
      && Capture(e, AuthorMarker) == Some(v)
  {
    var p := AuthorQuery;
    var e := p + v + r;
    assert !Contains(e, "tags") by {
      AuthorQueryChars(p);
      PairNotContained(p, "tags", 0);
      NotContainedInPlaced(p, v, r, "tags");
    }
    assert Contains(e, "/articles") && Contains(e, "author") by {
      AuthorQueryShape(p);
      PresentAhead(p, v, r, "/articles", 0);
      PresentAhead(p, v, r, "author", 18);
    }
    assert Capture(e, AuthorMarker) == Some(v) by {
      AuthorQueryMarker(p);
      CaptureAfter(p, AuthorMarker, v, r);
    }
  }

  // ---------------------------------------------------------------------
  // The two queries of `getRelatedArticles` on the mock.

  lemma TagInQueryChars(p: string)
    requires p == TagInQuery
    ensures Lacks(p, "dvby") && NoPair(p, '$', 'e')
  {
  }

  lemma TagInQueryShape(p: string)
    requires p == TagInQuery
    ensures p[|p| - 1] == '=' && OccursAt(p, "/articles", 0) && OccursAt(p, "tags", 18)
  {
  }

  /**
   * The mock ignores `[id][$ne]` and the limit: for a non-empty, `&`-free
   * category slug and an id that hold no word an earlier branch tests for,
   * the related-category query answers every article of the category, the
   * current one included.
   */
  lemma RelatedCategoryRoute(categorySlug: string, currentId: string, limit: int, store: MockStore)
    requires categorySlug != [] && '&' !in categorySlug
    requires !Contains(categorySlug, "featured") && !Contains(categorySlug, "views:desc")
    requires !Contains(categorySlug, "publishedAt:desc")
    requires !Contains(currentId, "featured") && !Contains(currentId, "views:desc")
    requires !Contains(currentId, "publishedAt:desc") && !Contains(currentId, "category")
    ensures GetMockData(RelatedCategoryEndpoint(categorySlug, currentId, limit), store)
            == ArticlesData(Filter(store.articles, HasCategorySlug(Some(categorySlug))))
  {
    RelatedTailWords(currentId, limit);
    CategoryQueryRoute(categorySlug, RelatedTail(currentId, limit), store);
  }

  /**
   * The `$in` tag query carries no `[$eq]=` marker, so on the mock nothing
   * is captured and the answer is empty, for tag slugs and an id without
   * `$` that hold no word an earlier branch tests for.
   */
  lemma RelatedTagsRoute(tagSlugs: string, currentId: string, limit: int, store: MockStore)
    requires Lacks(tagSlugs, "$") && Lacks(currentId, "$")
    requires !Contains(tagSlugs, "featured") && !Contains(tagSlugs, "views:desc")
    requires !Contains(tagSlugs, "publishedAt:desc") && !Contains(tagSlugs, "category")
    requires !Contains(currentId, "featured") && !Contains(currentId, "views:desc")
    requires !Contains(currentId, "publishedAt:desc") && !Contains(currentId, "category")
    ensures GetMockData(RelatedTagsEndpoint(tagSlugs, currentId, limit), store) == ArticlesData([])
  {
    var e := RelatedTagsEndpoint(tagSlugs, currentId, limit);
    RelatedTagsWords(tagSlugs, currentId, limit);
    RelatedTagsNoMarker(tagSlugs, currentId, limit);
    CaptureWithoutMarker(e, TagMarker);
    TagBranch(e, store);
    NothingMatchesUndefined(store.articles);
  }

  lemma RelatedTagsWords(tagSlugs: string, currentId: string, limit: int)
    requires !Contains(tagSlugs, "featured") && !Contains(tagSlugs, "views:desc")
    requires !Contains(tagSlugs, "publishedAt:desc") && !Contains(tagSlugs, "category")
    requires !Contains(currentId, "featured") && !Contains(currentId, "views:desc")
    requires !Contains(currentId, "publishedAt:desc") && !Contains(currentId, "category")
    ensures var e := RelatedTagsEndpoint(tagSlugs, currentId, limit);
      && !Contains(e, "featured") && !Contains(e, "views:desc")
      && !Contains(e, "publishedAt:desc") && !Contains(e, "category")
      && Contains(e, "/articles") && Contains(e, "tags")
  {
    var p, t := TagInQuery, RelatedTail(currentId, limit);
    var e := p + tagSlugs + t;
    assert !Contains(e, "featured") by {
      TagInQueryChars(p);
      TagInQueryShape(p);
      RelatedTailWords(currentId, limit);
      WordChars();
      AbsentBefore(p, tagSlugs, t, "featured", 7, "dvby");
    }
    assert !Contains(e, "views:desc") by {
      TagInQueryChars(p);
      TagInQueryShape(p);
      RelatedTailWords(currentId, limit);
      WordChars();
      AbsentBefore(p, tagSlugs, t, "views:desc", 0, "dvby");
    }
    assert !Contains(e, "publishedAt:desc") by {
      TagInQueryChars(p);
      TagInQueryShape(p);
      RelatedTailWords(currentId, limit);
      WordChars();
      AbsentBefore(p, tagSlugs, t, "publishedAt:desc", 2, "dvby");
    }
    assert !Contains(e, "category") by {
      TagInQueryChars(p);
      TagInQueryShape(p);
      RelatedTailWords(currentId, limit);
      WordChars();
      AbsentBefore(p, tagSlugs, t, "category", 7, "dvby");
    }
    assert Contains(e, "/articles") && Contains(e, "tags") by {
      TagInQueryShape(p);
      PresentAhead(p, tagSlugs, t, "/articles", 0);
      PresentAhead(p, tagSlugs, t, "tags", 18);
    }
  }

  /** With no `$` in the tag slugs or the id, the `$in` endpoint holds no `[$eq]=` marker. */
  lemma RelatedTagsNoMarker(tagSlugs: string, currentId: string, limit: int)
    requires Lacks(tagSlugs, "$") && Lacks(currentId, "$")
    ensures !Contains(RelatedTagsEndpoint(tagSlugs, currentId, limit), TagMarker)
  {
    var p, t := TagInQuery, RelatedTail(currentId, limit);
    TagInQueryChars(p);
    TagInQueryShape(p);
    RelatedTailNoEq(currentId, limit);
    NoPairPlaced(p, tagSlugs, t, '$', 'e');
    PairNotContained(p + tagSlugs + t, TagMarker, 12);
  }

  /** A slug that contains "featured" is answered by the featured branch, not by the slug filter. */
  lemma SlugShadowedByFeatured(slug: string, store: MockStore)
    requires Contains(slug, "featured")
    ensures GetArticleBySlug(slug, Fallback, store) == First(Filter(store.articles, IsFeatured))
  {
    var p, r := SlugQuery, PopulateRest;
    SlugQueryShape(p);
    PresentAhead(p, slug, r, "/articles", 0);
    ContainedInMiddle(p, slug, r, "featured");
    FeaturedBranch(ArticleBySlugEndpoint(slug), store);
  }

  // ---------------------------------------------------------------------
  // The exported queries agree with the `*Old` variants on the mock.

  /**
   * On the mock, the latest query gives the first `limit` elements of the
   * stable newest-first sort: sorted, drawn from the mock, no older than
   * anything left out, and articles with equal timestamps in input order.
   */
  lemma LatestFallback(limit: int, store: MockStore, k: int)
    ensures var r := GetLatestArticles(limit, Fallback, store);
      && (limit >= 0 ==> |r| == Min(limit, |store.articles|))
      && SortedDesc(r, PublishedKey) && multiset(r) <= multiset(store.articles)
      && (forall x, y :: x in r && y in multiset(store.articles) - multiset(r) ==> PublishedKey(x) >= PublishedKey(y))
      && KeyClass(r, PublishedKey, k) <= KeyClass(store.articles, PublishedKey, k)
  {
    TopOfSort(store.articles, PublishedKey, limit, k);
  }

  /** The same for the top query, by view count. */
  lemma TopFallback(limit: int, store: MockStore, k: int)
    ensures var r := GetTopArticles(limit, Fallback, store);
      && (limit >= 0 ==> |r| == Min(limit, |store.articles|))
      && SortedDesc(r, ViewsKey) && multiset(r) <= multiset(store.articles)
      && (forall x, y :: x in r && y in multiset(store.articles) - multiset(r) ==> ViewsKey(x) >= ViewsKey(y))
      && KeyClass(r, ViewsKey, k) <= KeyClass(store.articles, ViewsKey, k)
  {
    TopOfSort(store.articles, ViewsKey, limit, k);
  }

  /** The slug query finds, on the mock, the article `find` finds. */
  lemma ArticleBySlugFallback(slug: string, store: MockStore)
    requires slug != [] && '&' !in slug
    requires !Contains(slug, "featured") && !Contains(slug, "views:desc") && !Contains(slug, "publishedAt:desc")
    requires !Contains(slug, "category") && !Contains(slug, "tags") && !Contains(slug, "author")
    ensures GetArticleBySlug(slug, Fallback, store) == GetArticleBySlugOld(slug, Fallback, store)
  {
    SlugQueryRoute(slug, store);
    FilterFirstIsFind(store.articles, HasSlug(Some(slug)));
  }

  lemma ByCategoryFallback(slug: string, store: MockStore)
    requires slug != [] && '&' !in slug
    requires !Contains(slug, "featured") && !Contains(slug, "views:desc") && !Contains(slug, "publishedAt:desc")
    ensures GetArticlesByCategory(slug, Fallback, store) == GetArticlesByCategoryOld(slug, Fallback, store)
  {
    PopulateWords(PopulateRest);
    CategoryQueryRoute(slug, PopulateRest, store);
  }

  lemma ByTagFallback(slug: string, store: MockStore)
    requires slug != [] && '&' !in slug
    requires !Contains(slug, "featured") && !Contains(slug, "views:desc") && !Contains(slug, "publishedAt:desc")
    requires !Contains(slug, "category")
    ensures GetArticlesByTag(slug, Fallback, store) == GetArticlesByTagOld(slug, Fallback, store)
  {
    PopulateWords(PopulateRest);
    TagQueryRoute(slug, PopulateRest, store);
  }

  lemma ByAuthorFallback(slug: string, store: MockStore)
    requires slug != [] && '&' !in slug
    requires !Contains(slug, "featured") && !Contains(slug, "views:desc") && !Contains(slug, "publishedAt:desc")
    requires !Contains(slug, "category") && !Contains(slug, "tags")
    ensures GetArticlesByAuthor(slug, Fallback, store) == GetArticlesByAuthorOld(slug, Fallback, store)
  {
    PopulateWords(PopulateRest);
    AuthorQueryRoute(slug, PopulateRest, store);
  }

  // ---------------------------------------------------------------------
  // `getRelatedArticles` (lib/api.ts:211-237).

  function IdOf(a: Article): string { a.id }

  /** `tags.map((tag) => tag.slug)`. */
  function SlugsOf(tags: seq<Tag>): (r: seq<string>)
    ensures |r| == |tags| && forall i :: 0 <= i < |tags| ==> r[i] == tags[i].slug
  {
    seq(|tags|, (i: int) requires 0 <= i < |tags| => tags[i].slug)
  }

  /**
   * `[...articles, ...tagData].filter(first occurrence by id).slice(0, limit)`:
   * at most `limit` articles with pairwise distinct ids, each the first
   * article with its id in the concatenation, in first-occurrence order; no id
   * is lost when the limit is not smaller than the concatenation.
   */
  function MergeRelated(cat: seq<Article>, tagData: seq<Article>, limit: int): (r: seq<Article>)
    ensures limit >= 0 ==> |r| <= limit
    ensures KeysDistinct(r, IdOf)
    ensures forall i :: 0 <= i < |r| ==>
              0 <= FirstIndexOf(cat + tagData, IdOf, r[i]) && (cat + tagData)[FirstIndexOf(cat + tagData, IdOf, r[i])] == r[i]
    ensures forall i, j :: 0 <= i < j < |r| ==>
              FirstIndexOf(cat + tagData, IdOf, r[i]) < FirstIndexOf(cat + tagData, IdOf, r[j])
    ensures limit >= |cat + tagData| ==> KeySet(r, IdOf) == KeySet(cat + tagData, IdOf)
    ensures r <= UniqueBy(cat + tagData, IdOf)
    ensures limit >= 0 ==> |r| == Min(limit, |UniqueBy(cat + tagData, IdOf)|)
  {
    UniqueBySpec(cat + tagData, IdOf);
    Slice(UniqueBy(cat + tagData, IdOf), limit)
  }

  /**
   * `getRelatedArticles`: the category query first; the tag query only when
   * it answered fewer than `limit` articles and there are tags; then the
   * merged (or the category) list cut to `limit`.
   */
  method GetRelatedArticles(currentId: string, category: Category, tags: seq<Tag>, limit: int,
                            catFetch: Fetched, tagFetch: Fetched, store: MockStore)
    returns (r: seq<Article>, tagQueried: bool)
    ensures var cat := FetchArticles(RelatedCategoryEndpoint(category.slug, currentId, limit), catFetch, store);
      && (tagQueried <==> |cat| < limit && |tags| > 0)
      && (!tagQueried ==> r == Slice(cat, limit))
      && (tagQueried ==> r == MergeRelated(cat, FetchArticles(RelatedTagsEndpoint(Join(SlugsOf(tags), ","),
                                                                                    currentId, limit), tagFetch, store), limit))
    ensures limit >= 0 ==> |r| <= limit
    ensures tagQueried ==> KeysDistinct(r, IdOf)
  {
    var data := FetchArticles(RelatedCategoryEndpoint(category.slug, currentId, limit), catFetch, store);
    var articles := data;
    tagQueried := false;
    if |articles| < limit && |tags| > 0 {
      tagQueried := true;
      var tagSlugs := Join(SlugsOf(tags), ",");
      var tagData := FetchArticles(RelatedTagsEndpoint(tagSlugs, currentId, limit), tagFetch, store);
      articles := MergeRelated(articles, tagData, limit);
    }
    r := Slice(articles, limit);
  }

  /**
   * On the mock, for slugs and an id that hold no word an earlier branch
   * tests for (and no `$` in the tag slugs or the id), the tag query adds
   * nothing and the category answer can hold the current article itself.
   */
  lemma RelatedFallback(categorySlug: string, currentId: string, tagSlugs: string, limit: int, store: MockStore, a: Article)
    requires categorySlug != [] && '&' !in categorySlug
    requires !Contains(categorySlug, "featured") && !Contains(categorySlug, "views:desc")
    requires !Contains(categorySlug, "publishedAt:desc")
    requires Lacks(tagSlugs, "$") && Lacks(currentId, "$")
    requires !Contains(tagSlugs, "featured") && !Contains(tagSlugs, "views:desc")
    requires !Contains(tagSlugs, "publishedAt:desc") && !Contains(tagSlugs, "category")
    requires !Contains(currentId, "featured") && !Contains(currentId, "views:desc")
    requires !Contains(currentId, "publishedAt:desc") && !Contains(currentId, "category")
    ensures FetchArticles(RelatedTagsEndpoint(tagSlugs, currentId, limit), Fallback, store) == []
    ensures a in store.articles && a.id == currentId && a.category.slug == categorySlug ==>
              a in FetchArticles(RelatedCategoryEndpoint(categorySlug, currentId, limit), Fallback, store)
  {
    RelatedTagsRoute(tagSlugs, currentId, limit, store);
    RelatedCategoryRoute(categorySlug, currentId, limit, store);
    FilterMembers(store.articles, HasCategorySlug(Some(categorySlug)), a);
  }

  /** A tag slug containing "featured" sends the `$in` tag query to the featured branch. */
  lemma RelatedTagsShadowedByFeatured(tagSlugs: string, currentId: string, limit: int, store: MockStore)
    requires Contains(tagSlugs, "featured")
    ensures FetchArticles(RelatedTagsEndpoint(tagSlugs, currentId, limit), Fallback, store)
            == Filter(store.articles, IsFeatured)
  {
    var p, t := TagInQuery, RelatedTail(currentId, limit);
    TagInQueryShape(p);
    PresentAhead(p, tagSlugs, t, "/articles", 0);
    ContainedInMiddle(p, tagSlugs, t, "featured");
    FeaturedBranch(RelatedTagsEndpoint(tagSlugs, currentId, limit), store);
  }

  /** A category slug containing "featured" sends the related-category query to the featured branch. */
  lemma RelatedCategoryShadowedByFeatured(categorySlug: string, currentId: string, limit: int, store: MockStore)
    requires Contains(categorySlug, "featured")
    ensures FetchArticles(RelatedCategoryEndpoint(categorySlug, currentId, limit), Fallback, store)
            == Filter(store.articles, IsFeatured)
  {
    var p, t := CategoryQuery, RelatedTail(currentId, limit);
    CategoryQueryShape(p);
    PresentAhead(p, categorySlug, t, "/articles", 0);
    ContainedInMiddle(p, categorySlug, t, "featured");
    FeaturedBranch(RelatedCategoryEndpoint(categorySlug, currentId, limit), store);
  }

  // ---------------------------------------------------------------------
  // The module-level mock as shared mutable state.

  /**
   * The mock collections as the module holds them. `getArticles()` on the
   * fallback path returns the `mockArticles` array itself, so the in-place
   * `.sort` of the `*Old` latest and top queries reorders the mock for every
   * later caller.
   */
  class MockBackend {
    const articles: array<Article>
    const authors: seq<Author>
    const categories: seq<Category>
    const tags: seq<Tag>

    function Store(): MockStore
      reads articles
    {
      MockStore(articles[..], authors, categories, tags)
    }

    constructor (store: MockStore)
      ensures Store() == store && fresh(articles)
    {
      articles := new Article[|store.articles|]((i: int) requires 0 <= i < |store.articles| => store.articles[i]);
      authors, categories, tags := store.authors, store.categories, store.tags;
    }

    /** `getArticles()` as the array it hands back: the mock array itself on the fallback path. */
    method GetArticlesArray(f: Fetched) returns (a: array<Article>)
      ensures f.Fallback? ==> a == articles
      ensures f.Backend? ==> fresh(a)
      ensures a[..] == GetArticles(f, Store())
    {
      match f
      case Fallback =>
        a := articles;
      case Backend(d) =>
        a := new Article[|d|]((i: int) requires 0 <= i < |d| => d[i]);
    }

    /** `getLatestArticlesOld(limit)`: sorts the array `getArticles()` returned, newest first, in place. */
    method GetLatestArticlesOld(limit: int, f: Fetched) returns (r: seq<Article>)
      modifies articles
      ensures r == Slice(SortDesc(old(GetArticles(f, Store())), PublishedKey), limit)
      ensures f.Fallback? ==> r == GetLatestArticles(limit, f, old(Store()))
      ensures f.Fallback? ==> articles[..] == SortDesc(old(articles[..]), PublishedKey)
      ensures f.Backend? ==> articles[..] == old(articles[..])
    {
      var a := GetArticlesArray(f);
      SortInPlace(a, PublishedKey);
      r := Slice(a[..], limit);
    }

    /** `getTopArticlesOld(limit)`: sorts the array `getArticles()` returned by views, in place. */
    method GetTopArticlesOld(limit: int, f: Fetched) returns (r: seq<Article>)
      modifies articles
      ensures r == Slice(SortDesc(old(GetArticles(f, Store())), ViewsKey), limit)
      ensures f.Fallback? ==> r == GetTopArticles(limit, f, old(Store()))
      ensures f.Fallback? ==> articles[..] == SortDesc(old(articles[..]), ViewsKey)
      ensures f.Backend? ==> articles[..] == old(articles[..])
    {
      var a := GetArticlesArray(f);
      SortInPlace(a, ViewsKey);
      r := Slice(a[..], limit);
    }
  }
}
