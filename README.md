# A verified model of the blog's data layer and list pages

This project models, in Dafny, the list-processing rules of a Next.js news
site. Its content comes from a headless CMS. When the backend is
unreachable, everything is served from in-memory mock collections.

The model covers:

- **`lib/api.ts`.**
  - The mock endpoint dispatcher `getMockData`. It picks a mock slice by
    substring tests on the endpoint, in source order. It pulls an `$eq=`
    value out with a regular expression `marker([^&]+)`.
  - The exported listing queries, which slice what `fetchAPI` answers to
    `limit`.
  - The older `*Old` variants, which filter, find or sort the result of
    `getArticles()`.
  - `getRelatedArticles`. It runs a category query, then a tag query only
    when the first gave too few results. It then merges the two and drops
    duplicate ids, the first occurrence winning.
- **The articles page** (`app/articles/page.tsx`).
  - The client-side search over four fields, the category filter and the
    four sort modes.
  - The active-filter badge count and `clearFilters`.
- **The authors and categories pages.**
  - The per-group statistics: view sum, latest article, featured count,
    rounded mean and distinct author names.
  - The ranking by article count, the header totals and the top-3 badge.
- **The tags page and the trending-topics card.**
  - The articles carrying each tag are counted and ranked.
  - The tags page shows the first ten, the card the first eight, numbered
    from 1.

## How the model is built

- **JavaScript's sort.** `Array.prototype.sort` is stable. Every sort in
  the source is modelled by one stable insertion sort,
  `Sorting.SortDesc(s, key)`, which is descending in an integer key. An
  ascending comparator is the negated key.
  - The model proves the sort is a permutation (`SortDescMultiset`),
    sorted (`SortDescSorted`) and stable (`SortDescStable`).
  - It also proves these three properties determine the result
    (`StableSortUnique`, `SortDescCharacterized`), so any stable sort gives
    the same answer.
- **In-place sorts.** Where the source sorts an array in place, the model
  sorts an `array` with `Sorting.SortInPlace`. That method is proved equal
  to `SortDesc` on the old contents. The in-place sorts are:
  - `articles.sort` on the authors and categories pages;
  - `filtered.sort` on the articles page, which reorders the page's
    `articles` state array itself when no filter is active (on the fallback
    path that state array is the mock array, `ArticlesPage.LoadArticlesPage`);
  - the `*Old` latest and top queries, which reorder the module's mock
    array itself on the fallback path.
- **The regular expression.** `marker([^&]+)` is modelled by
  `Text.Capture`: the leftmost match start where the marker is followed by
  at least one character other than `&`, then the greedy run of such
  characters.
- **`fetchAPI`.** Its outcome is a parameter: `Fetched.Backend(data)` is
  the backend's `data` field, and `Fetched.Fallback` means
  `getMockData(endpoint)` answered. On the pages, the fetch of a group's
  articles (`getArticlesByAuthor`, `getArticlesByCategory`,
  `getArticlesByTag`) becomes a function parameter `articlesOf`.
  `TagsPage.TagCountOnMock` shows what it yields on the mock.
- **Timestamps.** A timestamp is the integer `new Date(publishedAt).getTime()`
  would give.
- **Alphabetical sort.** This mode compares titles with `localeCompare`.
  The model treats it as an abstract integer rank of the title.

Three facts of the code shape the model:

- The exported queries send query strings to `fetchAPI`; only the mock
  filters or sorts in memory.
- The `*Old` sorts and the page sorts reorder arrays in place.
- The authors and categories lists come from their own `/authors` and
  `/categories` endpoints.

## Model

| member | source | states |
|---|---|---|
| Api.GetMockData | lib/api.ts:255-312 | The answer is `{ data: [] }` exactly when the endpoint contains none of "/articles", "/authors", "/categories", "/tags". Otherwise the first of these paths it contains decides which mock collection the answer is drawn from, as a sub-multiset. |
| Api.FetchArticles | lib/api.ts:143-162 | On the fallback path, an articles endpoint is answered with articles drawn from the mock articles. |
| Api.GetArticles | lib/api.ts:426-429 | On the fallback path, `getArticles()` is exactly the mock article list. |
| Api.ArticlesEndpointIsPlain | lib/api.ts:284 | "/articles?populate=*" passes every substring test and falls through to the whole mock article list. |
| Api.PlainEndpointWords | lib/api.ts:256-283 | The plain articles endpoint contains "/articles" and none of the words an earlier branch tests for. |
| Api.GetArticleBySlug | lib/api.ts:431-434 | The answer is the first article the fetch returns. It is null exactly when the fetch returns no article. |
| Api.SlugQueryRoute | lib/api.ts:280-283 | The slug endpoint reaches the slug branch, which captures exactly the slug and keeps the mock articles with that slug. This holds for a non-empty slug without `&` that has no word an earlier branch tests for. |
| Api.ArticleBySlugFallback | lib/api.ts:431-434 | For such a slug, `getArticleBySlug` on the mock returns what `getArticleBySlugOld`'s `find` returns. |
| Api.SlugShadowedByFeatured | lib/api.ts:257-259 | A slug containing "featured" is answered by the featured branch: `getArticleBySlug` on the mock returns the first featured article. |
| Api.GetFeaturedArticles | lib/api.ts:436-439 | A prefix of the answer, with at most `limit` articles when `limit` ≥ 0. On the fallback path it equals `getFeaturedArticlesOld(limit)`. |
| Api.FeaturedRoute | lib/api.ts:257-259 | The featured endpoint is answered with the featured mock articles, in mock order. |
| Api.FeaturedBranch | lib/api.ts:257-259 | Any articles endpoint containing "featured" is answered with the mock's featured articles in mock order. An article is in the answer exactly when it is a mock article and featured. The answer holds no article more often than the mock does. |
| Api.ViewsBranch | lib/api.ts:260-262 | The "views:desc" branch returns the stable sort of a copy. It is a permutation of the mock articles, non-increasing in views. |
| Api.PublishedBranch | lib/api.ts:263-267 | The "publishedAt:desc" branch returns the stable newest-first sort of a copy, a permutation of the mock articles. |
| Api.CategoryBranch | lib/api.ts:268-271 | An article is in the answer exactly when it is a mock article and its category slug equals the captured value. When nothing is captured, nothing is kept. The answer keeps mock order and holds no article more often than the mock does. |
| Api.TagBranch | lib/api.ts:272-275 | An article is in the answer exactly when it is a mock article and it carries a tag whose slug equals the captured value. When nothing is captured, nothing is kept. The answer keeps mock order and holds no article more often than the mock does. |
| Api.AuthorBranch | lib/api.ts:276-279 | An article is in the answer exactly when it is a mock article and its author slug equals the captured value. When nothing is captured, nothing is kept. The answer keeps mock order and holds no article more often than the mock does. |
| Api.SlugBranch | lib/api.ts:280-283 | An article is in the answer exactly when it is a mock article and its slug equals the captured value. When nothing is captured, nothing is kept. The answer keeps mock order and holds no article more often than the mock does. |
| Api.CapturedFilterExact | lib/api.ts:268-283 | An article is kept by a value branch iff it is a mock article and its field equals the captured value. |
| Api.NothingMatchesUndefined | lib/api.ts:268-283 | When the regular expression does not match, the value is `undefined`, and every value branch answers the empty list. |
| Api.GetLatestArticles | lib/api.ts:441-444 | A prefix of the answer, with at most `limit` articles when `limit` ≥ 0. On the fallback path, the first `limit` of the stable newest-first sort of the mock. |
| Api.LatestRoute | lib/api.ts:263-267 | The latest endpoint reaches the "publishedAt:desc" branch for every `limit`. |
| Api.LatestFallback | lib/api.ts:441-444 | On the mock the answer has min(limit, n) articles when `limit` ≥ 0, and it is sorted newest first. It is drawn from the mock and is no older than any article left out. Equal timestamps keep mock order. |
| Api.GetTopArticles | lib/api.ts:446-449 | A prefix of the answer, with at most `limit` articles when `limit` ≥ 0. On the fallback path, the first `limit` of the stable views-descending sort of the mock. |
| Api.TopRoute | lib/api.ts:260-262 | The top endpoint reaches the "views:desc" branch for every `limit`. |
| Api.TopFallback | lib/api.ts:446-449 | On the mock the answer has min(limit, n) articles when `limit` ≥ 0, sorted by views. It is drawn from the mock and has no fewer views than any article left out. Equal counts keep mock order. |
| Api.GetArticlesByCategory | lib/api.ts:451-454 | On the fallback path the answer is drawn from the mock articles. |
| Api.GetArticlesByTag | lib/api.ts:456-459 | On the fallback path the answer is drawn from the mock articles. |
| Api.GetArticlesByAuthor | lib/api.ts:461-464 | On the fallback path the answer is drawn from the mock articles. |
| Api.CategoryQueryRoute | lib/api.ts:268-271 | The category query with a non-empty, `&`-free value and any `&` tail reaches the category branch and captures exactly that value. |
| Api.TagQueryRoute | lib/api.ts:272-275 | The tag query with a non-empty, `&`-free value and any `&` tail reaches the tags branch and captures exactly that value. |
| Api.AuthorQueryRoute | lib/api.ts:276-279 | The author query with a non-empty, `&`-free value and any `&` tail reaches the author branch and captures exactly that value. |
| Api.ByCategoryFallback | lib/api.ts:451-454 | On the mock, for a non-empty, `&`-free slug that holds no word an earlier branch tests for, `getArticlesByCategory(slug)` equals `getArticlesByCategoryOld(slug)`. |
| Api.ByTagFallback | lib/api.ts:456-459 | On the mock, for a non-empty, `&`-free slug that holds no word an earlier branch tests for, `getArticlesByTag(slug)` equals `getArticlesByTagOld(slug)`. |
| Api.ByAuthorFallback | lib/api.ts:461-464 | On the mock, for a non-empty, `&`-free slug that holds no word an earlier branch tests for, `getArticlesByAuthor(slug)` equals `getArticlesByAuthorOld(slug)`. |
| Api.GetArticleBySlugOld | lib/api.ts:170-173 | The first article whose slug equals the argument; null iff no article has it. |
| Api.GetFeaturedArticlesOld | lib/api.ts:175-180 | A prefix, in list order, of the featured articles of `getArticles()`. For `limit` ≥ 0 it has min(limit, k) of them, where k is how many are featured. It holds no article more often than `getArticles()` does. |
| Api.GetArticlesByCategoryOld | lib/api.ts:196-199 | Every result has the given category slug. |
| Api.GetArticlesByTagOld | lib/api.ts:201-204 | Every result has a tag with the given slug. |
| Api.GetArticlesByAuthorOld | lib/api.ts:206-209 | Every result has the given author slug. |
| Api.OldFiltersExact | lib/api.ts:196-209 | Each by-category, by-author and by-tag filter keeps an article iff it is in `getArticles()` and matches the key exactly. |
| Api.MockBackend.GetArticlesArray | lib/api.ts:426-429 | On the fallback path `getArticles()` hands back the mock array itself, not a copy. |
| Api.MockBackend.GetLatestArticlesOld | lib/api.ts:182-187 | Returns the first `limit` of the stable newest-first sort of `getArticles()`. On the fallback path this equals `getLatestArticles(limit)` and leaves the mock array itself sorted. |
| Api.MockBackend.GetTopArticlesOld | lib/api.ts:189-194 | Returns the first `limit` of the stable views-descending sort of `getArticles()`. On the fallback path this equals `getTopArticles(limit)` and leaves the mock array itself sorted. |
| Api.SlugsOf | lib/api.ts:226 | `tags.map((tag) => tag.slug)`: same length, each entry its tag's slug. |
| Api.MergeRelated | lib/api.ts:231-237 | The result is a prefix of the id-dedupe of category then tag results. For `limit` ≥ 0 it has min(limit, n) articles, where n is the number of distinct ids. Ids are pairwise distinct. Each article is the first with its id in the concatenation, in first-occurrence order. No id is lost when `limit` covers the concatenation. |
| Api.GetRelatedArticles | lib/api.ts:211-238 | The tag query is made iff the category query gave fewer than `limit` articles and there are tags. The result is the category answer cut to `limit`, or the merge. For `limit` ≥ 0 it has at most `limit` articles. After a merge the ids are distinct. |
| Api.RelatedCategoryRoute | lib/api.ts:218-220 | On the mock the related-category query ignores `[id][$ne]` and the limit and answers every article of the category. This holds for a non-empty, `&`-free category slug and an id that hold no word an earlier branch tests for. |
| Api.RelatedTagsRoute | lib/api.ts:227-229 | On the mock the `$in` tag query has no `[$eq]=` marker, so nothing is captured and the answer is empty. This holds for tag slugs and an id without `$` that hold none of "featured", "views:desc", "publishedAt:desc" or "category". |
| Api.RelatedTagsNoMarker | lib/api.ts:273 | When neither the tag slugs nor the id contain `$`, the `$in` tag query does not contain the tags branch's `$eq` marker. |
| Api.RelatedFallback | lib/api.ts:218-229 | On the mock the tag query adds nothing, and the category answer includes the current article when it is in that category. This holds for slugs and an id with the conditions of the two routes above. |
| Api.RelatedTagsShadowedByFeatured | lib/api.ts:257-259 | A tag slug containing "featured" sends the `$in` tag query to the featured branch: on the mock it answers every featured article. |
| Api.RelatedCategoryShadowedByFeatured | lib/api.ts:257-259 | A category slug containing "featured" sends the related-category query to the featured branch: on the mock it answers every featured article. |
| Api.RelatedTailWords | lib/api.ts:219 | The id filter and limit tail put no routing word into the endpoint that the id does not contain. |
| Text.Contains | lib/api.ts:256 | `includes`: true iff the word occurs at some index. |
| Text.ContainsFrom | lib/api.ts:256 | True iff the word occurs at some index at or after the given one. |
| Text.RunFrom | lib/api.ts:269 | What `[^&]+` consumes greedily: a slice of the input without `&`, ending at `&` or at the end. |
| Text.MatchFrom | lib/api.ts:269 | The engine's scan for a match start: the first index from i on where the marker is followed by a non-`&`, or -1. |
| Text.MatchFromFirst | lib/api.ts:269 | The scan passes over no match start. |
| Text.MatchFromReaches | lib/api.ts:269 | The scan from i stops at the first match start at or after i. |
| Text.Capture | lib/api.ts:269 | `?.[1]`: a captured value is non-empty and contains no `&`. |
| Text.CaptureSpec | lib/api.ts:269 | There is no capture iff no index is a match start. Otherwise the capture is the maximal non-`&` run after the marker at the leftmost match start. |
| Text.CaptureWithoutMarker | lib/api.ts:269 | A string without the marker yields no capture (`undefined`). |
| Text.CaptureOfPlacedValue | lib/api.ts:269 | When the first match starts right before a value followed by `&` or the end, the capture is that value. |
| Text.Lower | app/articles/page.tsx:56 | `toLowerCase`: same length, each character lower-cased. |
| Text.IntToString | lib/api.ts:437 | `${limit}`: only digits and '-'. |
| Seqs.Filter | lib/api.ts:258 | `filter`: no longer than the input, every element satisfies the predicate, a sub-multiset. |
| Seqs.FilterMembers | lib/api.ts:258 | An element is in the filtered list iff it is in the input and satisfies the predicate. |
| Seqs.FilterCount | app/authors/page.tsx:21 | `filter` keeps each satisfying element as often as it occurs and no other. |
| Seqs.Slice | lib/api.ts:438 | `slice(0, end)`: a prefix of min(end, n) elements for end ≥ 0, and of max(0, n + end) for negative end. |
| Seqs.FindIndex | lib/api.ts:233 | `findIndex`: the first index satisfying the predicate, or -1 iff none does. |
| Seqs.Find | lib/api.ts:172 | `find(...) \|\| null`: null iff no element satisfies the predicate. |
| Seqs.FindIsFirst | lib/api.ts:172 | The element `find` returns is the first one satisfying the predicate. |
| Seqs.FilterFirstIsFind | lib/api.ts:433 | The head of the filtered list is what `find` returns. |
| Seqs.SumAppend | app/authors/page.tsx:17 | `reduce` with `+` over a concatenation is the sum of the two parts. |
| Seqs.SumPermutation | app/authors/page.tsx:66 | A `reduce` sum does not depend on the order of the list. |
| Seqs.UniqueBySpec | lib/api.ts:233 | The first-occurrence filter gives pairwise distinct ids and loses no id. Each kept element is the first with its id, in first-occurrence order. |
| Seqs.KeySetAtMost | app/categories/page.tsx:25 | A `Set` of one key per element has at most as many entries as the list. |
| Sorting.SortDesc | lib/api.ts:261 | The sort keeps the length. |
| Sorting.SortDescMultiset | lib/api.ts:261 | The sort is a permutation. |
| Sorting.SortDescSorted | lib/api.ts:261 | The sort is non-increasing in its key. |
| Sorting.SortDescStable | lib/api.ts:261 | Sorting keeps the relative order of elements with equal keys (JavaScript's sort is stable). |
| Sorting.StableSortUnique | lib/api.ts:261 | Two sorted, stable permutations of the same list are equal. |
| Sorting.SortDescCharacterized | lib/api.ts:261 | A list is the sort's result iff it is a sorted, stable permutation of the input. |
| Sorting.TopOfSort | lib/api.ts:186 | Sorting then slicing to n gives min(n, len) elements, sorted and drawn from the input. None has a smaller key than an element left out, and ties keep input order. |
| Sorting.SortInPlace | app/authors/page.tsx:18-20 | The in-place array sort leaves the array equal to `SortDesc` of its old contents. |
| Sorting.InsertInPlace | app/authors/page.tsx:18-20 | One insertion step in place equals the functional insertion on the prefix and leaves the rest unchanged. |
| Stats.TotalViews | app/authors/page.tsx:17 | The view sum is never negative and no article has more views than the sum. |
| Stats.TotalViewsBounds | app/authors/page.tsx:17 | The same bounds, proved by induction on the list. |
| Stats.LatestArticle | app/authors/page.tsx:18-20 | `sort(newest first)[0]`: absent iff there are no articles, otherwise an article of the list with the greatest timestamp. |
| Stats.LatestIsFirstOfNewest | app/authors/page.tsx:18-20 | Among articles that tie on the greatest timestamp, the latest article is the earliest in the list. |
| Stats.SortedLatest | app/authors/page.tsx:18-20 | The in-place sort leaves the array sorted newest first and returns its first element, the latest article. |
| Stats.RoundedMean | app/authors/page.tsx:29 | `Math.round(total / n)` for n > 0: the integer r with r − ½ ≤ total / n < r + ½. |
| Stats.FeaturedCount | app/authors/page.tsx:21 | At most the number of articles. |
| Stats.FeaturedCountExact | app/authors/page.tsx:21 | The count is taken over exactly the featured articles, each as often as it occurs. |
| Stats.FeaturedCountPermutation | app/authors/page.tsx:21 | The featured count is the same before and after the in-place sort. |
| Stats.DistinctAuthorNames | app/categories/page.tsx:25 | The number of distinct author names, at most the number of articles. |
| AuthorsPage.StatsOf | app/authors/page.tsx:15-30 | The author and article count. Also: the view sum, never negative; the featured count, at most the article count; and the latest article, absent iff there are no articles, otherwise one with the greatest timestamp. It is `Stats.LatestArticle`, so ties go to the earliest listed. The mean is 0 with no articles, otherwise the mean rounded to nearest. |
| AuthorsPage.CollectStats | app/authors/page.tsx:16-30 | The `authors.map` callback on the fetched array computes `StatsOf` of its old contents and leaves it sorted newest first. |
| AuthorsPage.StatsOfFetched | app/authors/page.tsx:16-30 | The callback on one fetch result equals `StatsOf` of that result. |
| AuthorsPage.AuthorsWithStats | app/authors/page.tsx:14-32 | One entry per author, in input order. Entry i is the statistics of author i over that author's fetched articles. |
| AuthorsPage.LoadAuthors | app/authors/page.tsx:14-35 | Produces `sortedAuthors`: the stable sort of every author's statistics by article count. |
| AuthorsPage.AuthorRanking | app/authors/page.tsx:35 | `sortedAuthors` is a permutation of `authorsWithStats`, non-increasing in article count, with ties in input order. |
| AuthorsPage.StatsSums | app/authors/page.tsx:66 | Over the statistics, the article-count sum is the number of fetched articles and the featured-count sum is the number of fetched featured articles. |
| AuthorsPage.HeaderTotals | app/authors/page.tsx:66-82 | The "Articles Published" and "Featured Articles" totals, read from the array after the in-place ranking sort, equal the totals over every author's articles. The featured total never exceeds the published one. |
| AuthorsPage.RankedTotals | app/authors/page.tsx:35 | The ranking sort changes neither total. |
| AuthorsPage.FeaturedBounded | app/authors/page.tsx:82 | The featured total is at most the published total when each author's featured count is at most their article count. |
| AuthorsPage.TopAuthorBadge | app/authors/page.tsx:131 | Exactly the first min(3, n) ranked authors get the badge. None of them has fewer articles than an author without it, and ties keep input order. |
| AuthorsPage.TopOfRanking | app/authors/page.tsx:108 | The same facts for any list of author statistics. |
| CategoriesPage.StatsOf | app/categories/page.tsx:15-26 | The category and article count. Also: the view sum; the latest article, absent iff the category is empty, otherwise one with the greatest timestamp, ties going to the earliest listed (`Stats.LatestArticle`); and the number of distinct author names, at most the article count. |
| CategoriesPage.CollectStats | app/categories/page.tsx:14-26 | The `categories.map` callback on the fetched array computes `StatsOf` of its old contents and leaves it sorted newest first. |
| CategoriesPage.StatsOfFetched | app/categories/page.tsx:14-26 | The callback on one fetch result equals `StatsOf` of that result. |
| CategoriesPage.CategoriesWithStats | app/categories/page.tsx:12-28 | One entry per category, in input order. Entry i is the statistics of category i over that category's fetched articles. |
| CategoriesPage.LoadCategories | app/categories/page.tsx:12-31 | Produces `sortedCategories`: the stable sort of every category's statistics by article count. |
| CategoriesPage.CategoryRanking | app/categories/page.tsx:31 | `sortedCategories` is a permutation of `categoriesWithStats`, non-increasing in article count, with ties in input order. |
| CategoriesPage.StatsSums | app/categories/page.tsx:62-70 | Over the statistics, the article-count sum is the number of fetched articles. The author sum is the sum of each category's distinct author names. |
| CategoriesPage.HeaderTotals | app/categories/page.tsx:62-70 | The "Total Articles" and "Expert Authors" figures, read after the in-place ranking sort, equal those totals. The second never exceeds the first. |
| CategoriesPage.RankedTotals | app/categories/page.tsx:31 | The ranking sort changes neither total. |
| CategoriesPage.AuthorsBounded | app/categories/page.tsx:70 | The author total is at most the article total when each category's author count is at most its article count. |
| CategoriesPage.PopularBadge | app/categories/page.tsx:92 | Exactly the first min(3, n) ranked categories get the "Popular" badge. None has fewer articles than a category without it, and ties keep input order. |
| CategoriesPage.TopOfRanking | app/categories/page.tsx:92 | The same facts for any list of category statistics. |
| TagsPage.TagsWithCounts | app/tags/page.tsx:11-19 | One entry per tag, in input order, whose count is the length of that tag's fetch result. |
| TagsPage.TagCountOnMock | app/tags/page.tsx:11-19 | On the mock, a tag's count is the number of mock articles carrying that tag's slug. This holds when the slug is non-empty, has no `&`, and holds none of "featured", "views:desc", "publishedAt:desc" or "category". |
| TagsPage.LoadTags | app/tags/page.tsx:22-38 | `sortedTags` is the stable in-place sort by count, and the popular list is its first ten. The popular section is shown iff there is a tag, and "No Tags Found" (line 87) iff there is none. |
| TagsPage.TagRanking | app/tags/page.tsx:22 | `sortedTags` is a permutation of the counted tags, non-increasing in count, with ties in input order. |
| TagsPage.PopularTags | app/tags/page.tsx:38 | The popular list has min(10, n) tags, sorted and drawn from the counted tags. None is carried by fewer articles than an unlisted tag, and ties keep input order. |
| TrendingTopics.LoadTrending | components/trending-topics.tsx:11-21 | `trendingTags` is the stable sort by count cut to eight, each shown with its rank. |
| TrendingTopics.TrendingTags | components/trending-topics.tsx:21 | The card shows min(8, n) tags, sorted and drawn from the counted tags. No shown tag has fewer articles than a hidden one, and ties keep input order. |
| TrendingTopics.Ranks | components/trending-topics.tsx:37 | `index + 1`: one rank per shown tag, between 1 and the number shown, strictly increasing. |
| ArticlesPage.FilteredMembers | app/articles/page.tsx:55-68 | An article is in `filteredArticles` iff it was loaded, and it matches the lower-cased, untrimmed query unless the query is blank, and it is in the selected category unless that is "all". It matches when the query is in one of: the title, the excerpt when present, the author name, the category name. |
| ArticlesPage.FilteredSubset | app/articles/page.tsx:66-68 | The result is a sub-multiset of the loaded articles. When a category is selected, every result is in it. With neither filter active, the result is a permutation of the loaded articles. |
| ArticlesPage.FilteredOrder | app/articles/page.tsx:71-84 | "newest" sorts by timestamp non-increasing, "oldest" non-decreasing, "popular" by views non-increasing, and "alphabetical" by title rank. Any other mode leaves the filtered order unchanged. |
| ArticlesPage.FilteredStable | app/articles/page.tsx:71-84 | Articles that tie under the mode's key keep their filtered order. |
| ArticlesPage.SortStepMultiset | app/articles/page.tsx:71-84 | The sort step is a permutation. |
| ArticlesPage.SortStepInPlace | app/articles/page.tsx:71-84 | The `switch (sortBy)` leaves the array equal to the sort step of its old contents. |
| ArticlesPage.FilterAndSort | app/articles/page.tsx:51-87 | The memo callback returns `Filtered` of the old array. With neither filter active, the state array itself ends up in that order; otherwise it is unchanged. |
| ArticlesPage.CountTruthy | app/articles/page.tsx:153 | `filter(Boolean).length` is at most the number of facets. |
| ArticlesPage.FacetCount | app/articles/page.tsx:153 | The count over three facets is the number of true ones. |
| ArticlesPage.BadgeCount | app/articles/page.tsx:153 | The badge shows the number of active facets among search, category and sort. It is at most 3, and positive iff `hasActiveFilters` (line 95) holds. |
| ArticlesPage.ArticlesPage.constructor | app/articles/page.tsx:18-26 | The state after loading is the very array handed to `setArticles`, not a copy, with search "", category "all" and sort "newest". |
| ArticlesPage.LoadArticlesPage | app/articles/page.tsx:28-36 | The page state holds the array `getArticles()` returned. On the fallback path that is the mock array itself, so the page's in-place sort reorders the mock. On the backend path it is a fresh array of the data. |
| ArticlesPage.ArticlesPage.FilteredArticles | app/articles/page.tsx:51-87 | `filteredArticles` for the current state. With neither filter active, the state array is sorted in place; otherwise it is untouched. |
| ArticlesPage.ArticlesPage.ClearFilters | app/articles/page.tsx:89-95 | Resets search to "", category to "all" and sort to "newest". The articles are untouched and no filter is active afterwards. |

## Left out

- `fetchAPI` (lib/api.ts:143-162). Its network request, revalidation option, HTTP status check and logging are not modelled. Its outcome is the `Fetched` parameter, and a backend answer is its `data` field as given.
- `async`/`await` and the `Promise.all` fan-out of the pages. Each fetch is a pure function of its endpoint: `articlesOf` on the pages, `Fetched` in the data layer.
- ISO date parsing. Timestamps are integers.
- `localeCompare` in the "alphabetical" mode. It is locale-dependent, so it is an abstract integer rank of the title (`titleRank`).
- The `/1000` and `Math.round` of the "Total Views" figure (app/authors/page.tsx:74, app/categories/page.tsx:135), and `toLocaleString`. These are floating-point display formatting.
- Stats.RoundedMean: exact rational rounding. The floating-point error of `total / n` for very large totals is not modelled.
- JavaScript numbers are unbounded integers here. No view count or timestamp overflows a double.
- Text.Lower: lower-cases ASCII letters only. Full Unicode case mapping is not modelled.
- The mock dispatcher's `/authors`, `/categories` and `/tags` branches. Api.GetMockData states only that their answers are drawn from the right collection. No page of the model queries them.
- `getAuthors`, `getAuthorBySlug`, `getCategories`, `getCategoryBySlug`, `getTags`, `getTagBySlug` (lib/api.ts:249-252, 468-493). They are one-line wrappers over `fetchAPI`, and the pages take their results as inputs.
- The unused `get*Data` variants and the stray body (lib/api.ts:165-168, 316-353), and the second, identical copy of `getMockData` (lib/api.ts:366-423). Each function is modelled once.
- Api.RelatedFallback: proved only when the category slug, the tag slugs and the id hold no word an earlier branch tests for, and the tag slugs and the id hold no `$`. A slug holding "featured" reaches the featured branch instead, as Api.RelatedTagsShadowedByFeatured and Api.RelatedCategoryShadowedByFeatured show.
- Api.GetArticlesByCategory, Api.GetArticlesByTag, Api.GetArticlesByAuthor: their own contracts state only that a fallback answer comes from the mock. The exact answer is proved by the `By*Fallback` lemmas, and only for a non-empty, `&`-free slug that holds no word an earlier branch tests for (such as "featured"). Api.SlugShadowedByFeatured shows what happens otherwise.
- TagsPage.TagCountOnMock: proved only for a tag slug that is non-empty, has no `&`, and holds none of "featured", "views:desc", "publishedAt:desc" or "category". Another slug is dispatched to an earlier branch of `getMockData`.
- Default `limit` arguments (lib/api.ts:175, 182, 189, 215, 436, 441, 446). Every modelled function takes `limit` explicitly, and every caller in the repository passes one (components/featured-articles.tsx:11, components/latest-articles.tsx:13, components/featured-carousel.tsx:12, components/related-articles.tsx:16).
- The record types' Strapi mapping (lib/types.ts) and the mock data literals (lib/api.ts:6-136). The types are plain datatypes, and the mock collections are a `MockStore` value.
- Null view counts. `views` is a natural number, so `views || 0` is the identity.
- Rendering: the JSX markup, the render-only components, the static pages and the newsletter form are not modelled.
