/**
 * The tags page: every tag with the number of articles carrying it, ranked
 * by that number, the "Popular Tags" prefix and the empty state.
 */
module TagsPage {
  import opened Options
  import opened Types
  import opened Seqs
  import opened Sorting
  import Api
  import Text

  /** `{ ...tag, articleCount: articles.length }`. */
  datatype TagWithCount = TagWithCount(tag: Tag, articleCount: nat)

  /**
   * `tagsWithCounts` before the ranking sort. `articlesOf(slug)` is what
   * `getArticlesByTag(slug)` returns.
   */
  function TagsWithCounts(tags: seq<Tag>, articlesOf: string -> seq<Article>): (r: seq<TagWithCount>)
    ensures |r| == |tags|
    ensures forall i :: 0 <= i < |r| ==> r[i].tag == tags[i] && r[i].articleCount == |articlesOf(tags[i].slug)|
  {
    seq(|tags|, (i: int) requires 0 <= i < |tags| => TagWithCount(tags[i], |articlesOf(tags[i].slug)|))
  }

  function CountKey(t: TagWithCount): int { t.articleCount }

  /** The number of popular tags the page lists. */
  const PopularLimit := 10

  /**
   * The page's data: the counts sorted in place, most articles first, the
   * popular prefix, and whether the popular section and the "No Tags Found"
   * block are rendered.
   */
  method LoadTags(tags: seq<Tag>, articlesOf: string -> seq<Article>)
    returns (sortedTags: seq<TagWithCount>, popular: seq<TagWithCount>, showPopular: bool, showEmpty: bool)
    ensures sortedTags == SortDesc(TagsWithCounts(tags, articlesOf), CountKey)
    ensures popular == Slice(sortedTags, PopularLimit)
    ensures showPopular <==> tags != []
    ensures showEmpty <==> tags == []
  {
    var a := ArrayOf(TagsWithCounts(tags, articlesOf));
    SortInPlace(a, CountKey);
    sortedTags := a[..];
    popular := Slice(sortedTags, PopularLimit);
    showPopular := |sortedTags| > 0;
    showEmpty := |sortedTags| == 0;
  }

  /** Each tag of the input appears once in the ranking, most articles first, ties in input order. */
  lemma TagRanking(tags: seq<Tag>, articlesOf: string -> seq<Article>, k: int)
    ensures var counted := TagsWithCounts(tags, articlesOf);
      var sorted := SortDesc(counted, CountKey);
      && multiset(sorted) == multiset(counted)
      && SortedDesc(sorted, CountKey)
      && KeyClass(sorted, CountKey, k) == KeyClass(counted, CountKey, k)
  {
    var counted := TagsWithCounts(tags, articlesOf);
    SortDescMultiset(counted, CountKey);
    SortDescSorted(counted, CountKey);
    SortDescStable(counted, CountKey, k);
  }

  /**
   * The popular section lists the first min(10, n) ranked tags; none of
   * them is carried by fewer articles than an unlisted tag.
   */
  lemma PopularTags(tags: seq<Tag>, articlesOf: string -> seq<Article>, k: int)
    ensures var counted := TagsWithCounts(tags, articlesOf);
      var popular := Slice(SortDesc(counted, CountKey), PopularLimit);
      && |popular| == Min(PopularLimit, |tags|)
      && SortedDesc(popular, CountKey)
      && multiset(popular) <= multiset(counted)
      && (forall x, y :: x in popular && y in multiset(counted) - multiset(popular) ==> x.articleCount >= y.articleCount)
      && KeyClass(popular, CountKey, k) <= KeyClass(counted, CountKey, k)
  {
    TopOfSort(TagsWithCounts(tags, articlesOf), CountKey, PopularLimit, k);
  }

  /**
   * With the mock fallback, a tag's count is the number of mock articles
   * carrying that tag.
   */
  lemma TagCountOnMock(tags: seq<Tag>, store: Api.MockStore, i: nat)
    requires i < |tags|
    requires var slug := tags[i].slug;
      && slug != [] && '&' !in slug
      && !Text.Contains(slug, "featured") && !Text.Contains(slug, "views:desc") && !Text.Contains(slug, "publishedAt:desc")
      && !Text.Contains(slug, "category")
    ensures var counted := TagsWithCounts(tags, (slug: string) => Api.GetArticlesByTag(slug, Api.Fallback, store));
      counted[i].tag == tags[i]
      && counted[i].articleCount == |Filter(store.articles, Api.HasTagSlug(Some(tags[i].slug)))|
  {
    Api.ByTagFallback(tags[i].slug, store);
  }
}
