/**
 * The trending-topics card: the eight tags carried by the most articles,
 * numbered from 1.
 */
module TrendingTopics {
  import opened Types
  import opened Seqs
  import opened Sorting
  import opened TagsPage

  /** The number of tags the card shows. */
  const TrendingLimit := 8

  /** `tagsWithCounts.sort(by count).slice(0, 8)`, with the number shown beside each tag. */
  method LoadTrending(tags: seq<Tag>, articlesOf: string -> seq<Article>)
    returns (trendingTags: seq<TagWithCount>, ranks: seq<int>)
    ensures trendingTags == Slice(SortDesc(TagsWithCounts(tags, articlesOf), CountKey), TrendingLimit)
    ensures ranks == Ranks(trendingTags)
  {
    var a := ArrayOf(TagsWithCounts(tags, articlesOf));
    SortInPlace(a, CountKey);
    trendingTags := Slice(a[..], TrendingLimit);
    ranks := Ranks(trendingTags);
  }

  /** `index + 1` for each displayed tag: the ranks run 1, 2, ... with no gap or repeat. */
  function Ranks(t: seq<TagWithCount>): (r: seq<int>)
    ensures |r| == |t|
    ensures forall i :: 0 <= i < |r| ==> 1 <= r[i] <= |t|
    ensures forall i, j :: 0 <= i < j < |r| ==> r[i] < r[j]
  {
    seq(|t|, (i: int) => i + 1)
  }

  /**
   * The card shows min(8, n) tags, most articles first, taken from the
   * tags of the input; no shown tag has fewer articles than a hidden one,
   * and equally counted tags keep their input order.
   */
  lemma TrendingTags(tags: seq<Tag>, articlesOf: string -> seq<Article>, k: int)
    ensures var counted := TagsWithCounts(tags, articlesOf);
      var trending := Slice(SortDesc(counted, CountKey), TrendingLimit);
      && |trending| == Min(TrendingLimit, |tags|)
      && SortedDesc(trending, CountKey)
      && multiset(trending) <= multiset(counted)
      && (forall x, y :: x in trending && y in multiset(counted) - multiset(trending) ==> x.articleCount >= y.articleCount)
      && KeyClass(trending, CountKey, k) <= KeyClass(counted, CountKey, k)
  {
    TopOfSort(TagsWithCounts(tags, articlesOf), CountKey, TrendingLimit, k);
  }
}
