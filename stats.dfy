/**
 * The per-group statistics the authors and categories pages compute over
 * the articles of one author or one category.
 */
module Stats {
  import opened Options
  import opened Types
  import opened Seqs
  import opened Sorting

  /** `articles.reduce((sum, article) => sum + article.views, 0)`. */
  function TotalViews(s: seq<Article>): (r: int)
    ensures r >= 0
    ensures forall i :: 0 <= i < |s| ==> s[i].views <= r
  {
    TotalViewsBounds(s);
    Sum(s, ViewsKey)
  }

  /** No article has more views than the total, which is never negative. */
  lemma {:induction false} TotalViewsBounds(s: seq<Article>)
    ensures Sum(s, ViewsKey) >= 0
    ensures forall i :: 0 <= i < |s| ==> s[i].views <= Sum(s, ViewsKey)
  {
    if s != [] {
      TotalViewsBounds(s[1..]);
      forall i | 1 <= i < |s| ensures s[i].views <= Sum(s, ViewsKey) {
        assert s[i] == s[1..][i - 1];
      }
    }
  }

  /**
   * `articles.sort(newest first)[0]`: an article with the greatest timestamp,
   * absent exactly when there are no articles.
   */
  function LatestArticle(s: seq<Article>): (r: Option<Article>)
    ensures r.None? <==> s == []
    ensures r.Some? ==> r.value in s && forall i :: 0 <= i < |s| ==> s[i].publishedAt <= r.value.publishedAt
  {
    HeadOfNewestFirst(s);
    First(SortDesc(s, PublishedKey))
  }

  lemma HeadOfNewestFirst(s: seq<Article>)
    ensures var t := SortDesc(s, PublishedKey);
      t != [] ==> t[0] in s && forall i :: 0 <= i < |s| ==> s[i].publishedAt <= t[0].publishedAt
  {
    var t := SortDesc(s, PublishedKey);
    SortDescSorted(s, PublishedKey);
    SortDescMultiset(s, PublishedKey);
    if t != [] {
      assert t[0] in multiset(s);
      forall i | 0 <= i < |s| ensures s[i].publishedAt <= t[0].publishedAt {
        assert s[i] in multiset(t);
        var j :| 0 <= j < |t| && t[j] == s[i];
      }
    }
  }

  /** Among several articles with the greatest timestamp, the stable sort puts the earliest one first. */
  lemma LatestIsFirstOfNewest(s: seq<Article>)
    requires s != []
    ensures var r := LatestArticle(s).value;
      var ties := KeyClass(s, PublishedKey, r.publishedAt);
      ties != [] && r == ties[0]
  {
    var t := SortDesc(s, PublishedKey);
    SortDescMultiset(s, PublishedKey);
    assert |t| == |multiset(s)|;
    SortDescStable(s, PublishedKey, t[0].publishedAt);
    assert t == [t[0]] + t[1..];
    KeyClassAppend([t[0]], t[1..], PublishedKey, t[0].publishedAt);
    KeyClassSingleton(t[0], PublishedKey, t[0].publishedAt);
  }

  /**
   * `Math.round(total / n)` for n > 0: the integer nearest to total / n,
   * halves rounded up.
   */
  function RoundedMean(total: int, n: nat): (r: int)
    requires n > 0
    ensures 2 * n * r <= 2 * total + n < 2 * n * r + 2 * n
  {
    var q := (2 * total + n) / (2 * n);
    assert (2 * total + n) == q * (2 * n) + (2 * total + n) % (2 * n);
    q
  }

  /** `articles.filter((a) => a.featured).length`. */
  function FeaturedCount(s: seq<Article>): (r: nat)
    ensures r <= |s|
  {
    |Filter(s, IsFeatured)|
  }

  /** The featured count counts each featured article as often as it occurs, and no other article. */
  lemma FeaturedCountExact(s: seq<Article>, a: Article)
    ensures multiset(Filter(s, IsFeatured))[a] == if a.featured then multiset(s)[a] else 0
    ensures FeaturedCount(s) == |multiset(Filter(s, IsFeatured))|
  {
    FilterCount(s, IsFeatured, a);
  }

  /** The featured count does not depend on the order of the articles. */
  lemma FeaturedCountPermutation(s: seq<Article>, t: seq<Article>)
    requires multiset(s) == multiset(t)
    ensures FeaturedCount(s) == FeaturedCount(t)
  {
    FilterPermutation(s, t, IsFeatured);
  }

  function AuthorName(a: Article): string { a.author.name }

  /** `[...new Set(articles.map((a) => a.author.name))].length`: at most one per article. */
  function DistinctAuthorNames(s: seq<Article>): (r: nat)
    ensures r <= |s|
    ensures r == |KeySet(s, AuthorName)|
  {
    KeySetAtMost(s, AuthorName);
    |KeySet(s, AuthorName)|
  }

  /**
   * The in-place `articles.sort(newest first)[0]` both pages perform: the
   * array ends up sorted and the first element is the latest article.
   */
  method SortedLatest(a: array<Article>) returns (latest: Option<Article>)
    modifies a
    ensures a[..] == SortDesc(old(a[..]), PublishedKey)
    ensures latest == LatestArticle(old(a[..]))
  {
    SortInPlace(a, PublishedKey);
    if a.Length > 0 {
      latest := Some(a[0]);
    } else {
      latest := None;
    }
  }
}
