/** The portfolio's pagination rules: which slice of the dataset a page shows,
    how many pages there are, and how a position on a page maps back to a
    position in the whole dataset. Generic in the element type. */
module Pagination {

  /** ITEMS_PER_PAGE: sixteen artworks per page. */
  const ItemsPerPage: nat := 16

  function Min(a: int, b: int): int {
    if a <= b then a else b
  }

  /** `Array.prototype.slice(start, end)` for bounds that are not negative:
      both bounds are clamped to the length, so a start past the end gives []. */
  function Slice<T>(s: seq<T>, start: nat, end: nat): (r: seq<T>)
    requires start <= end
    ensures start >= |s| ==> r == []
    ensures start < |s| ==> |r| == Min(end, |s|) - start
    ensures forall i :: 0 <= i < |r| ==> start + i < |s| && r[i] == s[start + i]
  {
    s[Min(start, |s|)..Min(end, |s|)]
  }

  /** Offset in the dataset of the first item of `page` (pages count from 1). */
  function PageStart(page: int): nat
    requires page >= 1
  {
    (page - 1) * ItemsPerPage
  }

  /** The dataset index opened by the Details button at position `local` of `page`. */
  function GlobalIndex(page: int, local: nat): nat
    requires page >= 1
  {
    PageStart(page) + local
  }

  /** The page on which dataset index `j` is shown. */
  function PageOf(j: nat): (p: int)
    ensures p >= 1
  {
    j / ItemsPerPage + 1
  }

  /** The position within its page at which dataset index `j` is shown. */
  function LocalOf(j: nat): (i: nat)
    ensures i < ItemsPerPage
  {
    j % ItemsPerPage
  }

  /** Local-to-global translation and its inverse undo each other: every
      dataset index lies at exactly one (page, position) pair. */
  lemma IndexTranslationRoundTrip(j: nat, page: int, local: nat)
    requires page >= 1 && local < ItemsPerPage
    ensures GlobalIndex(PageOf(j), LocalOf(j)) == j
    ensures PageOf(GlobalIndex(page, local)) == page
    ensures LocalOf(GlobalIndex(page, local)) == local
  {
  }

  /** Two cards of the pagination never carry the same dataset index unless
      they are the same card: pages do not overlap. */
  lemma GlobalIndexInjective(p1: int, i1: nat, p2: int, i2: nat)
    requires p1 >= 1 && p2 >= 1 && i1 < ItemsPerPage && i2 < ItemsPerPage
    requires GlobalIndex(p1, i1) == GlobalIndex(p2, i2)
    ensures p1 == p2 && i1 == i2
  {
  }

  /** The items rendered on `page`: `data.slice(start, start + 16)` with
      `start = (page - 1) * 16`. Position `i` of the page holds the record at
      dataset index `GlobalIndex(page, i)`. */
  function PageItems<T>(data: seq<T>, page: int): (r: seq<T>)
    requires page >= 1
    ensures |r| <= ItemsPerPage
    ensures PageStart(page) >= |data| ==> r == []
    ensures PageStart(page) < |data| ==> |r| == Min(ItemsPerPage, |data| - PageStart(page))
    ensures forall i :: 0 <= i < |r| ==> GlobalIndex(page, i) < |data| && r[i] == data[GlobalIndex(page, i)]
  {
    Slice(data, PageStart(page), PageStart(page) + ItemsPerPage)
  }

  /** `Math.ceil(n / ITEMS_PER_PAGE)`: the number of pagination controls. */
  function PageCount(n: nat): (r: nat)
    ensures n <= r * ItemsPerPage < n + ItemsPerPage
    ensures r == 0 <==> n == 0
  {
    (n + ItemsPerPage - 1) / ItemsPerPage
  }

  /** A page is non-empty exactly when its number is one of the controls
      1..PageCount. */
  lemma PageNonEmptyIff<T>(data: seq<T>, page: int)
    requires page >= 1
    ensures |PageItems(data, page)| > 0 <==> page <= PageCount(|data|)
  {
  }

  /** The pages 1..k rendered one after another. */
  function PagesUpTo<T>(data: seq<T>, k: nat): seq<T>
  {
    if k == 0 then [] else PagesUpTo(data, k - 1) + PageItems(data, k)
  }

  /** Pages 1..k together are exactly the first min(16k, |data|) records:
      no record skipped, none repeated, order kept. */
  lemma {:induction false} PagesUpToIsPrefix<T>(data: seq<T>, k: nat)
    ensures PagesUpTo(data, k) == data[..Min(k * ItemsPerPage, |data|)]
  {
    if k > 0 {
      PagesUpToIsPrefix(data, k - 1);
      var before := Min((k - 1) * ItemsPerPage, |data|);
      var after := Min(k * ItemsPerPage, |data|);
      var page := PageItems(data, k);
      assert |page| == after - before;
      assert data[..after] == data[..before] + data[before..after];
      assert page == data[before..after] by {
        forall i | 0 <= i < |page|
          ensures page[i] == data[before..after][i]
        {
        }
      }
    }
  }

  /** Rendering every page from 1 to PageCount in turn gives back the whole
      dataset: the pages partition it with no overlap and no gap. */
  lemma {:induction false} PagesPartitionDataset<T>(data: seq<T>)
    ensures PagesUpTo(data, PageCount(|data|)) == data
  {
    PagesUpToIsPrefix(data, PageCount(|data|));
  }

  /** Every dataset index is shown on one of the pages 1..PageCount, at the
      position the local-to-global translation maps back to it. */
  lemma EveryIndexOnSomePage<T>(data: seq<T>, j: nat)
    requires j < |data|
    ensures 1 <= PageOf(j) <= PageCount(|data|)
    ensures LocalOf(j) < |PageItems(data, PageOf(j))|
    ensures GlobalIndex(PageOf(j), LocalOf(j)) == j
    ensures PageItems(data, PageOf(j))[LocalOf(j)] == data[j]
  {
  }
}
