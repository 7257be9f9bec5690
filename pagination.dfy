/**
 * `paginate_questions`: the page of ten questions selected by the `page`
 * query argument, cut with a Python slice `selection[start:end]`. The page
 * number is not validated, so Python's slice rules apply to every integer.
 */
module Pagination {
  import opened Wrappers

  const QuestionsPerPage: nat := 10

  function Min(a: int, b: int): int { if a <= b then a else b }
  function Max(a: int, b: int): int { if a <= b then b else a }

  /**
   * `request.args.get("page", 1, type=int)`: `None` stands for an absent or
   * non-integer argument, which falls back to page 1; any integer, zero or
   * negative included, is taken as it is.
   */
  function PageNumber(page: Option<int>): (n: int)
    ensures page.None? ==> n == 1
    ensures page.Some? ==> n == page.value
  {
    page.GetOr(1)
  }

  /** Python's adjustment of a slice bound against a sequence of length `n`. */
  function SliceBound(i: int, n: nat): (b: nat)
    ensures b <= n
  {
    if i < 0 then Max(i + n, 0) else Min(i, n)
  }

  /** Python's `s[i:j]` with step 1: empty when the adjusted bounds cross. */
  function PySlice<T>(s: seq<T>, i: int, j: int): (r: seq<T>)
    ensures |r| <= |s|
  {
    var a, b := SliceBound(i, |s|), SliceBound(j, |s|);
    if a < b then s[a..b] else []
  }

  /**
   * The page of `items` for the requested page number. It never holds more
   * than ten items; for pages from 1 on it is exactly the items from index
   * (page-1)*10 up to page*10, cut at the end of `items`, and so it is empty
   * exactly when the page starts at or beyond the end.
   */
  function Paginate<T>(items: seq<T>, page: Option<int>): (r: seq<T>)
    ensures |r| <= QuestionsPerPage
    ensures forall i :: 0 <= i < |r| ==> r[i] in items
    ensures PageNumber(page) >= 1 ==>
      var start := (PageNumber(page) - 1) * QuestionsPerPage;
      r == items[Min(start, |items|)..Min(start + QuestionsPerPage, |items|)]
    ensures PageNumber(page) >= 1 ==>
      (r == [] <==> (PageNumber(page) - 1) * QuestionsPerPage >= |items|)
  {
    var start := (PageNumber(page) - 1) * QuestionsPerPage;
    var end := start + QuestionsPerPage;
    PySlice(items, start, end)
  }

  /** Page 0 slices `[-10:0]`, which is always empty. */
  lemma PageZeroIsEmpty<T>(items: seq<T>)
    ensures Paginate(items, Some(0)) == []
  {
  }

  /**
   * A negative page counts back from the end of `items`, as Python's
   * negative indices do: page -k holds the items from n-(k+1)*10 to n-k*10,
   * both cut at 0.
   */
  lemma NegativePageCountsFromEnd<T>(items: seq<T>, page: int)
    requires page < 0
    ensures var n := |items|;
      Paginate(items, Some(page)) ==
        items[Max(n + (page - 1) * QuestionsPerPage, 0)..Max(n + page * QuestionsPerPage, 0)]
  {
  }

  /** With 25 items, page -1 is not empty: it holds items 5 to 14. */
  lemma NegativePageExample(items: seq<int>)
    requires |items| == 25
    ensures Paginate(items, Some(-1)) == items[5..15]
    ensures |Paginate(items, Some(-1))| == 10
  {
    NegativePageCountsFromEnd(items, -1);
  }

  /** Every item sits on exactly one page, at its index modulo ten. */
  lemma {:induction false} ItemOnItsPage<T>(items: seq<T>, i: nat)
    requires i < |items|
    ensures var page := Paginate(items, Some(i / QuestionsPerPage + 1));
      i % QuestionsPerPage < |page| && page[i % QuestionsPerPage] == items[i]
  {
    var start := (i / QuestionsPerPage) * QuestionsPerPage;
    assert start <= i < start + QuestionsPerPage;
    assert i % QuestionsPerPage == i - start;
  }
}
