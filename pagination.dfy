/** `getAllCatBreeds`: fetch page 1, learn the page count from its
    `last_page`, fetch the remaining pages in order, concatenate their
    records, and give up with the error of the first page that fails. */
module Pagination {
  import opened Breeds

  /** Why one page could not be fetched: the GET failed, the body could
      not be read, or the body was not the expected JSON. */
  datatype FetchError = TransportFailed | BodyUnreadable | MalformedJson

  /** What `getCatBreedsByPage` returns for one page: its records and the
      `last_page` it reports, or an error. */
  datatype PageResult =
    | Page(breeds: seq<CatBreed>, lastPage: int)
    | FetchFailed(error: FetchError)

  /** `([]CatBreed, error)`: the records, or an error and no records. */
  datatype Result<T> = Ok(value: T) | Err(error: FetchError)

  /** The upstream API as seen from this program: a fixed answer per page
      number and the log of the pages requested so far. */
  class Upstream {
    const answer: int -> PageResult
    var requests: seq<int>

    constructor (answer: int -> PageResult)
      ensures this.answer == answer && requests == []
    {
      this.answer := answer;
      requests := [];
    }

    /** `getCatBreedsByPage(page)`: one request, logged. */
    method FetchPage(page: int) returns (r: PageResult)
      modifies this
      ensures requests == old(requests) + [page]
      ensures r == answer(page)
    {
      requests := requests + [page];
      r := answer(page);
    }
  }

  /** The last page the loop covers: page 1's `last_page`, or 1 when page 1
      failed or reported less than 1. In that last case `pages` does take
      the smaller value, but the counter is already 2, so the loop ends. */
  function PageCount(answer: int -> PageResult): (n: int)
    ensures n >= 1
    ensures answer(1).Page? && answer(1).lastPage >= 1 ==> n == answer(1).lastPage
    ensures !(answer(1).Page? && answer(1).lastPage >= 1) ==> n == 1
  {
    if answer(1).Page? && answer(1).lastPage > 1 then answer(1).lastPage else 1
  }

  /** The first page in `lo..hi` that fails, or `hi + 1` when none does. */
  function FirstFailure(answer: int -> PageResult, lo: int, hi: int): (f: int)
    requires lo <= hi + 1
    ensures lo <= f <= hi + 1
    ensures forall p :: lo <= p < f ==> answer(p).Page?
    ensures f <= hi ==> answer(f).FetchFailed?
    decreases hi - lo + 1
  {
    if lo > hi then lo
    else if answer(lo).FetchFailed? then lo
    else FirstFailure(answer, lo + 1, hi)
  }

  /** How many pages are requested: up to the first failure, or all. */
  function Attempted(answer: int -> PageResult): (k: int)
    ensures 1 <= k <= PageCount(answer)
  {
    var n := PageCount(answer);
    var f := FirstFailure(answer, 1, n);
    if f <= n then f else n
  }

  /** The pages requested, in order: 1, 2, ..., `Attempted`. Each page
      once, strictly increasing, starting at page 1. */
  function RequestedPages(answer: int -> PageResult): (r: seq<int>)
    ensures |r| == Attempted(answer) && r[0] == 1
    ensures forall j :: 0 <= j < |r| ==> r[j] == j + 1
    ensures forall j, k :: 0 <= j < k < |r| ==> r[j] < r[k]
  {
    seq(Attempted(answer), j => j + 1)
  }

  /** The records of pages 1 through `n`, concatenated in page order. */
  function Gathered(answer: int -> PageResult, n: int): seq<CatBreed>
    decreases n
  {
    if n <= 0 then []
    else Gathered(answer, n - 1) + (if answer(n).Page? then answer(n).breeds else [])
  }

  /** What `getAllCatBreeds` returns: the error of the first failing page
      among 1..`PageCount`, or else all their records in page order. */
  function AllBreeds(answer: int -> PageResult): Result<seq<CatBreed>> {
    var n := PageCount(answer);
    var f := FirstFailure(answer, 1, n);
    if f <= n then Err(answer(f).error) else Ok(Gathered(answer, n))
  }

  /** A failure at page `i`, after pages 1..`i`-1 succeeded, ends the
      fetch there with that page's error. */
  lemma FailsAt(answer: int -> PageResult, i: int)
    requires 1 <= i <= PageCount(answer)
    requires forall p :: 1 <= p < i ==> answer(p).Page?
    requires answer(i).FetchFailed?
    ensures Attempted(answer) == i
    ensures AllBreeds(answer) == Err(answer(i).error)
  {
  }

  /** When pages 1..`PageCount` all succeed, every one is requested and
      their records are returned. */
  lemma SucceedsThrough(answer: int -> PageResult)
    requires forall p :: 1 <= p <= PageCount(answer) ==> answer(p).Page?
    ensures Attempted(answer) == PageCount(answer)
    ensures AllBreeds(answer) == Ok(Gathered(answer, PageCount(answer)))
  {
  }

  /** `getAllCatBreeds`. The pages requested are exactly `RequestedPages`
      and the result is `AllBreeds`. */
  method GetAllCatBreeds(up: Upstream) returns (result: Result<seq<CatBreed>>)
    modifies up
    ensures up.requests == old(up.requests) + RequestedPages(up.answer)
    ensures result == AllBreeds(up.answer)
  {
    ghost var n := PageCount(up.answer);
    var pages := 1;
    var all: seq<CatBreed> := [];
    var i := 1;
    while i <= pages
      invariant 1 <= i <= n + 1
      invariant i == 1 ==> pages == 1
      invariant i > 1 ==> up.answer(1).Page? && pages == up.answer(1).lastPage
      invariant i > pages ==> i == n + 1
      invariant forall p :: 1 <= p < i ==> up.answer(p).Page?
      invariant all == Gathered(up.answer, i - 1)
      invariant up.requests == old(up.requests) + seq(i - 1, j => j + 1)
      decreases n + 1 - i
    {
      var page := up.FetchPage(i);
      assert seq(i, j => j + 1) == seq(i - 1, j => j + 1) + [i];
      if page.FetchFailed? {
        FailsAt(up.answer, i);
        return Err(page.error);
      }
      if i == 1 {
        pages := page.lastPage;
      }
      all := all + page.breeds;
      i := i + 1;
    }
    SucceedsThrough(up.answer);
    return Ok(all);
  }

  /** When page 1 reports at most one page, only page 1 is requested and
      its records are the whole result. */
  lemma SinglePage(answer: int -> PageResult)
    requires answer(1).Page? && answer(1).lastPage <= 1
    ensures RequestedPages(answer) == [1]
    ensures AllBreeds(answer) == Ok(answer(1).breeds)
  {
    assert PageCount(answer) == 1;
    assert FirstFailure(answer, 1, 1) == 2;
    assert Gathered(answer, 0) == [];
    assert Gathered(answer, 1) == answer(1).breeds;
  }

  /** When page 1 fails, nothing else is requested. */
  lemma FirstPageFails(answer: int -> PageResult)
    requires answer(1).FetchFailed?
    ensures RequestedPages(answer) == [1]
    ensures AllBreeds(answer) == Err(answer(1).error)
  {
  }

  /** Every requested page but the last succeeded; the fetch fails exactly
      when the last requested page failed, with that page's error; and
      stopping short of `PageCount` happens only on failure. */
  lemma StopsAtFirstFailure(answer: int -> PageResult)
    ensures var r := RequestedPages(answer);
            && (forall j :: 0 <= j < |r| - 1 ==> answer(r[j]).Page?)
            && (AllBreeds(answer).Err? <==> answer(r[|r| - 1]).FetchFailed?)
            && (AllBreeds(answer).Err? ==> AllBreeds(answer).error == answer(r[|r| - 1]).error)
            && (|r| < PageCount(answer) ==> AllBreeds(answer).Err?)
  {
  }

  /** The fetch succeeds exactly when pages 1..`PageCount` all succeed; then
      all of them were requested and the result is their records in order. */
  lemma SucceedsIffAllPagesSucceed(answer: int -> PageResult)
    ensures AllBreeds(answer).Ok? <==> forall p :: 1 <= p <= PageCount(answer) ==> answer(p).Page?
    ensures AllBreeds(answer).Ok? ==>
              && RequestedPages(answer) == seq(PageCount(answer), j => j + 1)
              && AllBreeds(answer).value == Gathered(answer, PageCount(answer))
  {
    var n := PageCount(answer);
    var f := FirstFailure(answer, 1, n);
    if f <= n {
      assert answer(f).FetchFailed?;
    }
  }

  /** The records of the first `m` pages come first, in the same order,
      among those of the first `n`. */
  lemma {:induction false} GatheredPrefix(answer: int -> PageResult, m: int, n: int)
    requires 0 <= m <= n
    ensures Gathered(answer, m) <= Gathered(answer, n)
    decreases n
  {
    if m < n {
      GatheredPrefix(answer, m, n - 1);
    }
  }

  /** Two answers to the same page carry the same outcome and records;
      only the reported `last_page` may differ. */
  predicate SameButLastPage(x: PageResult, y: PageResult) {
    match x
    case Page(b, _) => y.Page? && y.breeds == b
    case FetchFailed(e) => y == FetchFailed(e)
  }

  /** The first failing page does not depend on the `last_page` values. */
  lemma {:induction false} FirstFailureIgnoresLastPage(a: int -> PageResult, b: int -> PageResult, lo: int, hi: int)
    requires lo <= hi + 1
    requires forall p :: SameButLastPage(a(p), b(p))
    ensures FirstFailure(a, lo, hi) == FirstFailure(b, lo, hi)
    decreases hi - lo + 1
  {
    if lo <= hi {
      assert SameButLastPage(a(lo), b(lo));
      FirstFailureIgnoresLastPage(a, b, lo + 1, hi);
    }
  }

  /** The gathered records do not depend on the `last_page` values. */
  lemma {:induction false} GatheredIgnoresLastPage(a: int -> PageResult, b: int -> PageResult, n: int)
    requires forall p :: SameButLastPage(a(p), b(p))
    ensures Gathered(a, n) == Gathered(b, n)
    decreases n
  {
    if n > 0 {
      assert SameButLastPage(a(n), b(n));
      GatheredIgnoresLastPage(a, b, n - 1);
    }
  }

  /** The page count comes from page 1 alone: answers that agree on page 1
      and differ elsewhere only in `last_page` lead to the same requests and
      the same result. */
  lemma OnlyPageOneSetsCount(a: int -> PageResult, b: int -> PageResult)
    requires a(1) == b(1)
    requires forall p :: SameButLastPage(a(p), b(p))
    ensures RequestedPages(a) == RequestedPages(b)
    ensures AllBreeds(a) == AllBreeds(b)
  {
    var n := PageCount(a);
    FirstFailureIgnoresLastPage(a, b, 1, n);
    GatheredIgnoresLastPage(a, b, n);
  }
}
