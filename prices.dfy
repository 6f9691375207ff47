/**
 * The paginated price fetch of `get_prices` (src/get_tokens.rs): request
 * market pages 1, 2, 3, ... and append each, stopping at the first empty
 * page; an error on any page ends the fetch with that error.
 */
module Prices {
  import opened Wrappers
  import opened Service

  /** One market entry. The price (an `f64` in the service's JSON) is the type `F` and is only copied. */
  datatype Price<F> = Price(id: string, currentPrice: Option<F>)

  /** What the market endpoint answers for each page number. */
  type PageSource<F> = nat -> Result<seq<Price<F>>, HttpError>

  /** Fetching page `k` ends the loop: the request failed or the page came back empty. */
  predicate EndsPaging<F>(getPage: PageSource<F>, k: nat) {
    1 <= k && (getPage(k).Failure? || |getPage(k).value| == 0)
  }

  /** Pages 1 .. k-1 all came back non-empty, so the loop went on past each of them. */
  predicate PagesBefore<F>(getPage: PageSource<F>, k: nat) {
    forall j: nat :: 1 <= j < k ==> getPage(j).Success? && |getPage(j).value| > 0
  }

  /** Some page ends the loop; without one the source's `loop` never exits. */
  ghost predicate Terminates<F>(getPage: PageSource<F>) {
    exists k: nat :: EndsPaging(getPage, k)
  }

  /** Below any page that ends the loop there is a first one. */
  lemma {:induction false} FirstEndBelow<F>(getPage: PageSource<F>, b: nat)
    requires EndsPaging(getPage, b)
    ensures exists k: nat :: k <= b && EndsPaging(getPage, k) && PagesBefore(getPage, k)
    decreases b
  {
    if exists j: nat :: 1 <= j < b && EndsPaging(getPage, j) {
      var j: nat :| 1 <= j < b && EndsPaging(getPage, j);
      FirstEndBelow(getPage, j);
    } else {
      forall j: nat | 1 <= j < b
        ensures getPage(j).Success? && |getPage(j).value| > 0
      {
        assert !EndsPaging(getPage, j);
      }
      assert PagesBefore(getPage, b);
    }
  }

  /** The page at which the loop stops: the first page that fails or is empty. */
  ghost function FirstEndPage<F>(getPage: PageSource<F>): (k: nat)
    requires Terminates(getPage)
    ensures EndsPaging(getPage, k)
    ensures PagesBefore(getPage, k)
  {
    var b: nat :| EndsPaging(getPage, b);
    FirstEndBelow(getPage, b);
    var k: nat :| EndsPaging(getPage, k) && PagesBefore(getPage, k);
    k
  }

  /** Pages `lo` .. `hi - 1` appended in page order. */
  function Concat<F>(getPage: PageSource<F>, lo: nat, hi: nat): seq<Price<F>>
    requires lo <= hi
    requires forall j: nat :: lo <= j < hi ==> getPage(j).Success?
    decreases hi - lo
  {
    if lo == hi then [] else Concat(getPage, lo, hi - 1) + getPage(hi - 1).value
  }

  /**
   * What `get_prices` returns: with `k` the first page that fails or is empty,
   * the error of page `k` if it failed (the pages before it are discarded),
   * else pages 1 .. k-1 appended in order.
   */
  ghost function FetchAll<F>(getPage: PageSource<F>): Result<seq<Price<F>>, HttpError>
    requires Terminates(getPage)
  {
    var k := FirstEndPage(getPage);
    if getPage(k).Failure? then Failure(getPage(k).error) else Success(Concat(getPage, 1, k))
  }

  /**
   * The loop of `get_prices`. `requested` records the pages asked for, in the
   * order asked: 1, 2, ..., up to and including the page that ended the loop.
   */
  method GetPrices<F>(getPage: PageSource<F>) returns (r: Result<seq<Price<F>>, HttpError>, ghost requested: seq<Request>)
    requires Terminates(getPage)
    ensures r == FetchAll(getPage)
    ensures |requested| == FirstEndPage(getPage)
    ensures forall i :: 0 <= i < |requested| ==> requested[i] == MarketPage(i + 1)
  {
    ghost var last := FirstEndPage(getPage);
    var prices: seq<Price<F>> := [];
    var page: nat := 1;
    requested := [];
    while true
      invariant 1 <= page <= last
      invariant prices == Concat(getPage, 1, page)
      invariant |requested| == page - 1
      invariant forall i :: 0 <= i < |requested| ==> requested[i] == MarketPage(i + 1)
      decreases last - page
    {
      var pagePrices := getPage(page);
      requested := requested + [MarketPage(page)];
      if pagePrices.Failure? {
        return Failure(pagePrices.error), requested;
      }
      if |pagePrices.value| == 0 {
        break;
      }
      prices := prices + pagePrices.value;
      page := page + 1;
    }
    return Success(prices), requested;
  }

  /** Appending is associative over page ranges: pages lo..mid-1 come before pages mid..hi-1. */
  lemma {:induction false} ConcatSplit<F>(getPage: PageSource<F>, lo: nat, mid: nat, hi: nat)
    requires lo <= mid <= hi
    requires forall j: nat :: lo <= j < hi ==> getPage(j).Success?
    ensures Concat(getPage, lo, hi) == Concat(getPage, lo, mid) + Concat(getPage, mid, hi)
    decreases hi - mid
  {
    if mid < hi {
      ConcatSplit(getPage, lo, mid, hi - 1);
    }
  }

  /** Pages of a common size `size` give `size` entries per page. */
  lemma {:induction false} ConcatLength<F>(getPage: PageSource<F>, lo: nat, hi: nat, size: nat)
    requires lo <= hi
    requires forall j: nat :: lo <= j < hi ==> getPage(j).Success? && |getPage(j).value| == size
    ensures |Concat(getPage, lo, hi)| == size * (hi - lo)
    decreases hi - lo
  {
    if lo < hi {
      ConcatLength(getPage, lo, hi - 1, size);
    }
  }

  /** Every fetched entry is an entry of one of the pages 1 .. k-1. */
  lemma {:induction false} ConcatOrigin<F>(getPage: PageSource<F>, lo: nat, hi: nat, p: Price<F>)
    requires lo <= hi
    requires forall j: nat :: lo <= j < hi ==> getPage(j).Success?
    requires p in Concat(getPage, lo, hi)
    ensures exists j: nat :: lo <= j < hi && getPage(j).Success? && p in getPage(j).value
    decreases hi - lo
  {
    if p !in getPage(hi - 1).value {
      ConcatOrigin(getPage, lo, hi - 1, p);
    }
  }

  /**
   * With `n` full pages of 250 entries followed by an empty page, the fetch
   * makes n + 1 requests and returns 250 * n entries.
   */
  lemma FullPagesThenEmpty<F>(getPage: PageSource<F>, n: nat)
    requires forall j: nat :: 1 <= j <= n ==> getPage(j).Success? && |getPage(j).value| == 250
    requires getPage(n + 1) == Success([])
    ensures Terminates(getPage)
    ensures FirstEndPage(getPage) == n + 1
    ensures FetchAll(getPage).Success? && |FetchAll(getPage).value| == 250 * n
  {
    assert EndsPaging(getPage, n + 1);
    ConcatLength(getPage, 1, n + 1, 250);
  }

  /** A successful fetch saw an empty page `k` and only non-empty successful pages before it. */
  lemma FetchAllSuccess<F>(getPage: PageSource<F>, prices: seq<Price<F>>)
    requires Terminates(getPage)
    requires FetchAll(getPage) == Success(prices)
    ensures var k := FirstEndPage(getPage);
            && getPage(k).Success? && |getPage(k).value| == 0
            && PagesBefore(getPage, k)
            && (forall p :: p in prices ==> exists j: nat :: 1 <= j < k && getPage(j).Success? && p in getPage(j).value)
  {
    var k := FirstEndPage(getPage);
    forall p | p in prices
      ensures exists j: nat :: 1 <= j < k && getPage(j).Success? && p in getPage(j).value
    {
      ConcatOrigin(getPage, 1, k, p);
    }
  }

  /** A failed fetch returns the error of the first failing page, which came before any empty page. */
  lemma FetchAllFailure<F>(getPage: PageSource<F>, e: HttpError)
    requires Terminates(getPage)
    requires FetchAll(getPage) == Failure(e)
    ensures var k := FirstEndPage(getPage);
            && getPage(k) == Failure(e)
            && PagesBefore(getPage, k)
  {
  }
}
