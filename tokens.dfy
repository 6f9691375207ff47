/**
 * `get_tokens` (src/get_tokens.rs): the token catalog. A non-empty cached
 * catalog is returned as it is; otherwise the Ethereum coins are joined with
 * the market prices, and the joined list is written to the cache and returned.
 */
module Tokens {
  import opened Wrappers
  import opened Service
  import opened Coins
  import opened Prices

  /** A catalog entry; `price` is the market price, copied from the price list. */
  datatype Token<F> = Token(name: string, symbol: string, address: string, price: F)

  /** A coin and a price entry join when their ids are equal and the price is defined. */
  predicate Matches<F>(coin: Coin, p: Price<F>) {
    coin.id == p.id && p.currentPrice.Some?
  }

  /** The token the join pushes for a matching pair. */
  function MakeToken<F>(coin: Coin, p: Price<F>): Token<F>
    requires Matches(coin, p)
  {
    Token(coin.name, coin.symbol, coin.ethereum, p.currentPrice.value)
  }

  /** The inner loop's contribution for one coin: one token per matching price entry, in price-list order. */
  function CoinTokens<F>(coin: Coin, prices: seq<Price<F>>): seq<Token<F>> {
    if |prices| == 0 then []
    else
      var p := prices[|prices| - 1];
      CoinTokens(coin, prices[..|prices| - 1]) + (if Matches(coin, p) then [MakeToken(coin, p)] else [])
  }

  /** The nested loops' output: the coins' contributions, coin after coin. */
  function Join<F>(coins: seq<Coin>, prices: seq<Price<F>>): seq<Token<F>> {
    if |coins| == 0 then []
    else Join(coins[..|coins| - 1], prices) + CoinTokens(coins[|coins| - 1], prices)
  }

  /** Where the join places the token of the pair (coins[i], prices[j]): coin-major, then price order. */
  function Position<F>(coins: seq<Coin>, prices: seq<Price<F>>, i: nat, j: nat): nat
    requires i < |coins| && j <= |prices|
  {
    |Join(coins[..i], prices)| + |CoinTokens(coins[i], prices[..j])|
  }

  /** The nested `for` loops of `get_tokens` over coins and prices. */
  method JoinTokens<F>(coins: seq<Coin>, prices: seq<Price<F>>) returns (tokens: seq<Token<F>>)
    ensures tokens == Join(coins, prices)
  {
    tokens := [];
    var i := 0;
    while i < |coins|
      invariant 0 <= i <= |coins|
      invariant tokens == Join(coins[..i], prices)
    {
      var coin := coins[i];
      var j := 0;
      while j < |prices|
        invariant 0 <= j <= |prices|
        invariant tokens == Join(coins[..i], prices) + CoinTokens(coin, prices[..j])
      {
        var price := prices[j];
        if coin.id == price.id {
          if price.currentPrice.Some? {
            tokens := tokens + [Token(coin.name, coin.symbol, coin.ethereum, price.currentPrice.value)];
          }
        }
        assert prices[..j + 1][..j] == prices[..j];
        j := j + 1;
      }
      assert prices[..j] == prices;
      assert coins[..i + 1][..i] == coins[..i];
      i := i + 1;
    }
    assert coins[..i] == coins;
  }

  /** A shorter price list contributes a prefix of the tokens. */
  lemma {:induction false} CoinTokensPrefix<F>(coin: Coin, prices: seq<Price<F>>, m: nat)
    requires m <= |prices|
    ensures |CoinTokens(coin, prices[..m])| <= |CoinTokens(coin, prices)|
    ensures CoinTokens(coin, prices)[..|CoinTokens(coin, prices[..m])|] == CoinTokens(coin, prices[..m])
    decreases |prices| - m
  {
    if m < |prices| {
      var front := prices[..|prices| - 1];
      assert front[..m] == prices[..m];
      CoinTokensPrefix(coin, front, m);
    } else {
      assert prices[..m] == prices;
    }
  }

  /** A shorter coin list yields a prefix of the tokens. */
  lemma {:induction false} JoinPrefix<F>(coins: seq<Coin>, prices: seq<Price<F>>, m: nat)
    requires m <= |coins|
    ensures |Join(coins[..m], prices)| <= |Join(coins, prices)|
    ensures Join(coins, prices)[..|Join(coins[..m], prices)|] == Join(coins[..m], prices)
    decreases |coins| - m
  {
    if m < |coins| {
      var front := coins[..|coins| - 1];
      assert front[..m] == coins[..m];
      JoinPrefix(front, prices, m);
    } else {
      assert coins[..m] == coins;
    }
  }

  /** A matching price entry at index j yields its token right after the tokens of entries 0 .. j-1. */
  lemma {:induction false} CoinTokensAt<F>(coin: Coin, prices: seq<Price<F>>, j: nat)
    requires j < |prices| && Matches(coin, prices[j])
    ensures |CoinTokens(coin, prices[..j + 1])| == |CoinTokens(coin, prices[..j])| + 1
    ensures |CoinTokens(coin, prices[..j])| < |CoinTokens(coin, prices)|
    ensures CoinTokens(coin, prices)[|CoinTokens(coin, prices[..j])|] == MakeToken(coin, prices[j])
  {
    var upTo := prices[..j + 1];
    assert upTo[..j] == prices[..j];
    CoinTokensPrefix(coin, prices, j + 1);
  }

  /** The join puts the token of every matching pair (coins[i], prices[j]) at Position(coins, prices, i, j). */
  lemma {:induction false} TokenAt<F>(coins: seq<Coin>, prices: seq<Price<F>>, i: nat, j: nat)
    requires i < |coins| && j < |prices| && Matches(coins[i], prices[j])
    ensures Position(coins, prices, i, j) < |Join(coins, prices)|
    ensures Join(coins, prices)[Position(coins, prices, i, j)] == MakeToken(coins[i], prices[j])
  {
    var upTo := coins[..i + 1];
    assert upTo[..i] == coins[..i];
    var before, mine := Join(coins[..i], prices), CoinTokens(coins[i], prices);
    assert Join(upTo, prices) == before + mine;
    CoinTokensAt(coins[i], prices, j);
    JoinPrefix(coins, prices, i + 1);
    var pos := Position(coins, prices, i, j);
    assert pos - |before| == |CoinTokens(coins[i], prices[..j])|;
    assert (before + mine)[pos] == mine[pos - |before|];
  }

  /** Pairs earlier in coin-major order get strictly earlier positions, so distinct pairs give distinct tokens. */
  lemma {:induction false} PositionOrder<F>(coins: seq<Coin>, prices: seq<Price<F>>, i: nat, j: nat, i': nat, j': nat)
    requires i < |coins| && j < |prices| && Matches(coins[i], prices[j])
    requires i' < |coins| && j' < |prices| && Matches(coins[i'], prices[j'])
    requires i < i' || (i == i' && j < j')
    ensures Position(coins, prices, i, j) < Position(coins, prices, i', j')
  {
    CoinTokensAt(coins[i], prices, j);
    if i == i' {
      var upTo := prices[..j'];
      assert upTo[..j + 1] == prices[..j + 1];
      CoinTokensPrefix(coins[i], upTo, j + 1);
    } else {
      var upTo := coins[..i + 1];
      assert upTo[..i] == coins[..i];
      assert Join(upTo, prices) == Join(coins[..i], prices) + CoinTokens(coins[i], prices);
      var before := coins[..i'];
      assert before[..i + 1] == upTo;
      JoinPrefix(before, prices, i + 1);
    }
  }

  /** Every token of one coin's contribution comes from a matching price entry. */
  lemma {:induction false} CoinTokensOrigin<F>(coin: Coin, prices: seq<Price<F>>, m: nat) returns (j: nat)
    requires m < |CoinTokens(coin, prices)|
    ensures j < |prices| && Matches(coin, prices[j])
    ensures |CoinTokens(coin, prices[..j])| == m
    ensures CoinTokens(coin, prices)[m] == MakeToken(coin, prices[j])
  {
    var n := |prices| - 1;
    var front := prices[..n];
    if m < |CoinTokens(coin, front)| {
      j := CoinTokensOrigin(coin, front, m);
      assert front[..j] == prices[..j];
    } else {
      j := n;
    }
  }

  /**
   * Every token of the join is the token of a matching pair (coins[i],
   * prices[j]) placed at that pair's position: together with TokenAt and
   * PositionOrder, the join lists exactly one token per matching pair, in
   * coin-major order, with no deduplication.
   */
  lemma {:induction false} TokenOrigin<F>(coins: seq<Coin>, prices: seq<Price<F>>, k: nat) returns (i: nat, j: nat)
    requires k < |Join(coins, prices)|
    ensures i < |coins| && j < |prices| && Matches(coins[i], prices[j])
    ensures Position(coins, prices, i, j) == k
    ensures Join(coins, prices)[k] == MakeToken(coins[i], prices[j])
  {
    var n := |coins| - 1;
    var front := coins[..n];
    if k < |Join(front, prices)| {
      i, j := TokenOrigin(front, prices, k);
      assert front[..i] == coins[..i];
    } else {
      i := n;
      j := CoinTokensOrigin(coins[n], prices, k - |Join(front, prices)|);
    }
  }

  /** Two matching price entries for one coin give two equal tokens: addresses are not deduplicated. */
  lemma DuplicatesKept<F>(coin: Coin, p: Price<F>)
    requires Matches(coin, p)
    ensures Join([coin], [p, p]) == [MakeToken(coin, p), MakeToken(coin, p)]
  {
    var t := MakeToken(coin, p);
    assert [p][..0] == [];
    assert CoinTokens(coin, [p]) == [t];
    assert [p, p][..1] == [p];
    assert CoinTokens(coin, [p, p]) == [t, t];
    assert [coin][..0] == [];
  }

  /** Result of a catalog build, and the cache contents it leaves behind. */
  datatype Outcome<F> = Outcome(result: Result<seq<Token<F>>, HttpError>, cache: seq<Token<F>>)

  /**
   * `get_tokens` as a function of the cache contents and the two service
   * answers: the coin list is consulted (and its error returned) before the
   * prices; the cache is written only when the whole build succeeds.
   */
  ghost function BuildCatalog<F>(cache: seq<Token<F>>, listing: Result<seq<OptionCoin>, HttpError>, getPage: PageSource<F>): Outcome<F>
    requires |cache| == 0 && listing.Success? ==> Terminates(getPage)
  {
    if |cache| > 0 then Outcome(Success(cache), cache)
    else if listing.Failure? then Outcome(Failure(listing.error), cache)
    else
      match FetchAll(getPage)
      case Failure(e) => Outcome(Failure(e), cache)
      case Success(prices) =>
        var tokens := Join(EthereumCoins(listing.value), prices);
        Outcome(Success(tokens), tokens)
  }

  /** The catalog builder; `cache` holds the parsed contents of ./token-cache.json. */
  class TokenCatalog<F> {
    var cache: seq<Token<F>>

    constructor (stored: seq<Token<F>>)
      ensures cache == stored
    {
      cache := stored;
    }

    /**
     * `get_tokens`. `requests` records the calls made to the price service:
     * none on a cache hit; otherwise the coin list, then (if it succeeded)
     * market pages 1, 2, ... up to the one that ended the pagination.
     */
    method GetTokens(listing: Result<seq<OptionCoin>, HttpError>, getPage: PageSource<F>)
      returns (r: Result<seq<Token<F>>, HttpError>, ghost requests: seq<Request>)
      requires |cache| == 0 && listing.Success? ==> Terminates(getPage)
      modifies this
      ensures Outcome(r, cache) == BuildCatalog(old(cache), listing, getPage)
      ensures |old(cache)| > 0 ==> requests == []
      ensures |old(cache)| == 0 ==> |requests| > 0 && requests[0] == CoinList
      ensures |old(cache)| == 0 && listing.Failure? ==> |requests| == 1
      ensures |old(cache)| == 0 && listing.Success? ==>
                && |requests| == 1 + FirstEndPage(getPage)
                && forall i :: 1 <= i < |requests| ==> requests[i] == MarketPage(i)
    {
      if |cache| > 0 {
        return Success(cache), [];
      }
      requests := [CoinList];
      var coins := GetCoins(listing);
      if coins.Failure? {
        return Failure(coins.error), requests;
      }
      var prices;
      ghost var pageRequests;
      prices, pageRequests := GetPrices(getPage);
      requests := requests + pageRequests;
      assert requests[1..] == pageRequests;
      if prices.Failure? {
        return Failure(prices.error), requests;
      }
      var tokens := JoinTokens(coins.value, prices.value);
      assert tokens == Join(EthereumCoins(listing.value), FetchAll(getPage).value);
      cache := tokens;
      return Success(tokens), requests;
    }
  }

  /** After a miss the cache holds exactly what was returned; after a failed build it is left as it was. */
  lemma MissWritesBack<F>(listing: Result<seq<OptionCoin>, HttpError>, getPage: PageSource<F>)
    requires listing.Success? ==> Terminates(getPage)
    ensures var o := BuildCatalog([], listing, getPage);
            && (o.result.Success? ==> o.cache == o.result.value)
            && (o.result.Failure? ==> o.cache == [])
  {
  }

  /** A build that returned a non-empty catalog makes every later build return it again, whatever the service answers. */
  lemma CatalogIdempotent<F>(cache: seq<Token<F>>, listing: Result<seq<OptionCoin>, HttpError>, getPage: PageSource<F>,
                             listing': Result<seq<OptionCoin>, HttpError>, getPage': PageSource<F>)
    requires |cache| == 0 && listing.Success? ==> Terminates(getPage)
    requires BuildCatalog(cache, listing, getPage).result.Success?
    requires |BuildCatalog(cache, listing, getPage).result.value| > 0
    ensures var o := BuildCatalog(cache, listing, getPage);
            BuildCatalog(o.cache, listing', getPage') == o
  {
  }

  /**
   * End to end: every token of a freshly built catalog pairs a listed coin
   * that has a non-empty Ethereum address with a fetched price entry of the
   * same id, and copies the coin's name, symbol and address and the price.
   */
  lemma BuiltTokenOrigin<F>(listing: Result<seq<OptionCoin>, HttpError>, getPage: PageSource<F>, k: nat)
    returns (c: nat, p: nat)
    requires listing.Success? && Terminates(getPage)
    requires BuildCatalog([], listing, getPage).result.Success?
    requires k < |BuildCatalog([], listing, getPage).result.value|
    ensures var coins := listing.value;
            var prices := FetchAll(getPage).value;
            var t := BuildCatalog([], listing, getPage).result.value[k];
            && c < |coins| && HasEthereumAddress(coins[c])
            && p < |prices| && prices[p].id == coins[c].id && prices[p].currentPrice == Some(t.price)
            && t == Token(coins[c].name, coins[c].symbol, coins[c].platforms.value.ethereum.value, t.price)
            && |t.address| > 0
  {
    var coins := EthereumCoins(listing.value);
    var prices := FetchAll(getPage).value;
    var i, j := TokenOrigin(coins, prices, k);
    var idx := EthereumCoinsOrigin(listing.value);
    c, p := idx[i], j;
  }
}
