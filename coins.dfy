/**
 * The coin filter of `get_coins` (src/get_tokens.rs): from the full coin list
 * keep the coins that carry a non-empty Ethereum contract address.
 */
module Coins {
  import opened Wrappers
  import opened Service

  /** Per-chain platform addresses of a listed coin; only the Ethereum entry is read. */
  datatype OptionPlatform = OptionPlatform(ethereum: Option<string>)

  /** A coin as the coin list returns it. */
  datatype OptionCoin = OptionCoin(id: string, symbol: string, name: string, platforms: Option<OptionPlatform>)

  /** A coin known to live on Ethereum, with its contract address. */
  datatype Coin = Coin(id: string, symbol: string, name: string, ethereum: string)

  /** The three nested tests of the filter: a platform record, an Ethereum entry, a non-empty address. */
  predicate HasEthereumAddress(c: OptionCoin) {
    && c.platforms.Some?
    && c.platforms.value.ethereum.Some?
    && |c.platforms.value.ethereum.value| > 0
  }

  /** The coin the filter pushes for a kept entry. */
  function ToCoin(c: OptionCoin): Coin
    requires HasEthereumAddress(c)
  {
    Coin(c.id, c.symbol, c.name, c.platforms.value.ethereum.value)
  }

  /** The Ethereum coins of a listing, in listing order (defined from the back, as the loop grows it). */
  function EthereumCoins(data: seq<OptionCoin>): seq<Coin> {
    if |data| == 0 then []
    else
      var last := data[|data| - 1];
      EthereumCoins(data[..|data| - 1]) + (if HasEthereumAddress(last) then [ToCoin(last)] else [])
  }

  /**
   * `get_coins` after the listing has been fetched and decoded: an error from
   * the request is returned as it is; otherwise the loop pushes one `Coin` per
   * entry that passes the three tests.
   */
  method GetCoins(listing: Result<seq<OptionCoin>, HttpError>) returns (r: Result<seq<Coin>, HttpError>)
    ensures listing.Failure? ==> r == Failure(listing.error)
    ensures listing.Success? ==> r == Success(EthereumCoins(listing.value))
  {
    if listing.Failure? {
      return Failure(listing.error);
    }
    var data := listing.value;
    var ethereumCoins: seq<Coin> := [];
    var i := 0;
    while i < |data|
      invariant 0 <= i <= |data|
      invariant ethereumCoins == EthereumCoins(data[..i])
    {
      var coin := data[i];
      if coin.platforms.Some? {
        var platform := coin.platforms.value;
        if platform.ethereum.Some? {
          var ethereum := platform.ethereum.value;
          if |ethereum| > 0 {
            ethereumCoins := ethereumCoins + [Coin(coin.id, coin.symbol, coin.name, ethereum)];
          }
        }
      }
      assert data[..i + 1][..i] == data[..i];
      i := i + 1;
    }
    assert data[..i] == data;
    return Success(ethereumCoins);
  }

  /**
   * The filter keeps exactly the entries that pass its tests, in their order:
   * output `k` is the entry at `idx[k]`, the indices strictly increase, an
   * input index appears in `idx` iff its entry passes, and the kept coin
   * copies `id`, `symbol` and `name` and takes the Ethereum address.
   */
  lemma {:induction false} EthereumCoinsOrigin(data: seq<OptionCoin>) returns (idx: seq<nat>)
    ensures |idx| == |EthereumCoins(data)|
    ensures forall k :: 0 <= k < |idx| ==> idx[k] < |data| && HasEthereumAddress(data[idx[k]])
    ensures forall k :: 0 <= k < |idx| ==>
              var c := data[idx[k]];
              c.platforms.Some? && c.platforms.value.ethereum.Some? &&
              EthereumCoins(data)[k] == Coin(c.id, c.symbol, c.name, c.platforms.value.ethereum.value)
    ensures forall k, l :: 0 <= k < l < |idx| ==> idx[k] < idx[l]
    ensures forall i :: 0 <= i < |data| ==> (i in idx <==> HasEthereumAddress(data[i]))
  {
    if |data| == 0 {
      idx := [];
    } else {
      var n := |data| - 1;
      var front := data[..n];
      var prev := EthereumCoinsOrigin(front);
      assert forall i :: 0 <= i < n ==> data[i] == front[i];
      if HasEthereumAddress(data[n]) {
        idx := prev + [n];
      } else {
        idx := prev;
      }
    }
  }

  /** Every kept coin has a non-empty Ethereum address. */
  lemma {:induction false} EthereumCoinsAddressNonEmpty(data: seq<OptionCoin>)
    ensures forall c :: c in EthereumCoins(data) ==> |c.ethereum| > 0
  {
    if |data| > 0 {
      EthereumCoinsAddressNonEmpty(data[..|data| - 1]);
    }
  }

  /** The filter never lengthens the list. */
  lemma {:induction false} EthereumCoinsLength(data: seq<OptionCoin>)
    ensures |EthereumCoins(data)| <= |data|
  {
    if |data| > 0 {
      EthereumCoinsLength(data[..|data| - 1]);
    }
  }
}
