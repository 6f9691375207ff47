/**
 * The earlier `get_tokens` of src/getTokens.rs: the same coin filter as
 * `get_coins`, followed by a read of the first kept coin's address. Its
 * `OptionPlatform`, `OptionCoin` and `Coin` are the same records as in
 * src/get_tokens.rs, so the definitions of module Coins are reused.
 */
module LegacyGetTokens {
  import opened Wrappers
  import opened Service
  import opened Coins

  /** Some entry of the listing passes the filter. */
  ghost predicate SomeEthereumCoin(data: seq<OptionCoin>) {
    exists i :: 0 <= i < |data| && HasEthereumAddress(data[i])
  }

  /** The filter's output is non-empty exactly when some entry passes it, so `ethereum_coins[0]` is safe exactly then. */
  lemma {:induction false} FirstCoinExists(data: seq<OptionCoin>)
    ensures |EthereumCoins(data)| > 0 <==> SomeEthereumCoin(data)
  {
    var idx := EthereumCoinsOrigin(data);
    if SomeEthereumCoin(data) {
      var i :| 0 <= i < |data| && HasEthereumAddress(data[i]);
      assert i in idx;
    }
    if |idx| > 0 {
      assert HasEthereumAddress(data[idx[0]]);
    }
  }

  /**
   * The body after the fetch: filter the listing, then read element 0 of the
   * result. Element 0 must exist, which is why a succeeding listing must hold
   * at least one Ethereum coin. The source returns `Ok(())` and only prints
   * the kept coins' count and the first address; the model returns the kept
   * coins and that first address instead of printing them.
   */
  method GetTokens(listing: Result<seq<OptionCoin>, HttpError>) returns (r: Result<(seq<Coin>, string), HttpError>)
    requires listing.Success? ==> SomeEthereumCoin(listing.value)
    ensures listing.Failure? ==> r == Failure(listing.error)
    ensures listing.Success? ==> r.Success? && r.value.0 == EthereumCoins(listing.value)
    ensures listing.Success? ==> |r.value.0| > 0 && r.value.1 == r.value.0[0].ethereum && |r.value.1| > 0
  {
    if listing.Failure? {
      return Failure(listing.error);
    }
    var data := listing.value;
    var ethereumCoins: seq<Coin> := [];
    var i := 0;
    while i < |data|
      invariant 0 <= i <= |data|
      invariant ethereumCoins == EthereumCoins(data[..i])
    {
      var coin := data[i];
      if coin.platforms.Some? {
        var platform := coin.platforms.value;
        if platform.ethereum.Some? {
          var ethereum := platform.ethereum.value;
          if |ethereum| > 0 {
            ethereumCoins := ethereumCoins + [Coin(coin.id, coin.symbol, coin.name, ethereum)];
          }
        }
      }
      assert data[..i + 1][..i] == data[..i];
      i := i + 1;
    }
    assert data[..i] == data;
    FirstCoinExists(data);
    EthereumCoinsAddressNonEmpty(data);
    var first := ethereumCoins[0].ethereum;
    return Success((ethereumCoins, first));
  }
}
