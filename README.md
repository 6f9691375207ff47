# Token catalog of eth-wallet-valuator, in Dafny

This project models how eth-wallet-valuator builds its token catalog. The
catalog is a list of `Token { name, symbol, address, price }` records. It is
built from two answers of the CoinGecko price service: the coin list, which
includes each coin's platform addresses, and the paginated market-price list.
The model proves properties of each step.

- **Coin filter** (`get_coins`, module `Coins`). A listed coin is kept when
  three things hold: it has a `platforms` record, that record has an
  `ethereum` entry, and the entry is a non-empty string. The kept coin copies
  `id`, `symbol` and `name` and takes the address. `EthereumCoins` is the
  specification; the `while` loop of `GetCoins` is proved equal to it.
- **Pagination** (`get_prices`, module `Prices`). The code requests pages 1,
  2, 3, … in turn. It stops at the first page that comes back empty. The first
  page that fails ends the fetch too, and its error is returned without the
  pages fetched before it. `FirstEndPage` names the page where the loop stops.
  `FetchAll` is the result.
- **Join** (`get_tokens`, module `Tokens`). Nested loops run over coins and
  prices. They push one token for every (coin, price entry) pair whose ids
  are equal and whose `current_price` is defined. The tokens come coin after
  coin, and for one coin in price-list order. The code does no deduplication.
- **Cache** (`get_tokens`, class `Tokens.TokenCatalog`). The parsed contents
  of `./token-cache.json` are the field `cache`. A non-empty cache is
  returned as it is, and no request is made. Otherwise the catalog is built.
  If the build succeeds, it is written to the cache and returned. If it
  fails, the error is returned and the cache is left as it was.
- **Earlier copy** (`src/getTokens.rs`, module `LegacyGetTokens`). This is
  the same filter. After it the code reads `ethereum_coins[0]`, so a
  successful listing must contain at least one Ethereum coin.

The two interfaces to the service are inputs. The coin list is a
`Result<seq<OptionCoin>, HttpError>`. The market endpoint is a total function
`nat -> Result<seq<Price<F>>, HttpError>`, from page number to answer. The
price type `F` stands for the source's `f64`. The code only copies prices, so
`F` is a type parameter and no arithmetic is done on it. A ghost
out-parameter records the requests in order: `CoinList`, then
`MarketPage(1)`, `MarketPage(2)`, ….

The code does less than a wallet valuator might be expected to, and the
model does only what the code does:
- It does not deduplicate addresses. `Tokens.DuplicatesKept` shows that
  repeated matches give repeated tokens.
- It appends no native-ETH entry to the catalog.
- It does not resolve decimals, fetch balances or aggregate values.

## Model

| member | source | states |
|---|---|---|
| `Coins.GetCoins` | src/get_tokens.rs:53-75 | A listing error is returned unchanged. Otherwise the loop's result equals `EthereumCoins` of the listing. |
| `Coins.EthereumCoinsOrigin` | src/get_tokens.rs:58-72 | The output is an order-preserving subsequence of the input, given by strictly increasing indices. An input index is among them iff its coin has a platform record, an Ethereum entry and a non-empty address. Each kept coin copies `id`, `symbol` and `name` and takes that address. |
| `Coins.EthereumCoinsAddressNonEmpty` | src/get_tokens.rs:60-68 | Every kept coin has a non-empty `ethereum` address. |
| `Coins.EthereumCoinsLength` | src/get_tokens.rs:58-72 | The filter's output is never longer than its input. |
| `Prices.FirstEndPage` | src/get_tokens.rs:41-45 | The loop stops at page k ≥ 1, the first page that fails or is empty. Every page from 1 to k-1 succeeded and was non-empty. |
| `Prices.GetPrices` | src/get_tokens.rs:38-51 | The result is `FetchAll`. Pages are requested exactly in the order 1, 2, …, k, where k is the stopping page. |
| `Prices.ConcatSplit` | src/get_tokens.rs:46 | Appending the pages of two adjacent page ranges gives the pages of their union, in page order. |
| `Prices.ConcatLength` | src/get_tokens.rs:46 | Pages that each hold `size` entries give `size` entries per page. |
| `Prices.ConcatOrigin` | src/get_tokens.rs:46 | Every appended entry is an entry of one of the fetched pages. |
| `Prices.FullPagesThenEmpty` | src/get_tokens.rs:39-50 | Take n full pages of 250 entries followed by an empty page. The loop stops at page n+1, so n+1 requests are made, and 250·n entries are returned. |
| `Prices.FetchAllSuccess` | src/get_tokens.rs:41-50 | On success, the stopping page was empty and each earlier page succeeded and was non-empty. Every returned entry comes from one of those earlier pages. |
| `Prices.FetchAllFailure` | src/get_tokens.rs:42 | On failure, the error is the one from the stopping page. Each earlier page succeeded and was non-empty, but those entries are discarded. |
| `Tokens.JoinTokens` | src/get_tokens.rs:97-111 | The nested loops' result equals `Join` of the coins and prices. |
| `Tokens.CoinTokensAt` | src/get_tokens.rs:99-108 | For one coin, a matching price entry at index j gives exactly one token. That token comes right after the tokens from entries 0 to j-1. |
| `Tokens.CoinTokensOrigin` | src/get_tokens.rs:99-108 | Every token of one coin comes from a matching price entry with equal `id` and a defined price. |
| `Tokens.TokenAt` | src/get_tokens.rs:98-111 | Each pair with `coin.id == price.id` and `current_price == Some(p)` gives a token at its coin-major position. The token has the coin's name, symbol and address, and price p. |
| `Tokens.PositionOrder` | src/get_tokens.rs:98-111 | Matching pairs get strictly increasing positions in coin-major, then price-list order. So distinct pairs give distinct tokens. |
| `Tokens.TokenOrigin` | src/get_tokens.rs:98-111 | Every token of the join is the token of some matching pair, at that pair's position. With `TokenAt` and `PositionOrder`, this gives exactly one token per matching pair. |
| `Tokens.DuplicatesKept` | src/get_tokens.rs:97-111 | Two matching price entries for one coin give two equal tokens, so no address is deduplicated. |
| `Tokens.TokenCatalog.constructor` | src/get_tokens.rs:86-89 | The catalog starts with the parsed cache contents. |
| `Tokens.TokenCatalog.GetTokens` | src/get_tokens.rs:85-120 | The result and the new cache are as `BuildCatalog` gives them. A non-empty cache is returned as it is and no request is made. On a miss, the coin list is requested first. Then, only if that request succeeded, market pages 1 to k are requested. |
| `Tokens.MissWritesBack` | src/get_tokens.rs:94-119 | After a miss, a successful build leaves the cache holding exactly the returned list. A failed build leaves the cache empty. |
| `Tokens.CatalogIdempotent` | src/get_tokens.rs:86-119 | Once a build has returned a non-empty list, the next build returns the same list and keeps the same cache, whatever the service answers. |
| `Tokens.BuiltTokenOrigin` | src/get_tokens.rs:94-111 | Take any token of a freshly built catalog. It pairs a listed coin that has a non-empty Ethereum address with a fetched price entry of the same id. It copies the coin's name, symbol and address and the entry's price. |
| `LegacyGetTokens.FirstCoinExists` | src/getTokens.rs:31-48 | The filtered list is non-empty iff some listed coin passes the filter. So reading element 0 is safe exactly then. |
| `LegacyGetTokens.GetTokens` | src/getTokens.rs:25-51 | A listing error is returned unchanged. Otherwise the kept coins equal `EthereumCoins` of the listing, and they are non-empty. The element read at index 0 is the first kept coin's address, which is non-empty. |

## Left out

- HTTP requests and JSON decoding (`reqwest::get`, `response.json()`) are not modelled. Their outcomes are the inputs: the coin-list `Result` and the page function.
- The page size of 250 and the query parameters come from the endpoint URL. The loop never checks them. Only `Prices.FullPagesThenEmpty` assumes full pages of 250.
- Reading and writing `./token-cache.json`, and the panics on a missing or unparsable cache file or a failed write, are not modelled. The cache is the field `TokenCatalog.cache`, which is assumed to hold a parsed list.
- The loop in `get_prices` never ends if every page succeeds and is non-empty. `GetPrices` therefore requires some page to fail or be empty (`Terminates`). `TokenCatalog.GetTokens` requires this only when it reaches that loop.
- The page counter is an `i32` in the source, which overflows after 2^31 - 1 pages. The model counts pages with `nat`.
- Prices (`f64`) are a type parameter and are only copied.
- The model does not capture the order of `async` suspension points. The service is treated as answering each page the same way whenever it is asked.
- `LegacyGetTokens.GetTokens`: the `println!` lines of src/getTokens.rs are not modelled. The model returns the kept coins and the address read at index 0 instead of printing them. A failed read there is modelled as the precondition, not as a panic.
- src/main.rs is not part of this model. It holds argument parsing, web3 transport setup, a hard-coded address and a repeated balance query, all of which are I/O.
