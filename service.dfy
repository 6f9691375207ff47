/**
 * The price service as the catalog builder sees it. The HTTP request and the
 * JSON decoding are not modelled: a response is a value handed in, and a
 * failed request or an undecodable body is an `HttpError`.
 */
module Service {

  /** Stands for `reqwest::Error`, which every `?` in the catalog code propagates unchanged. */
  datatype HttpError = HttpError(reason: string)

  /** A request to the price service, as recorded by the model. */
  datatype Request =
    | CoinList              // GET /coins/list?include_platform=true
    | MarketPage(page: nat) // GET /coins/markets?...&page=<page>
}
