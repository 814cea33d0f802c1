/** The mock payment gate (mock_x402.py): a priced route is served only when
    the request says it has paid, through the header X-X402-Mock-Paid. */
module MockGate {
  import opened Text
  import Gate

  const PAID_HEADER := "x-x402-mock-paid"
  const MOCK_HOW_TO_PAY := "Retry with header X-X402-Mock-Paid: true"

  datatype MockOutcome =
    | Pass
      /** 402 with body {error: "payment required", mock: true, path, price, pay_to, how_to_pay}. */
    | Unpaid(path: string, price: string, payTo: string, headers: Gate.Headers)
      /** The handler is called and these headers are set on its response. */
    | Settled(stamp: Gate.Headers)

  /** `request.headers.get("x-x402-mock-paid", "")` */
  function PaidHeader(req: Gate.Request): string {
    if PAID_HEADER in req.headers then req.headers[PAID_HEADER] else ""
  }

  /** `_mock_x402` */
  function MockGateSpec(req: Gate.Request, payTo: string, routePrices: map<string, string>): MockOutcome {
    if Gate.IsPreflight(req) || req.path !in routePrices then Pass
    else
      var price := routePrices[req.path];
      if Lower(PaidHeader(req)) == "true" then
        Settled(map["X-X402-Price" := price, "X-X402-PayTo" := payTo, "X-X402-Path" := req.path,
                    "X-X402-Mock-Settled" := "true", "X-X402-Mock" := "true"])
      else
        Unpaid(req.path, price, payTo,
               map["X-X402-Price" := price, "X-X402-PayTo" := payTo, "X-X402-Path" := req.path,
                   "X-X402-Mock" := "true"] + Gate.Cors())
  }

  /** The handler runs exactly for preflight requests, unpriced paths, and
      priced paths whose paid header is "true" in any mix of cases; an absent
      header counts as unpaid. */
  lemma MockSettledIffPaid(req: Gate.Request, payTo: string, routePrices: map<string, string>)
    ensures var out := MockGateSpec(req, payTo, routePrices);
      && (out.Pass? <==> Gate.IsPreflight(req) || req.path !in routePrices)
      && (out.Settled? <==>
            && !Gate.IsPreflight(req) && req.path in routePrices && PAID_HEADER in req.headers
            && var h := req.headers[PAID_HEADER];
               |h| == 4 && forall k :: 0 <= k < 4 ==> h[k] == "true"[k] || h[k] == "TRUE"[k])
  {
    var w := "true";
    LowerMatchesCaseVariants(PaidHeader(req), w);
    assert forall k :: 0 <= k < 4 ==> UpperChar(w[k]) == "TRUE"[k];
  }

  /** A paid request is served with the price, payee and path of the route
      and both mock markers. */
  lemma MockSettledHeaders(req: Gate.Request, payTo: string, routePrices: map<string, string>)
    requires MockGateSpec(req, payTo, routePrices).Settled?
    ensures var h := MockGateSpec(req, payTo, routePrices).stamp;
      && h["X-X402-Price"] == routePrices[req.path] && h["X-X402-PayTo"] == payTo
      && h["X-X402-Path"] == req.path
      && h["X-X402-Mock-Settled"] == "true" && h["X-X402-Mock"] == "true"
  {
  }

  /** An unpaid request to a priced path is answered 402 with the route's
      price, the payee and the path, in body and headers. */
  lemma MockUnpaidAnswer(req: Gate.Request, payTo: string, routePrices: map<string, string>)
    requires MockGateSpec(req, payTo, routePrices).Unpaid?
    ensures var out := MockGateSpec(req, payTo, routePrices);
      && req.path in routePrices && Lower(PaidHeader(req)) != "true"
      && out.price == routePrices[req.path] && out.payTo == payTo && out.path == req.path
      && out.headers["X-X402-Price"] == routePrices[req.path] && out.headers["X-X402-Mock"] == "true"
      && out.headers["Access-Control-Allow-Origin"] == "*"
  {
  }
}
