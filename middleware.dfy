/** The wallet gate in front of priced routes (backend/x402_wallet/middleware.py).

    The framework is left out: a request is its method, path and headers,
    and the gate's decision is an `Outcome` — pass the request through, answer
    402 with a fresh invoice, answer 402 with the verifier's reason, or call
    the handler and stamp the payment headers on its response. */
module Gate {
  import opened Wrappers
  import opened Text
  import opened Store
  import opened InvoiceIssuer
  import opened Verify

  type Headers = map<string, string>

  /** Header names are lower-case, as the framework's lookup treats them. */
  datatype Request = Request(verb: string, path: string, headers: Headers)

  datatype Outcome =
    | PassThrough
      /** 402 with body {error: "payment required", mode: "wallet", invoice, how_to_pay}. */
    | Challenge(invoice: Invoice, headers: Headers)
      /** 402 with body {error: "payment required", mode: "wallet", reason, invoice_id}. */
    | Reject(reason: string, invoiceId: string, headers: Headers)
      /** The handler is called and these headers are set on its response. */
    | Forward(stamp: Headers)

  const PAYMENT_REQUIRED := "payment required"
  const MODE := "wallet"
  const HOW_TO_PAY := "Sign the canonical message and retry with X-X402-Proof"
  const PROOF_HEADER := "x-x402-proof"

  /** What `install_wallet_middleware` closes over. */
  datatype GateConfig = GateConfig(payTo: string, routePrices: map<string, string>, invoiceTtl: int)

  /** The outside world the gate consults: decoders, signature recovery and
      timestamp formatting. */
  datatype Externals = Externals(
    b64: string -> Option<string>,
    json: string -> Option<Proof>,
    recover: (string, string) -> Option<string>,
    iso: int -> string)

  /** The clock readings and fresh ids one request may consume: `now` is read
      when issuing and by `get_invoice`, `later` by `mark_redeemed`. */
  datatype Draws = Draws(now: int, later: int, invoiceId: string, nonce: string, receiptId: string)

  function Cors(): Headers {
    map["Access-Control-Allow-Origin" := "*",
        "Access-Control-Allow-Methods" := "GET,POST,OPTIONS",
        "Access-Control-Allow-Headers" := "*"]
  }

  /** The headers of both 402 answers. */
  function PaymentHeaders(price: string, payTo: string, path: string, invoiceId: string): Headers {
    map["X-X402-Mode" := MODE, "X-X402-Price" := price, "X-X402-PayTo" := payTo,
        "X-X402-Path" := path, "X-X402-InvoiceId" := invoiceId] + Cors()
  }

  /** The headers set on the handler's response after a verified payment. */
  function ReceiptHeaders(receiptId: string, payer: string, price: string, path: string, payTo: string): Headers {
    map["X-X402-Receipt" := receiptId, "X-X402-Payer" := payer, "X-X402-Price" := price,
        "X-X402-Path" := path, "X-X402-PayTo" := payTo, "X-X402-Mode" := MODE]
  }

  /** `request.headers.get("x-x402-proof")`, with an absent header read as empty:
      the gate treats both alike. */
  function ProofHeader(req: Request): string {
    if PROOF_HEADER in req.headers then req.headers[PROOF_HEADER] else ""
  }

  predicate IsPreflight(req: Request) {
    Upper(req.verb) == "OPTIONS"
  }

  /** `_wallet_gate` over a store value. */
  function GateSpec(s: StoreState, req: Request, cfg: GateConfig, draws: Draws, ext: Externals): (StoreState, Outcome)
    requires SignedStore(s.invoices)
  {
    if IsPreflight(req) || req.path !in cfg.routePrices then (s, PassThrough)
    else
      var price := cfg.routePrices[req.path];
      var raw := ProofHeader(req);
      if raw == [] then
        var expiresAt := draws.now + cfg.invoiceTtl;
        var invoice := NewInvoice(draws.invoiceId, req.path, price, cfg.payTo, draws.nonce,
                                  ext.iso(draws.now), ext.iso(expiresAt));
        (SaveStep(s, invoice, expiresAt, draws.now),
         Challenge(invoice, PaymentHeaders(price, cfg.payTo, req.path, draws.invoiceId)))
      else
        var proof := ParseProofHeader(raw, ext.b64, ext.json);
        var (s', v) := VerifySpec(s, proof, draws.now, draws.later, draws.receiptId, ext.recover);
        if !v.ok then (s', Reject(v.reason, v.invoiceId, PaymentHeaders(price, cfg.payTo, req.path, v.invoiceId)))
        else (s', Forward(ReceiptHeaders(v.receiptId, v.payer, price, req.path, cfg.payTo)))
  }

  /** The response the client sees once the handler has answered with
      `handlerHeaders`: the stamped headers overwrite, the rest are kept. */
  function Stamped(handlerHeaders: Headers, stamp: Headers): (r: Headers)
    ensures r.Keys == handlerHeaders.Keys + stamp.Keys
    ensures forall h :: h in stamp ==> r[h] == stamp[h]
    ensures forall h :: h in handlerHeaders && h !in stamp ==> r[h] == handlerHeaders[h]
  {
    handlerHeaders + stamp
  }

  /** A preflight request is any spelling of OPTIONS; it and a request for an
      unpriced path pass through with the store untouched. */
  lemma PassThroughCases(s: StoreState, req: Request, cfg: GateConfig, draws: Draws, ext: Externals)
    requires SignedStore(s.invoices)
    ensures IsPreflight(req) <==>
              |req.verb| == 7 && forall k :: 0 <= k < 7 ==> req.verb[k] == "OPTIONS"[k] || req.verb[k] == "options"[k]
    ensures GateSpec(s, req, cfg, draws, ext).1.PassThrough? <==> IsPreflight(req) || req.path !in cfg.routePrices
    ensures GateSpec(s, req, cfg, draws, ext).1.PassThrough? ==> GateSpec(s, req, cfg, draws, ext).0 == s
  {
    UpperMatchesCaseVariants(req.verb, "OPTIONS");
    var w := "OPTIONS";
    assert forall k :: 0 <= k < 7 ==> LowerChar(w[k]) == "options"[k];
  }

  /** A priced request without a proof is answered 402 and the handler is not
      called; exactly one invoice is issued, for this path at the configured
      price, and the headers name the price and the new invoice. */
  lemma ChallengeIssuesOneInvoice(s: StoreState, req: Request, cfg: GateConfig, draws: Draws, ext: Externals)
    requires SignedStore(s.invoices)
    requires !IsPreflight(req) && req.path in cfg.routePrices && ProofHeader(req) == []
    ensures var (s', out) := GateSpec(s, req, cfg, draws, ext);
      && out.Challenge?
      && out.invoice["invoice_id"] == draws.invoiceId
      && out.invoice["path"] == req.path && out.invoice["price"] == cfg.routePrices[req.path]
      && out.invoice["pay_to"] == cfg.payTo
      && out.headers["X-X402-Price"] == cfg.routePrices[req.path]
      && out.headers["X-X402-InvoiceId"] == draws.invoiceId
      && out.headers["X-X402-Mode"] == MODE
      && (forall id :: id in s'.invoices <==> id in Pruned(s.invoices, draws.now) || id == draws.invoiceId)
      && s'.invoices[draws.invoiceId] == Record(out.invoice, draws.now + cfg.invoiceTtl, false)
      && s'.receipts == s.receipts
  {
    var price := cfg.routePrices[req.path];
    var expiresAt := draws.now + cfg.invoiceTtl;
    var invoice := NewInvoice(draws.invoiceId, req.path, price, cfg.payTo, draws.nonce,
                              ext.iso(draws.now), ext.iso(expiresAt));
    GateOnNoProof(s, req, cfg, draws, ext);
    NewInvoiceFields(draws.invoiceId, req.path, price, cfg.payTo, draws.nonce, ext.iso(draws.now), ext.iso(expiresAt));
    PaymentHeadersNamed(price, cfg.payTo, req.path, draws.invoiceId);
    SaveStepShape(s, invoice, expiresAt, draws.now);
  }

  /** A priced request without a proof is decided without the verifier: the
      gate saves a fresh invoice and answers with it. */
  lemma GateOnNoProof(s: StoreState, req: Request, cfg: GateConfig, d: Draws, ext: Externals)
    requires SignedStore(s.invoices)
    requires !IsPreflight(req) && req.path in cfg.routePrices && ProofHeader(req) == []
    ensures var price := cfg.routePrices[req.path];
      var invoice := NewInvoice(d.invoiceId, req.path, price, cfg.payTo, d.nonce,
                                ext.iso(d.now), ext.iso(d.now + cfg.invoiceTtl));
      GateSpec(s, req, cfg, d, ext)
        == (SaveStep(s, invoice, d.now + cfg.invoiceTtl, d.now),
            Challenge(invoice, PaymentHeaders(price, cfg.payTo, req.path, d.invoiceId)))
  {
  }

  /** The 402 headers name the mode, the price, the payee, the path and the invoice. */
  lemma PaymentHeadersNamed(price: string, payTo: string, path: string, invoiceId: string)
    ensures var h := PaymentHeaders(price, payTo, path, invoiceId);
      && "X-X402-Mode" in h && h["X-X402-Mode"] == MODE
      && "X-X402-Price" in h && h["X-X402-Price"] == price
      && "X-X402-PayTo" in h && h["X-X402-PayTo"] == payTo
      && "X-X402-Path" in h && h["X-X402-Path"] == path
      && "X-X402-InvoiceId" in h && h["X-X402-InvoiceId"] == invoiceId
  {
  }

  /** A present proof that fails verification is answered 402 with the
      verifier's reason and invoice id; the handler is not called and nothing
      is redeemed. */
  lemma RejectCarriesReason(s: StoreState, req: Request, cfg: GateConfig, draws: Draws, ext: Externals)
    requires SignedStore(s.invoices)
    requires !IsPreflight(req) && req.path in cfg.routePrices && ProofHeader(req) != []
    requires !VerifySpec(s, ParseProofHeader(ProofHeader(req), ext.b64, ext.json),
                         draws.now, draws.later, draws.receiptId, ext.recover).1.ok
    ensures var v := VerifySpec(s, ParseProofHeader(ProofHeader(req), ext.b64, ext.json),
                                draws.now, draws.later, draws.receiptId, ext.recover).1;
      var (s', out) := GateSpec(s, req, cfg, draws, ext);
      && out == Reject(v.reason, v.invoiceId, PaymentHeaders(cfg.routePrices[req.path], cfg.payTo, req.path, v.invoiceId))
      && out.headers["X-X402-InvoiceId"] == v.invoiceId
      && s'.receipts == s.receipts
  {
    FailureRedeemsNothing(s, ParseProofHeader(ProofHeader(req), ext.b64, ext.json),
                          draws.now, draws.later, draws.receiptId, ext.recover);
  }

  /** The handler runs exactly when the verifier accepted the proof, and then
      the response carries the receipt id, the recovered payer, the price, the
      path, the payee and the mode; a receipt for that payer is on record. */
  lemma ForwardOnlyWhenVerified(s: StoreState, req: Request, cfg: GateConfig, draws: Draws, ext: Externals)
    requires SignedStore(s.invoices)
    ensures var (s', out) := GateSpec(s, req, cfg, draws, ext);
      out.Forward? <==>
        && !IsPreflight(req) && req.path in cfg.routePrices && ProofHeader(req) != []
        && VerifySpec(s, ParseProofHeader(ProofHeader(req), ext.b64, ext.json),
                      draws.now, draws.later, draws.receiptId, ext.recover).1.ok
    ensures var (s', out) := GateSpec(s, req, cfg, draws, ext);
      out.Forward? ==>
        && out.stamp["X-X402-Receipt"] == draws.receiptId
        && out.stamp["X-X402-Price"] == cfg.routePrices[req.path]
        && out.stamp["X-X402-Path"] == req.path
        && out.stamp["X-X402-PayTo"] == cfg.payTo
        && out.stamp["X-X402-Mode"] == MODE
        && draws.receiptId in s'.receipts
        && s'.receipts[draws.receiptId].payer == out.stamp["X-X402-Payer"]
  {
    if !IsPreflight(req) && req.path in cfg.routePrices && ProofHeader(req) != [] {
      var proof := ParseProofHeader(ProofHeader(req), ext.b64, ext.json);
      var (s', v) := VerifySpec(s, proof, draws.now, draws.later, draws.receiptId, ext.recover);
      GateOnProof(s, req, cfg, draws, ext);
      if v.ok {
        SuccessMeansAllChecksPassed(s, proof, draws.now, draws.later, draws.receiptId, ext.recover);
        ReceiptHeadersNamed(v.receiptId, v.payer, cfg.routePrices[req.path], req.path, cfg.payTo);
      }
    }
  }

  /** The receipt headers name the receipt, the payer, the price, the path,
      the payee and the mode. */
  lemma ReceiptHeadersNamed(receiptId: string, payer: string, price: string, path: string, payTo: string)
    ensures var h := ReceiptHeaders(receiptId, payer, price, path, payTo);
      && "X-X402-Receipt" in h && h["X-X402-Receipt"] == receiptId
      && "X-X402-Payer" in h && h["X-X402-Payer"] == payer
      && "X-X402-Price" in h && h["X-X402-Price"] == price
      && "X-X402-Path" in h && h["X-X402-Path"] == path
      && "X-X402-PayTo" in h && h["X-X402-PayTo"] == payTo
      && "X-X402-Mode" in h && h["X-X402-Mode"] == MODE
  {
  }

  /** The same request carrying `raw` as its proof header. */
  function WithProof(req: Request, raw: string): (r: Request)
    ensures ProofHeader(r) == raw && r.verb == req.verb && r.path == req.path
  {
    req.(headers := req.headers[PROOF_HEADER := raw])
  }

  /** `invoice` carries the signed fields and is on record under its own id,
      unredeemed, expiring at `expiresAt`. */
  predicate Outstanding(s: StoreState, invoice: Invoice, expiresAt: int) {
    && HasSignedFields(invoice)
    && EchoedId(invoice) in s.invoices
    && s.invoices[EchoedId(invoice)] == Record(invoice, expiresAt, false)
  }

  /** Paying an outstanding invoice once: a proof that echoes the stored
      invoice, claims `payer` and carries a signature recovering to `payer` is
      forwarded with `payer` and a receipt on the response; the same proof sent
      again before the invoice expires is refused as already redeemed. */
  lemma {:induction false} PayThenReplay(s: StoreState, paid: Request, cfg: GateConfig, ext: Externals,
                                         d2: Draws, d3: Draws, invoice: Invoice, expiresAt: int,
                                         payer: string, signature: string)
    requires SignedStore(s.invoices)
    requires !IsPreflight(paid) && paid.path in cfg.routePrices && ProofHeader(paid) != []
    requires Outstanding(s, invoice, expiresAt)
    requires d2.now <= d2.later && d2.later <= d3.now && d3.now <= d3.later && d3.later <= expiresAt
    requires ParseProofHeader(ProofHeader(paid), ext.b64, ext.json) == Proof(Some(invoice), Some(payer), Some(signature))
    requires ext.recover(CanonicalMessage(invoice), signature) == Some(payer)
    ensures SignedStore(GateSpec(s, paid, cfg, d2, ext).0.invoices)
    ensures var (s2, out2) := GateSpec(s, paid, cfg, d2, ext);
      var out3 := GateSpec(s2, paid, cfg, d3, ext).1;
      && out2.Forward?
      && out2.stamp["X-X402-Payer"] == payer && out2.stamp["X-X402-Receipt"] == d2.receiptId
      && out3.Reject? && out3.reason == ALREADY_REDEEMED && out3.invoiceId == EchoedId(invoice)
  {
    var proof := Proof(Some(invoice), Some(payer), Some(signature));
    var (s2, v2) := VerifySpec(s, proof, d2.now, d2.later, d2.receiptId, ext.recover);
    assert v2.ok && v2.payer == payer by {
      assert LiveRecord(s, proof, d2.now) == Some(Record(invoice, expiresAt, false));
      RedeemDecides(s, proof, d2.now, d2.later, d2.receiptId, ext.recover);
    }
    SuccessMeansAllChecksPassed(s, proof, d2.now, d2.later, d2.receiptId, ext.recover);
    GateOnProof(s, paid, cfg, d2, ext);
    ReceiptHeadersNamed(v2.receiptId, v2.payer, cfg.routePrices[paid.path], paid.path, cfg.payTo);
    GateKeepsSigned(s, paid, cfg, d2, ext);
    NoReplay(s, proof, d2.now, d2.later, d2.receiptId, d3.now, d3.later, d3.receiptId, ext.recover);
    GateOnProof(s2, paid, cfg, d3, ext);
  }

  /** The wallet flow end to end: the invoice a challenge issues can be paid
      once, by a proof that echoes it and is signed by the claimed payer, and
      not twice, as long as both attempts come before its expiry. */
  lemma PayOnceFlow(s: StoreState, req: Request, cfg: GateConfig, ext: Externals,
                    d1: Draws, d2: Draws, d3: Draws, raw: string, payer: string, signature: string)
    requires SignedStore(s.invoices)
    requires !IsPreflight(req) && req.path in cfg.routePrices && ProofHeader(req) == [] && raw != []
    requires d1.now <= d2.now && d2.now <= d2.later && d2.later <= d3.now && d3.now <= d3.later
    requires d3.later <= d1.now + cfg.invoiceTtl
    requires GateSpec(s, req, cfg, d1, ext).1.Challenge?
    requires var invoice := GateSpec(s, req, cfg, d1, ext).1.invoice;
      && ParseProofHeader(raw, ext.b64, ext.json) == Proof(Some(invoice), Some(payer), Some(signature))
      && ext.recover(CanonicalMessage(invoice), signature) == Some(payer)
    ensures SignedStore(GateSpec(s, req, cfg, d1, ext).0.invoices)
    ensures var s1 := GateSpec(s, req, cfg, d1, ext).0;
      SignedStore(GateSpec(s1, WithProof(req, raw), cfg, d2, ext).0.invoices)
    ensures var s1 := GateSpec(s, req, cfg, d1, ext).0;
      var (s2, out2) := GateSpec(s1, WithProof(req, raw), cfg, d2, ext);
      var out3 := GateSpec(s2, WithProof(req, raw), cfg, d3, ext).1;
      && out2.Forward?
      && out2.stamp["X-X402-Payer"] == payer && out2.stamp["X-X402-Receipt"] == d2.receiptId
      && out3.Reject? && out3.reason == ALREADY_REDEEMED && out3.invoiceId == d1.invoiceId
  {
    var (s1, out1) := GateSpec(s, req, cfg, d1, ext);
    assert Outstanding(s1, out1.invoice, d1.now + cfg.invoiceTtl) by {
      ChallengeIssuesOneInvoice(s, req, cfg, d1, ext);
      assert EchoedId(out1.invoice) == d1.invoiceId;
    }
    assert SignedStore(s1.invoices) by {
      GateKeepsSigned(s, req, cfg, d1, ext);
    }
    var paid := WithProof(req, raw);
    PayThenReplay(s1, paid, cfg, ext, d2, d3, out1.invoice, d1.now + cfg.invoiceTtl, payer, signature);
  }

  /** A priced request carrying a proof is decided by the verifier alone. */
  lemma GateOnProof(s: StoreState, req: Request, cfg: GateConfig, d: Draws, ext: Externals)
    requires SignedStore(s.invoices)
    requires !IsPreflight(req) && req.path in cfg.routePrices && ProofHeader(req) != []
    ensures var (s', v) := VerifySpec(s, ParseProofHeader(ProofHeader(req), ext.b64, ext.json),
                                      d.now, d.later, d.receiptId, ext.recover);
      var price := cfg.routePrices[req.path];
      GateSpec(s, req, cfg, d, ext)
        == (s', if v.ok then Forward(ReceiptHeaders(v.receiptId, v.payer, price, req.path, cfg.payTo))
                else Reject(v.reason, v.invoiceId, PaymentHeaders(price, cfg.payTo, req.path, v.invoiceId)))
  {
  }

  /** The gate keeps every stored invoice signable. */
  lemma GateKeepsSigned(s: StoreState, req: Request, cfg: GateConfig, draws: Draws, ext: Externals)
    requires SignedStore(s.invoices)
    ensures SignedStore(GateSpec(s, req, cfg, draws, ext).0.invoices)
  {
    if !IsPreflight(req) && req.path in cfg.routePrices {
      if ProofHeader(req) != [] {
        VerifyKeepsSigned(s, ParseProofHeader(ProofHeader(req), ext.b64, ext.json),
                          draws.now, draws.later, draws.receiptId, ext.recover);
      }
    }
  }

  /** `_wallet_gate`, on the store object. */
  method WalletGate(req: Request, cfg: GateConfig, store: InMemoryStore, draws: Draws, ext: Externals)
    returns (out: Outcome)
    requires store.Valid() && SignedStore(store.invoices)
    modifies store
    ensures store.Valid() && SignedStore(store.invoices)
    ensures (store.State(), out) == GateSpec(old(store.State()), req, cfg, draws, ext)
  {
    if Upper(req.verb) == "OPTIONS" {
      return PassThrough;
    }
    if req.path !in cfg.routePrices {
      return PassThrough;
    }
    var price := cfg.routePrices[req.path];
    var raw := ProofHeader(req);
    if raw == [] {
      var invoice := IssueInvoice(req.path, price, cfg.payTo, cfg.invoiceTtl, store,
                                  draws.now, draws.invoiceId, draws.nonce, ext.iso);
      assert invoice["invoice_id"] == draws.invoiceId;
      return Challenge(invoice, PaymentHeaders(price, cfg.payTo, req.path, invoice["invoice_id"]));
    }
    var proof := ParseProofHeader(raw, ext.b64, ext.json);
    var v := VerifyProof(proof, store, draws.now, draws.later, draws.receiptId, ext.recover);
    if !v.ok {
      return Reject(v.reason, v.invoiceId, PaymentHeaders(price, cfg.payTo, req.path, v.invoiceId));
    }
    out := Forward(ReceiptHeaders(v.receiptId, v.payer, price, req.path, cfg.payTo));
  }
}
