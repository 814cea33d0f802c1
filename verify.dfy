/** Proof parsing and verification (backend/x402_wallet/verify.py).

    Base64 and JSON decoding and the secp256k1 signature recovery are
    parameters: `b64` decodes base64 text to a UTF-8 string, `json` decodes a
    proof document, and `recover(message, signature)` gives the signer's
    address or None when recovery fails. */
module Verify {
  import opened Wrappers
  import opened Text
  import opened Store
  import opened InvoiceIssuer

  /** A decoded proof document: each field is Some when its key is present.
      `payer` already holds `str(...)` of the decoded value. */
  datatype Proof = Proof(invoice: Option<Invoice>, payer: Option<string>, signature: Option<string>)

  /** The decoding of `{}`. */
  const EMPTY_PROOF := Proof(None, None, None)

  /** The five-tuple `verify_proof` returns. */
  datatype Verdict = Verdict(ok: bool, reason: string, payer: string, invoiceId: string, receiptId: string)

  const INVALID_FORMAT := "invalid proof format"
  const NOT_FOUND_OR_EXPIRED := "invoice not found or expired"
  const INVOICE_MISMATCH := "invoice mismatch"
  const RECOVER_FAILED := "signature recover failed"
  const PAYER_MISMATCH := "payer mismatch"
  const OK := "ok"

  /** `parse_proof_header`: base64 then JSON; failing that, plain JSON;
      failing that, the empty document. */
  function ParseProofHeader(raw: string, b64: string -> Option<string>, json: string -> Option<Proof>): Proof {
    var viaBase64 := if b64(raw).Some? then json(b64(raw).value) else None;
    if viaBase64.Some? then viaBase64.value
    else if json(raw).Some? then json(raw).value
    else EMPTY_PROOF
  }

  /** The fallback order: the base64 reading wins whenever it decodes; the
      plain reading is used only when it does not; an undecodable header is
      the empty document. */
  lemma ParseProofHeaderOrder(raw: string, b64: string -> Option<string>, json: string -> Option<Proof>)
    ensures b64(raw).Some? && json(b64(raw).value).Some? ==>
              ParseProofHeader(raw, b64, json) == json(b64(raw).value).value
    ensures (b64(raw).None? || json(b64(raw).value).None?) && json(raw).Some? ==>
              ParseProofHeader(raw, b64, json) == json(raw).value
    ensures (b64(raw).None? || json(b64(raw).value).None?) && json(raw).None? ==>
              ParseProofHeader(raw, b64, json) == EMPTY_PROOF
  {
  }

  /** `invoice.get("invoice_id", "")` */
  function EchoedId(invoice: Invoice): string {
    if "invoice_id" in invoice then invoice["invoice_id"] else ""
  }

  /** `verify_proof` over a store value: the six ordered checks, the first
      failing one deciding the verdict. `nowGet` is the clock `get_invoice`
      reads and `nowRedeem` the one `mark_redeemed` reads; `rid` is the fresh
      receipt id. */
  function VerifySpec(s: StoreState, proof: Proof, nowGet: int, nowRedeem: int, rid: string,
                      recover: (string, string) -> Option<string>): (StoreState, Verdict)
    requires SignedStore(s.invoices)
  {
    if proof.invoice.None? || proof.payer.None? || proof.signature.None? then
      (s, Verdict(false, INVALID_FORMAT, "", "", ""))
    else
      var invoice, payer, signature := proof.invoice.value, proof.payer.value, proof.signature.value;
      var invoiceId := EchoedId(invoice);
      var s1 := GetStep(s, nowGet);
      var record := Lookup(s.invoices, invoiceId, nowGet);
      if record.None? then
        (s1, Verdict(false, NOT_FOUND_OR_EXPIRED, payer, invoiceId, ""))
      else if invoice != record.value.invoice then
        (s1, Verdict(false, INVOICE_MISMATCH, payer, invoiceId, ""))
      else
        var recovered := recover(CanonicalMessage(invoice), signature);
        if recovered.None? then
          (s1, Verdict(false, RECOVER_FAILED, payer, invoiceId, ""))
        else if Lower(recovered.value) != Lower(payer) then
          (s1, Verdict(false, PAYER_MISMATCH, recovered.value, invoiceId, ""))
        else
          var (s2, ok, text) := RedeemStep(s1, invoiceId, recovered.value, nowRedeem, rid);
          if !ok then (s2, Verdict(false, text, recovered.value, invoiceId, ""))
          else (s2, Verdict(true, OK, recovered.value, invoiceId, text))
  }

  /** The live stored record a proof's echoed invoice id names, if any. */
  function LiveRecord(s: StoreState, proof: Proof, nowGet: int): Option<Record>
    requires proof.invoice.Some?
  {
    Lookup(s.invoices, EchoedId(proof.invoice.value), nowGet)
  }

  /** A proof missing a field is refused as "invalid proof format" with empty
      payer and id, and the store is not touched. */
  lemma MalformedProofUntouched(s: StoreState, proof: Proof, nowGet: int, nowRedeem: int, rid: string,
                                recover: (string, string) -> Option<string>)
    requires SignedStore(s.invoices)
    requires proof.invoice.None? || proof.payer.None? || proof.signature.None?
    ensures VerifySpec(s, proof, nowGet, nowRedeem, rid, recover) == (s, Verdict(false, INVALID_FORMAT, "", "", ""))
  {
  }

  /** With no live record for the echoed id the verdict is "invoice not
      found or expired", carrying the claimed payer and the echoed id, and the
      read's prune is the only change. */
  lemma NoLiveRecord(s: StoreState, proof: Proof, nowGet: int, nowRedeem: int, rid: string,
                     recover: (string, string) -> Option<string>)
    requires SignedStore(s.invoices)
    requires proof.invoice.Some? && proof.payer.Some? && proof.signature.Some?
    requires LiveRecord(s, proof, nowGet).None?
    ensures VerifySpec(s, proof, nowGet, nowRedeem, rid, recover)
         == (GetStep(s, nowGet), Verdict(false, NOT_FOUND_OR_EXPIRED, proof.payer.value, EchoedId(proof.invoice.value), ""))
  {
  }

  /** Tamper check: an echoed invoice that differs from the stored one in any
      way (an altered value or an added key) is refused as "invoice mismatch",
      whatever the signature and whatever signature recovery would say. */
  lemma TamperedInvoiceRefused(s: StoreState, proof: Proof, nowGet: int, nowRedeem: int, rid: string,
                               recover1: (string, string) -> Option<string>, recover2: (string, string) -> Option<string>)
    requires SignedStore(s.invoices)
    requires proof.invoice.Some? && proof.payer.Some? && proof.signature.Some?
    requires LiveRecord(s, proof, nowGet).Some? && proof.invoice.value != LiveRecord(s, proof, nowGet).value.invoice
    ensures VerifySpec(s, proof, nowGet, nowRedeem, rid, recover1).1.reason == INVOICE_MISMATCH
    ensures VerifySpec(s, proof, nowGet, nowRedeem, rid, recover1) == VerifySpec(s, proof, nowGet, nowRedeem, rid, recover2)
  {
  }

  /** Once format, record and invoice check out, a signature that recovers
      to no address is refused as "signature recover failed", carrying the
      claimed payer; only the read's prune has happened. */
  lemma RecoveryFailureRefused(s: StoreState, proof: Proof, nowGet: int, nowRedeem: int, rid: string,
                               recover: (string, string) -> Option<string>)
    requires SignedStore(s.invoices)
    requires proof.invoice.Some? && proof.payer.Some? && proof.signature.Some?
    requires LiveRecord(s, proof, nowGet).Some? && proof.invoice.value == LiveRecord(s, proof, nowGet).value.invoice
    requires recover(CanonicalMessage(proof.invoice.value), proof.signature.value).None?
    ensures VerifySpec(s, proof, nowGet, nowRedeem, rid, recover)
         == (GetStep(s, nowGet), Verdict(false, RECOVER_FAILED, proof.payer.value, EchoedId(proof.invoice.value), ""))
  {
  }

  /** Once format, record and invoice check out, a signature that recovers
      to an address other than the claimed payer (ignoring case) is refused
      as "payer mismatch", and the verdict reports the recovered address;
      only the read's prune has happened. */
  lemma PayerMismatchRefused(s: StoreState, proof: Proof, nowGet: int, nowRedeem: int, rid: string,
                             recover: (string, string) -> Option<string>, recovered: string)
    requires SignedStore(s.invoices)
    requires proof.invoice.Some? && proof.payer.Some? && proof.signature.Some?
    requires LiveRecord(s, proof, nowGet).Some? && proof.invoice.value == LiveRecord(s, proof, nowGet).value.invoice
    requires recover(CanonicalMessage(proof.invoice.value), proof.signature.value) == Some(recovered)
    requires Lower(recovered) != Lower(proof.payer.value)
    ensures VerifySpec(s, proof, nowGet, nowRedeem, rid, recover)
         == (GetStep(s, nowGet), Verdict(false, PAYER_MISMATCH, recovered, EchoedId(proof.invoice.value), ""))
  {
  }

  /** Any failure leaves every record's `redeemed` flag and every receipt as
      they were: the only change a failed verification can make is the prune. */
  lemma FailureRedeemsNothing(s: StoreState, proof: Proof, nowGet: int, nowRedeem: int, rid: string,
                              recover: (string, string) -> Option<string>)
    requires SignedStore(s.invoices)
    requires !VerifySpec(s, proof, nowGet, nowRedeem, rid, recover).1.ok
    ensures var s' := VerifySpec(s, proof, nowGet, nowRedeem, rid, recover).0;
      && s'.receipts == s.receipts
      && (s' == s || s' == GetStep(s, nowGet))
  {
  }

  /** Success means every check passed: the echoed invoice is the live stored
      one, the signature over its canonical message recovers an address equal
      to the claimed payer up to case, that address is the payer reported and
      recorded on the receipt, and the store's receipt id is returned. */
  lemma SuccessMeansAllChecksPassed(s: StoreState, proof: Proof, nowGet: int, nowRedeem: int, rid: string,
                                    recover: (string, string) -> Option<string>)
    requires SignedStore(s.invoices)
    requires VerifySpec(s, proof, nowGet, nowRedeem, rid, recover).1.ok
    ensures var (s', v) := VerifySpec(s, proof, nowGet, nowRedeem, rid, recover);
      && proof.invoice.Some? && proof.payer.Some? && proof.signature.Some?
      && var id := EchoedId(proof.invoice.value);
         && v.invoiceId == id && v.reason == OK && v.receiptId == rid
         && id in s.invoices && s.invoices[id].invoice == proof.invoice.value
         && !Expired(s.invoices[id], nowGet) && !Expired(s.invoices[id], nowRedeem)
         && !s.invoices[id].redeemed
         && recover(CanonicalMessage(proof.invoice.value), proof.signature.value) == Some(v.payer)
         && Lower(v.payer) == Lower(proof.payer.value)
         && s'.invoices[id].redeemed
         && rid in s'.receipts && s'.receipts[rid] == Receipt(id, v.payer, nowRedeem)
  {
  }

  /** When every check before redemption passes, `mark_redeemed` decides:
      its refusal reason is passed through unchanged, and success follows
      exactly when it does not refuse. */
  lemma RedeemDecides(s: StoreState, proof: Proof, nowGet: int, nowRedeem: int, rid: string,
                      recover: (string, string) -> Option<string>)
    requires SignedStore(s.invoices)
    requires proof.invoice.Some? && proof.payer.Some? && proof.signature.Some?
    requires LiveRecord(s, proof, nowGet).Some? && proof.invoice.value == LiveRecord(s, proof, nowGet).value.invoice
    requires var r := recover(CanonicalMessage(proof.invoice.value), proof.signature.value);
             r.Some? && Lower(r.value) == Lower(proof.payer.value)
    ensures var v := VerifySpec(s, proof, nowGet, nowRedeem, rid, recover).1;
      var refusal := Refusal(GetStep(s, nowGet).invoices, EchoedId(proof.invoice.value), nowRedeem);
      && (v.ok <==> refusal.None?)
      && (refusal.Some? ==> v.reason == refusal.value)
      && v.payer == recover(CanonicalMessage(proof.invoice.value), proof.signature.value).value
  {
  }

  /** No replay: once a proof has been accepted, submitting it again is
      refused, as "invoice already redeemed" while the invoice is live and as
      "invoice not found or expired" once it is past its expiry. */
  lemma {:induction false} NoReplay(s: StoreState, proof: Proof, g1: int, r1: int, rid1: string,
                                    g2: int, r2: int, rid2: string, recover: (string, string) -> Option<string>)
    requires SignedStore(s.invoices)
    requires VerifySpec(s, proof, g1, r1, rid1, recover).1.ok
    ensures SignedStore(VerifySpec(s, proof, g1, r1, rid1, recover).0.invoices)
    ensures var s1 := VerifySpec(s, proof, g1, r1, rid1, recover).0;
      var v2 := VerifySpec(s1, proof, g2, r2, rid2, recover).1;
      var expiresAt := s.invoices[EchoedId(proof.invoice.value)].expiresAt;
      && !v2.ok && v2.invoiceId == EchoedId(proof.invoice.value)
      && (g2 > expiresAt ==> v2.reason == NOT_FOUND_OR_EXPIRED)
      && (g2 <= expiresAt && r2 <= expiresAt ==> v2.reason == ALREADY_REDEEMED)
  {
    SuccessMeansAllChecksPassed(s, proof, g1, r1, rid1, recover);
  }

  /** An invoice past its expiry is never accepted, whatever the signature. */
  lemma ExpiredNeverAccepted(s: StoreState, proof: Proof, nowGet: int, nowRedeem: int, rid: string,
                             recover: (string, string) -> Option<string>)
    requires SignedStore(s.invoices)
    requires proof.invoice.Some?
    requires var id := EchoedId(proof.invoice.value);
             id in s.invoices && (Expired(s.invoices[id], nowGet) || Expired(s.invoices[id], nowRedeem))
    ensures !VerifySpec(s, proof, nowGet, nowRedeem, rid, recover).1.ok
  {
  }

  /** The pruning, flagging and receipt steps keep every stored invoice signable. */
  lemma VerifyKeepsSigned(s: StoreState, proof: Proof, nowGet: int, nowRedeem: int, rid: string,
                          recover: (string, string) -> Option<string>)
    requires SignedStore(s.invoices)
    ensures SignedStore(VerifySpec(s, proof, nowGet, nowRedeem, rid, recover).0.invoices)
  {
  }

  /** `verify_proof`, on the store object. */
  method VerifyProof(proof: Proof, store: InMemoryStore, nowGet: int, nowRedeem: int, rid: string,
                     recover: (string, string) -> Option<string>)
    returns (v: Verdict)
    requires store.Valid() && SignedStore(store.invoices)
    modifies store
    ensures store.Valid() && SignedStore(store.invoices)
    ensures (store.State(), v) == VerifySpec(old(store.State()), proof, nowGet, nowRedeem, rid, recover)
  {
    if proof.invoice.None? || proof.payer.None? || proof.signature.None? {
      return Verdict(false, INVALID_FORMAT, "", "", "");
    }
    var invoice, payer, signature := proof.invoice.value, proof.payer.value, proof.signature.value;
    var invoiceId := EchoedId(invoice);
    var record := store.GetInvoice(invoiceId, nowGet);
    if record.None? {
      return Verdict(false, NOT_FOUND_OR_EXPIRED, payer, invoiceId, "");
    }
    if invoice != record.value.invoice {
      return Verdict(false, INVOICE_MISMATCH, payer, invoiceId, "");
    }
    var msg := CanonicalMessage(invoice);
    var recovered := recover(msg, signature);
    if recovered.None? {
      return Verdict(false, RECOVER_FAILED, payer, invoiceId, "");
    }
    if Lower(recovered.value) != Lower(payer) {
      return Verdict(false, PAYER_MISMATCH, recovered.value, invoiceId, "");
    }
    var ok, receiptOrReason := store.MarkRedeemed(invoiceId, recovered.value, nowRedeem, rid);
    if !ok {
      return Verdict(false, receiptOrReason, recovered.value, invoiceId, "");
    }
    v := Verdict(true, OK, recovered.value, invoiceId, receiptOrReason);
  }
}
