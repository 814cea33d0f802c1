/** Invoice issuing and the canonical signable message
    (backend/x402_wallet/invoice.py). The clock, the two uuid4 values and the
    `_iso` timestamp formatting are parameters. */
module InvoiceIssuer {
  import opened Wrappers
  import opened Text
  import opened Store

  const DEFAULT_ASSET := "local-usdc"
  const DEFAULT_CHAIN := "local"
  const DEFAULT_DOMAIN := "x402-local-wallet"

  /** The labels of the six signed fields, in the message's fixed order. */
  const LABELS: seq<string> := ["invoice_id=", "path=", "price=", "pay_to=", "nonce=", "expires_at="]

  /** The fields `canonical_message` reads; any other key (issued_at, asset,
      chain, domain, or one a client adds) plays no part in the message. */
  predicate HasSignedFields(inv: Invoice) {
    "invoice_id" in inv && "path" in inv && "price" in inv &&
    "pay_to" in inv && "nonce" in inv && "expires_at" in inv
  }

  function SignedValues(inv: Invoice): seq<string>
    requires HasSignedFields(inv)
  {
    [inv["invoice_id"], inv["path"], inv["price"], inv["pay_to"], inv["nonce"], inv["expires_at"]]
  }

  /** Every stored invoice carries the signed fields (true of every invoice
      `issue_invoice` saves). */
  predicate SignedStore(m: map<string, Record>) {
    forall id :: id in m ==> HasSignedFields(m[id].invoice)
  }

  /** `canonical_message`: the constant domain, then the six signed fields as
      `label=value`, joined by `|`. The invoice's own `domain` field is not read. */
  function CanonicalMessage(inv: Invoice): string
    requires HasSignedFields(inv)
  {
    Join(MessageParts(inv), '|')
  }

  /** The seven `|`-separated parts of a canonical message, in their fixed order. */
  function MessageParts(inv: Invoice): seq<string>
    requires HasSignedFields(inv)
  {
    [DEFAULT_DOMAIN,
     "invoice_id=" + inv["invoice_id"], "path=" + inv["path"], "price=" + inv["price"],
     "pay_to=" + inv["pay_to"], "nonce=" + inv["nonce"], "expires_at=" + inv["expires_at"]]
  }

  /** Determinism: the message depends on the six signed fields only. */
  lemma CanonicalMessageDeterministic(a: Invoice, b: Invoice)
    requires HasSignedFields(a) && HasSignedFields(b)
    requires SignedValues(a) == SignedValues(b)
    ensures CanonicalMessage(a) == CanonicalMessage(b)
  {
    assert a["path"] == SignedValues(a)[1] && a["price"] == SignedValues(a)[2];
  }

  // ---------------------------------------------------------------------------
  // Reading the message back

  /** Reads the six signed values back out of a message, or None when the
      message does not have the canonical shape. */
  function ParseCanonical(msg: string): Option<seq<string>> {
    var parts := Split(msg, '|');
    if |parts| == 7 && parts[0] == DEFAULT_DOMAIN &&
       forall k :: 1 <= k < 7 ==> |LABELS[k - 1]| <= |parts[k]| && parts[k][..|LABELS[k - 1]|] == LABELS[k - 1]
    then Some(seq(6, k requires 0 <= k < 6 => parts[k + 1][|LABELS[k]|..]))
    else None
  }

  predicate PipeFree(inv: Invoice)
    requires HasSignedFields(inv)
  {
    forall k :: 0 <= k < 6 ==> '|' !in SignedValues(inv)[k]
  }

  /** Round trip: when no signed value holds a `|`, the signed values can be
      read back from the canonical message. */
  lemma ParseCanonicalMessage(inv: Invoice)
    requires HasSignedFields(inv) && PipeFree(inv)
    ensures ParseCanonical(CanonicalMessage(inv)) == Some(SignedValues(inv))
  {
    var p := MessageParts(inv);
    var v := SignedValues(inv);
    MessagePartsLabelled(inv);
    SplitJoin(p, '|');
    var parts := Split(CanonicalMessage(inv), '|');
    assert parts == p;
    forall k | 1 <= k < 7
      ensures |LABELS[k - 1]| <= |parts[k]| && parts[k][..|LABELS[k - 1]|] == LABELS[k - 1]
      ensures parts[k][|LABELS[k - 1]|..] == v[k - 1]
    {
      assert parts[k] == LABELS[k - 1] + v[k - 1];
    }
    var read := seq(6, k requires 0 <= k < 6 => parts[k + 1][|LABELS[k]|..]);
    assert read == v;
  }

  /** Each part after the domain is a label followed by its value, and no
      part holds a `|` when no value does. */
  lemma MessagePartsLabelled(inv: Invoice)
    requires HasSignedFields(inv) && PipeFree(inv)
    ensures var p := MessageParts(inv);
      && |p| == 7 && p[0] == DEFAULT_DOMAIN
      && (forall k :: 1 <= k < 7 ==> p[k] == LABELS[k - 1] + SignedValues(inv)[k - 1])
      && (forall k :: 0 <= k < 7 ==> '|' !in p[k])
  {
    var p := MessageParts(inv);
    var v := SignedValues(inv);
    forall k | 1 <= k < 7 ensures p[k] == LABELS[k - 1] + v[k - 1] && '|' !in p[k] {
      assert '|' !in LABELS[k - 1] && '|' !in v[k - 1];
    }
  }

  /** The message binds the signed fields: two `|`-free invoices with the same
      message agree on all six of them. */
  lemma CanonicalMessageBinds(a: Invoice, b: Invoice)
    requires HasSignedFields(a) && PipeFree(a)
    requires HasSignedFields(b) && PipeFree(b)
    requires CanonicalMessage(a) == CanonicalMessage(b)
    ensures SignedValues(a) == SignedValues(b)
  {
    ParseCanonicalMessage(a);
    ParseCanonicalMessage(b);
  }

  // ---------------------------------------------------------------------------
  // Issuing

  /** The dictionary `issue_invoice` builds. */
  function NewInvoice(invoiceId: string, path: string, price: string, payTo: string, nonce: string,
                      issuedAt: string, expiresAt: string): (inv: Invoice)
    ensures HasSignedFields(inv) && inv["invoice_id"] == invoiceId
  {
    map["invoice_id" := invoiceId, "path" := path, "price" := price, "pay_to" := payTo,
        "nonce" := nonce, "issued_at" := issuedAt, "expires_at" := expiresAt,
        "asset" := DEFAULT_ASSET, "chain" := DEFAULT_CHAIN, "domain" := DEFAULT_DOMAIN]
  }

  /** The invoice holds the values it was built from under their own keys. */
  lemma NewInvoiceFields(invoiceId: string, path: string, price: string, payTo: string, nonce: string,
                         issuedAt: string, expiresAt: string)
    ensures var inv := NewInvoice(invoiceId, path, price, payTo, nonce, issuedAt, expiresAt);
      && inv["path"] == path && inv["price"] == price && inv["pay_to"] == payTo
      && inv["nonce"] == nonce && inv["expires_at"] == expiresAt
  {
  }

  /** `issue_invoice`: builds the invoice (copying path, price and payee, with
      the module's asset, chain and domain), and saves it with expiry
      `now + ttlSeconds`. */
  method IssueInvoice(path: string, price: string, payTo: string, ttlSeconds: int, store: InMemoryStore,
                      now: int, invoiceId: string, nonce: string, iso: int -> string)
    returns (invoice: Invoice)
    requires store.Valid()
    modifies store
    ensures store.Valid()
    ensures invoice == NewInvoice(invoiceId, path, price, payTo, nonce, iso(now), iso(now + ttlSeconds))
    ensures invoice["path"] == path && invoice["price"] == price && invoice["pay_to"] == payTo
    ensures invoice["asset"] == DEFAULT_ASSET && invoice["chain"] == DEFAULT_CHAIN && invoice["domain"] == DEFAULT_DOMAIN
    ensures store.State() == SaveStep(old(store.State()), invoice, now + ttlSeconds, now)
    ensures SignedStore(old(store.invoices)) ==> SignedStore(store.invoices)
  {
    var expiresAtTs := now + ttlSeconds;
    invoice := NewInvoice(invoiceId, path, price, payTo, nonce, iso(now), iso(expiresAtTs));
    store.SaveInvoice(invoice, expiresAtTs, now);
  }

  /** After issuing, reading the id back gives a record holding exactly the
      returned invoice, until the expiry time inclusive, and nothing after. */
  lemma IssueThenLookup(s: StoreState, invoice: Invoice, now: int, ttlSeconds: int, readTime: int)
    requires "invoice_id" in invoice
    ensures var s' := SaveStep(s, invoice, now + ttlSeconds, now);
      var r := Lookup(s'.invoices, invoice["invoice_id"], readTime);
      (r.Some? <==> readTime <= now + ttlSeconds) &&
      (r.Some? ==> r.value.invoice == invoice && !r.value.redeemed)
  {
    SaveThenLookup(s, invoice, now + ttlSeconds, now, readTime);
  }

  /** Saving an invoice that carries the signed fields keeps every stored
      invoice signable. */
  lemma SaveKeepsSigned(s: StoreState, invoice: Invoice, expiresAt: int, now: int)
    requires SignedStore(s.invoices) && HasSignedFields(invoice)
    ensures SignedStore(SaveStep(s, invoice, expiresAt, now).invoices)
  {
  }
}
