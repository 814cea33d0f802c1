/** The in-memory invoice store (backend/x402_wallet/store.py, InMemoryStore).

    A record wraps an invoice with its expiry time and a `redeemed` flag; the
    store holds records keyed by invoice id and receipts keyed by receipt id.
    `mark_redeemed` is the only transition from issued to redeemed. The clock
    and the fresh receipt id are parameters; the lock is read as "each method
    is one atomic step". */
module Store {
  import opened Wrappers

  /** An invoice as the Python code holds it: a dictionary of string fields. */
  type Invoice = map<string, string>

  datatype Record = Record(invoice: Invoice, expiresAt: int, redeemed: bool)
  datatype Receipt = Receipt(invoiceId: string, payer: string, ts: int)

  /** The whole state of a store, as a value. */
  datatype StoreState = StoreState(invoices: map<string, Record>, receipts: map<string, Receipt>)

  const NOT_FOUND := "invoice not found"
  const EXPIRED := "invoice expired"
  const ALREADY_REDEEMED := "invoice already redeemed"

  /** Both the prune and the reads use a strict `>`: a record is still live at
      `now == expiresAt`. */
  predicate Expired(r: Record, now: int) {
    now > r.expiresAt
  }

  /** The ids `_prune` collects before popping them. */
  function ExpiredIds(m: map<string, Record>, now: int): set<string> {
    set id | id in m && Expired(m[id], now)
  }

  /** The invoice map after `_prune(now)`. */
  function Pruned(m: map<string, Record>, now: int): (r: map<string, Record>)
    ensures forall id :: id in r <==> id in m && !Expired(m[id], now)
    ensures forall id :: id in r ==> r[id] == m[id]
  {
    m - ExpiredIds(m, now)
  }

  /** What `get_invoice(id)` returns at time `now`, as if nothing had ever been pruned. */
  function Lookup(m: map<string, Record>, id: string, now: int): Option<Record> {
    if id in m && !Expired(m[id], now) then Some(m[id]) else None
  }

  /** The reason `mark_redeemed` refuses, checked in the source's order, or
      None when it would succeed. */
  function Refusal(m: map<string, Record>, id: string, now: int): Option<string> {
    if id !in m then Some(NOT_FOUND)
    else if Expired(m[id], now) then Some(EXPIRED)
    else if m[id].redeemed then Some(ALREADY_REDEEMED)
    else None
  }

  /** Every record is filed under its own invoice's id, as `save_invoice` files it. */
  predicate KeyedById(m: map<string, Record>) {
    forall id :: id in m ==> "invoice_id" in m[id].invoice && m[id].invoice["invoice_id"] == id
  }

  // ---------------------------------------------------------------------------
  // The store as a state machine over values

  function SaveStep(s: StoreState, invoice: Invoice, expiresAt: int, now: int): StoreState
    requires "invoice_id" in invoice
  {
    StoreState(Pruned(s.invoices, now)[invoice["invoice_id"] := Record(invoice, expiresAt, false)], s.receipts)
  }

  /** Saving prunes, then files the invoice under its id; receipts are untouched. */
  lemma SaveStepShape(s: StoreState, invoice: Invoice, expiresAt: int, now: int)
    requires "invoice_id" in invoice
    ensures var s' := SaveStep(s, invoice, expiresAt, now);
      && (forall id :: id in s'.invoices <==> id in Pruned(s.invoices, now) || id == invoice["invoice_id"])
      && s'.invoices[invoice["invoice_id"]] == Record(invoice, expiresAt, false)
      && s'.receipts == s.receipts
  {
  }

  /** The state after `get_invoice` at time `now`: only the prune changes it. */
  function GetStep(s: StoreState, now: int): StoreState {
    StoreState(Pruned(s.invoices, now), s.receipts)
  }

  /** `mark_redeemed(id, payer)` at time `now` with fresh receipt id `rid`:
      the new state, `ok`, and the receipt id or the refusal reason. */
  function RedeemStep(s: StoreState, id: string, payer: string, now: int, rid: string): (StoreState, bool, string) {
    match Refusal(s.invoices, id, now)
    case Some(reason) => (s, false, reason)
    case None =>
      (StoreState(s.invoices[id := s.invoices[id].(redeemed := true)],
                  s.receipts[rid := Receipt(id, payer, now)]),
       true, rid)
  }

  /** A successful redemption flags that one record, adds exactly one receipt
      (when the receipt id is fresh) naming the invoice and payer, and changes
      nothing else; a refusal changes nothing at all. */
  lemma RedeemEffect(s: StoreState, id: string, payer: string, now: int, rid: string)
    ensures var (s', ok, text) := RedeemStep(s, id, payer, now, rid);
      && (ok <==> id in s.invoices && !Expired(s.invoices[id], now) && !s.invoices[id].redeemed)
      && (!ok ==> s' == s && text in {NOT_FOUND, EXPIRED, ALREADY_REDEEMED})
      && (ok ==>
            && text == rid
            && s'.invoices.Keys == s.invoices.Keys
            && s'.invoices[id].redeemed && s'.invoices[id].invoice == s.invoices[id].invoice
            && s'.invoices[id].expiresAt == s.invoices[id].expiresAt
            && (forall other :: other in s.invoices && other != id ==> s'.invoices[other] == s.invoices[other])
            && s'.receipts.Keys == s.receipts.Keys + {rid}
            && s'.receipts[rid] == Receipt(id, payer, now)
            && (forall r :: r in s.receipts && r != rid ==> s'.receipts[r] == s.receipts[r])
            && (rid !in s.receipts ==> |s'.receipts| == |s.receipts| + 1))
  {
  }

  /** The refusal reasons come in the source's order: a missing record is
      reported before expiry, and expiry before a previous redemption. */
  lemma RefusalOrder(m: map<string, Record>, id: string, now: int)
    ensures Refusal(m, id, now) == Some(NOT_FOUND) <==> id !in m
    ensures Refusal(m, id, now) == Some(EXPIRED) <==> id in m && Expired(m[id], now)
    ensures Refusal(m, id, now) == Some(ALREADY_REDEEMED) <==> id in m && !Expired(m[id], now) && m[id].redeemed
  {
  }

  /** Pruning is invisible: pruning at any time no later than a read never
      changes what the read returns. */
  lemma PruneInvisible(m: map<string, Record>, pruneTime: int, readTime: int, id: string)
    requires pruneTime <= readTime
    ensures Lookup(Pruned(m, pruneTime), id, readTime) == Lookup(m, id, readTime)
  {
  }

  /** `get_invoice` ignores the `redeemed` flag. */
  lemma LookupIgnoresRedeemed(m: map<string, Record>, id: string, now: int)
    requires id in m
    ensures Lookup(m[id := m[id].(redeemed := true)], id, now).Some? == Lookup(m, id, now).Some?
  {
  }

  /** After a save, the record reads back (unredeemed, holding that invoice)
      exactly until its expiry time, inclusive. */
  lemma SaveThenLookup(s: StoreState, invoice: Invoice, expiresAt: int, now: int, readTime: int)
    requires "invoice_id" in invoice
    ensures Lookup(SaveStep(s, invoice, expiresAt, now).invoices, invoice["invoice_id"], readTime)
         == if readTime <= expiresAt then Some(Record(invoice, expiresAt, false)) else None
  {
  }

  /** At-most-once: once a redemption succeeds, every later redemption of the
      same id is refused, as already redeemed while the record is live. */
  lemma RedeemTwice(s: StoreState, id: string, p1: string, t1: int, r1: string, p2: string, t2: int, r2: string)
    requires RedeemStep(s, id, p1, t1, r1).1
    ensures var s1 := RedeemStep(s, id, p1, t1, r1).0;
      && !RedeemStep(s1, id, p2, t2, r2).1
      && RedeemStep(s1, id, p2, t2, r2).2 == (if t2 > s.invoices[id].expiresAt then EXPIRED else ALREADY_REDEEMED)
  {
  }

  // ---------------------------------------------------------------------------
  // Traces: every store operation, in any order

  datatype Op =
    | SaveOp(invoice: Invoice, expiresAt: int, now: int)
    | GetOp(id: string, now: int)
    | RedeemOp(id: string, payer: string, now: int, rid: string)

  predicate WellFormedOp(op: Op) {
    op.SaveOp? ==> "invoice_id" in op.invoice
  }

  /** No operation of the trace saves a new invoice under `id`. */
  predicate NoResave(ops: seq<Op>, id: string) {
    forall k :: 0 <= k < |ops| ==> WellFormedOp(ops[k]) && !(ops[k].SaveOp? && ops[k].invoice["invoice_id"] == id)
  }

  function Apply(s: StoreState, op: Op): StoreState
    requires WellFormedOp(op)
  {
    match op
    case SaveOp(inv, e, now) => SaveStep(s, inv, e, now)
    case GetOp(_, now) => GetStep(s, now)
    case RedeemOp(id, payer, now, rid) => RedeemStep(s, id, payer, now, rid).0
  }

  /** How many operations of the trace redeem `id` successfully. */
  function Successes(s: StoreState, ops: seq<Op>, id: string): nat
    requires forall k :: 0 <= k < |ops| ==> WellFormedOp(ops[k])
    decreases |ops|
  {
    if ops == [] then 0
    else
      var won := ops[0].RedeemOp? && ops[0].id == id && RedeemStep(s, id, ops[0].payer, ops[0].now, ops[0].rid).1;
      (if won then 1 else 0) + Successes(Apply(s, ops[0]), ops[1..], id)
  }

  /** The record for `id` can still be redeemed at some time. */
  predicate Redeemable(s: StoreState, id: string) {
    id in s.invoices && !s.invoices[id].redeemed
  }

  /** At-most-once redemption over any sequence of saves, reads and
      redemptions that never re-issues the id: at most one redemption of
      `id` succeeds, and none does once it was redeemed or removed. */
  lemma {:induction false} AtMostOnce(s: StoreState, ops: seq<Op>, id: string)
    requires NoResave(ops, id)
    ensures Successes(s, ops, id) <= if Redeemable(s, id) then 1 else 0
    decreases |ops|
  {
    if ops != [] {
      var s' := Apply(s, ops[0]);
      assert NoResave(ops[1..], id) by {
        forall k | 0 <= k < |ops[1..]|
          ensures WellFormedOp(ops[1..][k]) && !(ops[1..][k].SaveOp? && ops[1..][k].invoice["invoice_id"] == id)
        {
          assert ops[1..][k] == ops[k + 1];
        }
      }
      AtMostOnce(s', ops[1..], id);
      assert WellFormedOp(ops[0]) && !(ops[0].SaveOp? && ops[0].invoice["invoice_id"] == id);
      match ops[0]
      case SaveOp(inv, e, now) =>
        assert Redeemable(s', id) ==> Redeemable(s, id);
      case GetOp(_, now) =>
        assert Redeemable(s', id) ==> Redeemable(s, id);
      case RedeemOp(rid0, payer, now, rid) =>
        if rid0 == id && RedeemStep(s, id, payer, now, rid).1 {
          assert !Redeemable(s', id);
        } else {
          assert Redeemable(s', id) ==> Redeemable(s, id);
        }
    }
  }

  /** Every operation keeps records filed under their own invoice ids. */
  lemma ApplyKeepsKeyed(s: StoreState, op: Op)
    requires WellFormedOp(op) && KeyedById(s.invoices)
    ensures KeyedById(Apply(s, op).invoices)
  {
  }

  // ---------------------------------------------------------------------------
  // The store object

  class InMemoryStore {
    var invoices: map<string, Record>
    var receipts: map<string, Receipt>

    ghost predicate Valid()
      reads this
    {
      KeyedById(invoices)
    }

    function State(): StoreState
      reads this
    {
      StoreState(invoices, receipts)
    }

    constructor ()
      ensures Valid()
      ensures invoices == map[] && receipts == map[]
    {
      invoices := map[];
      receipts := map[];
    }

    /** `_prune(now)`: collect the expired ids, then pop them one by one. */
    method Prune(now: int)
      requires Valid()
      modifies this
      ensures Valid()
      ensures invoices == Pruned(old(invoices), now)
      ensures receipts == old(receipts)
    {
      var expired := ExpiredIds(invoices, now);
      ghost var all := expired;
      while expired != {}
        invariant expired <= all
        invariant invoices == old(invoices) - (all - expired)
        invariant receipts == old(receipts)
        decreases expired
      {
        var id :| id in expired;
        invoices := invoices - {id};
        expired := expired - {id};
        assert all - expired == (all - (expired + {id})) + {id};
      }
    }

    /** `save_invoice`: prune, then file a fresh unredeemed record under the
        invoice's id, overwriting any record with that id. */
    method SaveInvoice(invoice: Invoice, expiresAt: int, now: int)
      requires Valid()
      requires "invoice_id" in invoice
      modifies this
      ensures Valid()
      ensures State() == SaveStep(old(State()), invoice, expiresAt, now)
    {
      Prune(now);
      invoices := invoices[invoice["invoice_id"] := Record(invoice, expiresAt, false)];
    }

    /** `get_invoice`: prune, look the id up, and re-check expiry. The answer is
        the record exactly when it is present and not expired; pruning changes
        nothing a read can see. */
    method GetInvoice(id: string, now: int) returns (r: Option<Record>)
      requires Valid()
      modifies this
      ensures Valid()
      ensures State() == GetStep(old(State()), now)
      ensures r == Lookup(old(invoices), id, now)
    {
      Prune(now);
      if id !in invoices {
        return None;
      }
      var rec := invoices[id];
      if now > rec.expiresAt {
        return None;
      }
      r := Some(rec);
    }

    /** `mark_redeemed`: refuse with "invoice not found", "invoice expired" or
        "invoice already redeemed", in that order; otherwise flag the record,
        add the receipt and return its id. */
    method MarkRedeemed(id: string, payer: string, now: int, rid: string) returns (ok: bool, text: string)
      requires Valid()
      modifies this
      ensures Valid()
      ensures (State(), ok, text) == RedeemStep(old(State()), id, payer, now, rid)
    {
      if id !in invoices {
        return false, NOT_FOUND;
      }
      var rec := invoices[id];
      if now > rec.expiresAt {
        return false, EXPIRED;
      }
      if rec.redeemed {
        return false, ALREADY_REDEEMED;
      }
      invoices := invoices[id := rec.(redeemed := true)];
      receipts := receipts[rid := Receipt(id, payer, now)];
      ok, text := true, rid;
    }
  }
}
