# x402 data utilities in Dafny

This project is a Dafny model of the core of the x402 data utilities:

- **The wallet payment gate.** It stands in front of priced HTTP routes.
  - A request to a priced path with no `X-X402-Proof` header is answered 402, with a fresh signed-for invoice.
  - A request carrying a proof has it verified: the invoice must match the stored one, the signature must recover to the payer, and the invoice must not be expired or already redeemed. Only then is the handler called, and its response is stamped with a receipt.
  - The invoice store, invoice issuing, proof parsing and verification, the gate itself and the configuration loader are all modelled.
- **The mock gate.** It serves a priced route once the request carries `X-X402-Mock-Paid: true`.
- **The CSV validator.** These checks of `validate_csv_full` are modelled, in the order the validator generates them: headers, size limits, required columns, empty rows, empty cells, boolean type rules, enum rules and unique rules. So are the error count, the `valid` flag and the truncated error sample.
- **The cleaner `clean_df`.** These steps are modelled: column-name normalisation, string trimming, dropping blank rows, blank columns and named columns, dropping rows with nulls, removing negative rows and de-duplication, each with its change counters.

The modules follow the source files:

| module | file | what it holds |
|---|---|---|
| `Wrappers` | — | `Option` and `Result` |
| `Text` | — | Python's `strip`, `lower`, `upper` and `join`. The whitespace set is Python's own. Case mapping is ASCII. |
| `Store` | `backend/x402_wallet/store.py` | `InMemoryStore` as a class. Each method is specified by a step function on a `StoreState` value; traces of operations are modelled too. |
| `InvoiceIssuer` | `backend/x402_wallet/invoice.py` | `issue_invoice` and `canonical_message` |
| `Verify` | `backend/x402_wallet/verify.py` | `parse_proof_header` and `verify_proof` |
| `Gate` | `backend/x402_wallet/middleware.py` | `_wallet_gate` |
| `Config` | `backend/x402_wallet/config.py` | `load_config` over an environment map, and Python's `int()` for base-10 text |
| `MockGate` | `mock_x402.py` | `_mock_x402` |
| `Cells` | — | cell values and the rules the validator and the cleaner share: `_is_empty`, `_coerce_bool`, `to_bool`, and key equality |
| `CsvValidation` | `csv_validation.py` | the pandas-free checks of `validate_csv_full` |
| `Cleaning` | `backend/cleaning.py` | `normalize_colname` and the pandas-free steps of `clean_df` |

Some things the code reaches for lie outside the model. They enter as parameters instead:

- the clock readings;
- fresh uuid4 ids;
- base64 and JSON decoding;
- secp256k1 signature recovery (`recover(message, signature)`);
- `_iso` timestamp text;
- Python's float repr;
- `pd.to_numeric` on one string.

Two parameter bundles group them:

- `Gate.Draws` holds the clock readings and ids that one request consumes.
- `Gate.Externals` holds the decoders, the recovery and the formatter.

A data frame is a `Cells.Table`: column labels, plus rows of `Cells.Value`. A value is None, NaN, a bool, an int, a float or a string. Row labels are the positions 0, 1, 2, … of a frame read from a CSV file.

Where the code and its tests disagree, the model follows the code. For example, the tests expect price `0.03` for a route whose configured price is `0.02`; the gate copies whatever `route_prices` holds.

## Model

| member | source | states |
|---|---|---|
| Store.Pruned | backend/x402_wallet/store.py:33-36 | Pruning keeps exactly the records that have not expired (`now > expires_at` is expired) and leaves them unchanged. |
| Store.RedeemEffect | backend/x402_wallet/store.py:58-70 | Redemption succeeds iff the record exists, is unexpired and is not yet redeemed. On failure the state is untouched and the text is one of the three reasons. On success only that record's `redeemed` flag changes, exactly one receipt `(invoice_id, payer, ts)` is added under the fresh id, and that id is returned. |
| Store.RefusalOrder | backend/x402_wallet/store.py:60-66 | "Not found" is checked before "expired", which is checked before "already redeemed". Each reason is returned exactly in its own case. |
| Store.PruneInvisible | backend/x402_wallet/store.py:47-56 | Pruning at an earlier or equal time never changes what `get_invoice` returns later. |
| Store.LookupIgnoresRedeemed | backend/x402_wallet/store.py:51-56 | `get_invoice` finds a record whether or not it has been redeemed. |
| Store.SaveThenLookup | backend/x402_wallet/store.py:38-56 | After `save_invoice`, reading the id returns the fresh, unredeemed record until its expiry time, and nothing after it. |
| Store.RedeemTwice | backend/x402_wallet/store.py:58-70 | A second redemption of the same id fails. The reason is "expired" after the expiry time and "already redeemed" before it. |
| Store.AtMostOnce | backend/x402_wallet/store.py:38-70 | Over any trace of saves, reads and redemptions that never re-saves the id, at most one redemption of an id succeeds. None succeeds when the id is absent or already redeemed at the start. |
| Store.ApplyKeepsKeyed | backend/x402_wallet/store.py:41 | Every store operation keeps each record filed under its invoice's own `invoice_id`. |
| Store.InMemoryStore.constructor | backend/x402_wallet/store.py:28-31 | A new store holds no invoices and no receipts. |
| Store.InMemoryStore.Prune | backend/x402_wallet/store.py:33-36 | The invoice map becomes its pruned form and the receipts are unchanged. |
| Store.InMemoryStore.SaveInvoice | backend/x402_wallet/store.py:38-45 | Prunes at the current time, then files an unredeemed record under the invoice's id. |
| Store.InMemoryStore.GetInvoice | backend/x402_wallet/store.py:47-56 | Prunes, and returns the record only when it exists and has not expired. |
| Store.InMemoryStore.MarkRedeemed | backend/x402_wallet/store.py:58-70 | The new state and the `(ok, text)` pair are those of the redemption step that `RedeemEffect` characterises. |
| InvoiceIssuer.NewInvoice | backend/x402_wallet/invoice.py:20-31 | The new invoice carries every field the canonical message signs, under the drawn id. |
| InvoiceIssuer.IssueInvoice | backend/x402_wallet/invoice.py:18-34 | The invoice has the given path, price and payee, the fixed asset `local-usdc`, chain `local` and domain `x402-local-wallet`, and `expires_at = now + ttl`. It is saved in the store with that expiry. |
| InvoiceIssuer.IssueThenLookup | backend/x402_wallet/invoice.py:18-34 | A just-issued invoice is found, unredeemed, exactly until `now + ttl`. |
| InvoiceIssuer.SaveKeepsSigned | backend/x402_wallet/invoice.py:30-31 | Saving an issued invoice keeps every stored invoice carrying the signed fields. |
| InvoiceIssuer.CanonicalMessageDeterministic | backend/x402_wallet/invoice.py:37-46 | The message depends only on the six signed fields: `invoice_id`, `path`, `price`, `pay_to`, `nonce` and `expires_at`. |
| InvoiceIssuer.ParseCanonicalMessage | backend/x402_wallet/invoice.py:37-46 | For field values that do not contain the separator character, the message can be split back into the six signed values. |
| InvoiceIssuer.CanonicalMessageBinds | backend/x402_wallet/invoice.py:37-46 | Two invoices whose signed fields do not contain the separator character and that share a canonical message agree on all six signed fields. |
| Verify.ParseProofHeaderOrder | backend/x402_wallet/verify.py:14-22 | Base64-then-JSON is tried first, then plain JSON, then the empty document. |
| Verify.MalformedProofUntouched | backend/x402_wallet/verify.py:29-34 | A proof that lacks `invoice`, `payer` or `signature` yields "invalid proof format" with empty fields and leaves the store untouched. |
| Verify.NoLiveRecord | backend/x402_wallet/verify.py:36-39 | When no live record exists, the result is "invoice not found or expired", echoing the payer and the invoice's id. The only effect is the read's prune. |
| Verify.TamperedInvoiceRefused | backend/x402_wallet/verify.py:41-42 | An invoice that differs in any field from the stored one is refused as "invoice mismatch" before any signature check. The outcome does not depend on the recovery. |
| Verify.RecoveryFailureRefused | backend/x402_wallet/verify.py:45-49 | Once format, record and invoice check out, a signature that recovers to no address is refused as "signature recover failed". The verdict carries the claimed payer and the invoice's id, and the only effect is the read's prune. |
| Verify.PayerMismatchRefused | backend/x402_wallet/verify.py:51-52 | Once format, record and invoice check out, a recovered address that differs from the claimed payer ignoring case is refused as "payer mismatch". The verdict reports the recovered address, and the only effect is the read's prune. |
| Verify.FailureRedeemsNothing | backend/x402_wallet/verify.py:25-58 | A failed verification writes no receipt and changes the store at most by the read's prune. |
| Verify.SuccessMeansAllChecksPassed | backend/x402_wallet/verify.py:25-58 | `ok` implies all of the following: <br>• all three fields were present; <br>• the stored record was live at both clock readings and unredeemed; <br>• the proof's invoice equals the stored one; <br>• the signature recovers to the returned payer, which matches the claimed payer ignoring case; <br>• the record is now redeemed; <br>• a receipt for it is filed under the returned id. |
| Verify.RedeemDecides | backend/x402_wallet/verify.py:45-56 | Once format, record, invoice and payer all check out, the verdict is the redemption's: `ok` iff it succeeds, with its reason otherwise. The payer reported is the recovered address. |
| Verify.NoReplay | backend/x402_wallet/verify.py:54-56 | A proof accepted once is refused when presented again. The reason is "invoice not found or expired" after expiry and "invoice already redeemed" before it. |
| Verify.ExpiredNeverAccepted | backend/x402_wallet/verify.py:36-39 | An invoice expired at either clock reading is never accepted. |
| Verify.VerifyKeepsSigned | backend/x402_wallet/verify.py:25-58 | Verification keeps every stored invoice carrying the signed fields. |
| Verify.VerifyProof | backend/x402_wallet/verify.py:25-58 | Acting on the store object gives the verdict and the new state of the verification function that the lemmas above characterise. |
| Gate.Stamped | backend/x402_wallet/middleware.py:70-76 | The client sees the handler's headers, overwritten by the receipt headers the gate sets. |
| Gate.PassThroughCases | backend/x402_wallet/middleware.py:16-21 | The request passes through untouched iff its method is `OPTIONS` in any case or its path has no price. The store is then unchanged. |
| Gate.ChallengeIssuesOneInvoice | backend/x402_wallet/middleware.py:30-50 | With no proof header, the answer is a 402 carrying a new invoice for this path, price and payee. The headers carry the mode, price and invoice id. The store gains exactly that invoice, after pruning, and no receipt. |
| Gate.PaymentHeadersNamed | backend/x402_wallet/middleware.py:32-39 | The 402 headers carry the mode `wallet`, the price, the payee, the path and the invoice id. |
| Gate.RejectCarriesReason | backend/x402_wallet/middleware.py:52-67 | A failed verification is answered 402 with the verifier's reason and invoice id, plus the payment and CORS headers. No receipt is written. |
| Gate.ForwardOnlyWhenVerified | backend/x402_wallet/middleware.py:52-77 | The handler is called for a priced path iff a proof header is present and verifies. The stamped receipt, price, path, payee and mode headers then agree with the receipt filed in the store. |
| Gate.ReceiptHeadersNamed | backend/x402_wallet/middleware.py:71-76 | A served response is stamped with the receipt id, the payer, the price, the path, the payee and the mode `wallet`. |
| Gate.WithProof | backend/x402_wallet/middleware.py:23 | Adding a proof header changes only the header the gate reads, not the method or path. |
| Gate.PayThenReplay | backend/x402_wallet/middleware.py:52-77 | A valid proof for a stored, unexpired invoice is served once, stamped with the payer and the receipt. The same request replayed before expiry is rejected as "invoice already redeemed". |
| Gate.PayOnceFlow | backend/x402_wallet/middleware.py:15-77 | The whole flow: <br>• an unpaid request gets an invoice; <br>• signing that invoice and retrying within its TTL gets the handler called; <br>• retrying again gets "invoice already redeemed". |
| Gate.GateOnProof | backend/x402_wallet/middleware.py:52-77 | With a proof header, the gate's answer and new state are exactly those of parsing then verifying the proof. |
| Gate.GateKeepsSigned | backend/x402_wallet/middleware.py:15-77 | Every request keeps every stored invoice carrying the signed fields. |
| Gate.WalletGate | backend/x402_wallet/middleware.py:15-77 | Acting on the store object gives the outcome and new state of the gate function that the lemmas above characterise. |
| MockGate.MockSettledIffPaid | mock_x402.py:19-35 | Preflight and unpriced requests pass. A priced request is served iff its `x-x402-mock-paid` header is `true` in any mix of cases; an absent header counts as unpaid. |
| MockGate.MockSettledHeaders | mock_x402.py:26-35 | A paid request is stamped with the route's price, the payee, the path and both mock markers. |
| MockGate.MockUnpaidAnswer | mock_x402.py:37-61 | An unpaid priced request is answered 402 with the price, payee and path, the mock marker and the CORS headers. |
| Config.NatToString | backend/x402_wallet/config.py:19-23 | `str(n)` is non-empty decimal digits. |
| Config.NatToStringValue | backend/x402_wallet/config.py:19-23 | Reading the digits of `str(n)` gives back `n`. |
| Config.ParseIntToString | backend/x402_wallet/config.py:19-23 | `int(str(n)) == n` for every integer. |
| Config.ParseIntUnsigned | backend/x402_wallet/config.py:19-23 | A non-empty run of decimal digits parses as its value. |
| Config.ParseIntNegative | backend/x402_wallet/config.py:19-23 | A minus sign followed by decimal digits parses as the negated value. |
| Config.ParseIntBlank | backend/x402_wallet/config.py:19-23 | Whitespace-only text is not an integer. |
| Config.LoadConfigPayee | backend/x402_wallet/config.py:14-30 | Loading fails with the RuntimeError message iff `PAY_TO_ADDRESS` is absent or empty. Otherwise the payee, the Redis URL (present iff set) and the route prices are passed through. |
| Config.TtlDefault | backend/x402_wallet/config.py:19-23 | The TTL is 300 when `INVOICE_TTL_SECONDS` is absent, empty or blank. |
| Config.TtlAnyInteger | backend/x402_wallet/config.py:19-23 | Any integer written in decimal is taken as the TTL as it is, zero and negative values included. |
| Config.TtlUnparsable | backend/x402_wallet/config.py:19-23 | A value that is not an integer gives the TTL 300. |
| Cells.IsEmpty | csv_validation.py:31-38 | A cell is empty iff it is None, NaN, or a string of whitespace only. |
| Cells.StripCellKeepsEmpty | csv_validation.py:88-92 | Stripping string cells never changes which cells are empty. |
| Cells.CoerceBoolRefuses | csv_validation.py:53-66 | A cell is refused as a boolean iff it is a non-blank string whose stripped, lower-cased text is in neither word set. A refused cell reads as no value. |
| Cells.WordIdempotent | csv_validation.py:61 | Stripping and lower-casing a second time changes nothing, and keeps blankness. |
| Cells.CoercionIgnoresCaseAndSpace | csv_validation.py:60-65 | Both boolean readings of a string depend only on its stripped, lower-cased form. |
| Cells.CoercionsAgree | backend/cleaning.py:19-31 | The cleaner's `to_bool` and the validator's `_coerce_bool` give the same boolean on every cell except a non-zero float strictly between -1 and 1. |
| Cells.CoercionsDisagreeOnFractions | backend/cleaning.py:24-25 | On a float strictly between -1 and 1 other than 0, the validator reads true and the cleaner reads false (`bool(int(x))`). |
| Cells.TruncZero | backend/cleaning.py:25 | `int(x)` of a float is 0 exactly on the open interval (-1, 1). |
| Cells.IndexOf | csv_validation.py:208-213 | The position found is the first column carrying the label. |
| CsvValidation.MergeConfig | csv_validation.py:41-50 | Every key of either side is present. The override wins, except that two objects are merged one level deep with the override's inner keys winning. Base-only keys keep their value. |
| CsvValidation.StripStrings | csv_validation.py:88-92 | Same shape and labels; every cell is its stripped form when it is a string, and otherwise as it was. |
| CsvValidation.Checked | csv_validation.py:88-92 | The frame the later checks see keeps its labels, its row count and its shape. |
| CsvValidation.KeyColumns | csv_validation.py:247-250 | A unique rule's columns resolve to one valid position each. |
| CsvValidation.ReportSample | csv_validation.py:293-310 | All of the following hold: <br>• the report is valid iff no error was generated; <br>• the error count covers every error; <br>• the sample is a prefix of the errors in order, of length `limit` under Python's slicing (a negative limit counts from the end); <br>• an unset or zero limit means 200. |
| CsvValidation.MissingColumnsExact | csv_validation.py:108-111 | MISSING_COLUMN is reported for exactly the required columns that are absent, and names each one. |
| CsvValidation.EmptyRowsExact | csv_validation.py:113-122 | EMPTY_ROW is reported for row `r` iff every cell of it is NA, or empty when stripping is on. Nothing else is reported. |
| CsvValidation.EmptyRowIsEmpty | csv_validation.py:113-122 | Every reported empty row consists of empty cells only. |
| CsvValidation.EmptyCellsIgnoreStrip | csv_validation.py:124-130 | The EMPTY_CELL errors are the same whether or not whitespace was stripped first. |
| CsvValidation.RowEmptyCellsIgnoreStrip | csv_validation.py:124-130 | The same, for one row. |
| CsvValidation.FlaggedCellsExact | csv_validation.py:169-176 | A cell-by-cell column check reports row `r` iff that row's cell is flagged, and reports only its own code on its own column. |
| CsvValidation.BoolColumnExact | csv_validation.py:166-176 | A "bool" rule reports TYPE_INVALID for row `r` iff the cell is a non-blank string whose stripped, lower-cased text is in neither word set, and reports nothing else. |
| CsvValidation.EnumRuleExact | csv_validation.py:206-219 | On a present column, MISSING_REQUIRED is reported for row `r` iff the cell is empty and the rule is required. ENUM_FAIL is reported iff the cell is non-empty and equals no allowed value. Nothing else is reported. |
| CsvValidation.EnumRuleAbsentColumn | csv_validation.py:209-210 | An enum rule for an absent column adds no error. |
| CsvValidation.DuplicatesExact | csv_validation.py:254-265 | DUPLICATE_ROW is reported for row `r` iff some other row has the same key (`keep=False`). |
| CsvValidation.NeverOneDuplicate | csv_validation.py:254-257 | A unique rule never reports exactly one duplicate row. |
| CsvValidation.FlaggedRowsCounted | csv_validation.py:254-257 | A row-by-row check yields as many errors as there are flagged rows. |
| CsvValidation.EmptyRowsCounted | csv_validation.py:119-122 | There is one EMPTY_ROW error per blank row. |
| CsvValidation.RowEmptyCellsCounted | csv_validation.py:127-130 | A row yields one EMPTY_CELL error per empty cell. |
| CsvValidation.EmptyCellsCounted | csv_validation.py:127-130 | The frame yields one EMPTY_CELL error per empty cell. |
| CsvValidation.UniqueRulesCounted | csv_validation.py:254-257 | The unique rules yield one DUPLICATE_ROW error per duplicated row of each rule that applies. |
| CsvValidation.StatsCountErrors | csv_validation.py:114-257 | Each statistic counts its own errors. `empty_rows` is the number of EMPTY_ROW errors, and 0 when that check is off. `empty_cells` is the number of EMPTY_CELL errors, and 0 when that check is off. `duplicates` is the number of DUPLICATE_ROW errors over all unique rules. |
| CsvValidation.DefaultsCheckHeadersAndSize | csv_validation.py:10-28 | Under the default settings only the header and size checks can report errors. |
| CsvValidation.DefaultsCountNothing | csv_validation.py:10-28 | Under the default settings every statistic is 0 and at most 200 errors are sampled. |
| CsvValidation.CheckHeaders | csv_validation.py:95-98 | The loop yields one EMPTY_HEADER per blank label, in column order. |
| CsvValidation.CheckRequired | csv_validation.py:108-111 | The loop yields one MISSING_COLUMN per absent required column, in order. |
| CsvValidation.CheckEmptyRows | csv_validation.py:113-122 | The loop yields the EMPTY_ROW errors that `EmptyRowsExact` characterises, in row order. |
| CsvValidation.CheckEmptyCells | csv_validation.py:124-130 | The loop yields one EMPTY_CELL per empty cell, row by row, then column by column. |
| CsvValidation.CheckBoolColumn | csv_validation.py:166-176 | The loop yields the TYPE_INVALID errors that `BoolColumnExact` characterises, in row order. |
| CsvValidation.CheckTypes | csv_validation.py:137-176 | Bool rules on present columns are checked in rule order. A rule is "bool" in any case. |
| CsvValidation.CheckEnumColumn | csv_validation.py:213-219 | The loop yields the errors that `EnumRuleExact` characterises, in row order. |
| CsvValidation.CheckEnums | csv_validation.py:206-219 | Enum rules are checked in rule order, and rules for absent columns are skipped. |
| CsvValidation.CheckUniqueRule | csv_validation.py:243-265 | A rule with no columns, or one naming an absent column, adds nothing. A case-insensitive rule that names a column twice fails with AttributeError, exactly then. Otherwise the result is the errors that `DuplicatesExact` characterises, with the joined column names. |
| CsvValidation.CheckUnique | csv_validation.py:241-265 | Unique rules are checked in rule order. The check fails with AttributeError iff some rule that applies is case-insensitive and names a column twice. |
| CsvValidation.ValidateCsvFull | csv_validation.py:69-313 | Validation raises AttributeError, and returns no report, iff some unique rule that applies is case-insensitive and names a column twice. Otherwise the report is built from every error of the modelled checks in generation order, the statistics, and the truncated sample. `ReportSample` and the lemmas above say what each part holds. |
| Cleaning.SpacesToUnderscores | backend/cleaning.py:9 | Each space becomes `_`, and nothing else changes. |
| Cleaning.KeepNameChars | backend/cleaning.py:10 | Only letters, digits and `_` remain, each taken from the input. Text made of those alone is unchanged. |
| Cleaning.ReplaceDouble | backend/cleaning.py:12 | One non-overlapping pass of replacing `__` with `_` keeps the first character and shortens any text that holds `__`. |
| Cleaning.Squeeze | backend/cleaning.py:11-12 | The fixed point of the replacement loop keeps the first character and draws its characters from the input. |
| Cleaning.SqueezeReplaceDouble | backend/cleaning.py:11-12 | One pass of the loop does not change the text the loop ends with. |
| Cleaning.SqueezeFixed | backend/cleaning.py:11 | Text without `__` is left as it is. |
| Cleaning.SqueezeNoDouble | backend/cleaning.py:11-13 | The loop's result holds no `__`. |
| Cleaning.NormalizeColname | backend/cleaning.py:8-13 | The `while` loop computes the normalised name. |
| Cleaning.LoweredNoUpper | backend/cleaning.py:9 | After lower-casing and replacing spaces, no upper-case letter remains. |
| Cleaning.KeptNameChars | backend/cleaning.py:10 | After filtering, only `[a-z0-9_]` remain. |
| Cleaning.SqueezeNameChars | backend/cleaning.py:11-12 | Squeezing keeps text within `[a-z0-9_]`. |
| Cleaning.NormalizedNameShape | backend/cleaning.py:8-13 | A normalised name uses only `[a-z0-9_]` and holds no `__`. |
| Cleaning.NameCharsFixed | backend/cleaning.py:9-10 | Text within `[a-z0-9_]` passes the first three stages unchanged. |
| Cleaning.NormalizeIdempotent | backend/cleaning.py:8-13 | Normalising a normalised name changes nothing. |
| Cleaning.NormalizeHeaders | backend/cleaning.py:124-126 | Each label is replaced by its normalised name; the rows are kept. |
| Cleaning.TrimStrings | backend/cleaning.py:128-136 | Same shape and labels; every string cell is stripped and other cells are as they were. |
| Cleaning.TrimmedCellsZero | backend/cleaning.py:134 | The trimmed-cell count is 0 iff stripping changes no cell. |
| Cleaning.TrimStringsIdempotent | backend/cleaning.py:128-136 | Trimming twice changes nothing more and counts 0 the second time. |
| Cleaning.PositionsComplete | backend/cleaning.py:141 | Every selected position below the bound is listed. |
| Cleaning.PositionsAscending | backend/cleaning.py:141 | The selected positions are listed in increasing order. |
| Cleaning.RowsAtIndex | backend/cleaning.py:141 | Picking rows by a list of positions gives, at each index, the row at that position. |
| Cleaning.FilterRowsExact | backend/cleaning.py:141 | A boolean-mask `loc` keeps, in their original order, exactly the rows the mask does not drop. It loses one row per dropped row. |
| Cleaning.DropBlankRowsExact | backend/cleaning.py:138-142 | Exactly the rows whose every cell is NA or `""` are dropped. The others are kept in their original order, and the counter is the number of blank rows. |
| Cleaning.DropBlankColumnsExact | backend/cleaning.py:144-151 | A label is reported as dropped iff every column it labels is entirely NA or `""`. |
| Cleaning.RemoveColumn | backend/cleaning.py:157 | Dropping a label removes every column it labels and keeps the others. |
| Cleaning.DropNamedExact | backend/cleaning.py:153-159 | A name is reported iff it is listed and labels a column. The report lists them in the order of `drop_columns`, each once. Every listed column is gone, and every other column is kept. |
| Cleaning.DropNamedOnce | backend/cleaning.py:153-159 | No column is reported as dropped twice, even when listed twice. |
| Cleaning.DropColumns | backend/cleaning.py:153-159 | The `for` loop computes the drop that `DropNamedExact` characterises. |
| Cleaning.DropNullsExact | backend/cleaning.py:189-195 | `dropna` fails with KeyError iff a subset name is absent. Otherwise it keeps exactly the rows with no NA in the subset (all columns when the subset is empty), in their original order. The counter is the number of rows with an NA there. |
| Cleaning.RemoveCommas | backend/cleaning.py:203 | Text with the commas removed holds no comma. |
| Cleaning.RemoveNegativeRowsExact | backend/cleaning.py:197-214 | The targets are `negative_columns`, or all columns when that is empty. The step fails with AttributeError iff a target labels two columns. Otherwise exactly the rows with a negative number in a target column are removed, the others are kept in their original order, the labels are kept, and the counter is the number of negative rows. |
| Cleaning.DedupeRowsMembers | backend/cleaning.py:216-219 | De-duplication keeps only rows of the input. |
| Cleaning.DedupeDistinct | backend/cleaning.py:216-219 | No two kept rows share a key. |
| Cleaning.DedupeCovers | backend/cleaning.py:216-219 | The first row with each key is kept (`keep="first"`). |
| Cleaning.PositionsSplit | backend/cleaning.py:218 | When two masks select complementary positions, their counts add up to the number of rows. |
| Cleaning.DedupeRowsAt | backend/cleaning.py:218 | De-duplicating a prefix keeps, in order, the rows at the positions that are the first of their key. |
| Cleaning.DedupeRowsExact | backend/cleaning.py:216-219 | `keep="first"` keeps exactly the first row of each key, in the original order. The rows lost are exactly those whose key appeared earlier, which is the `deduped_rows` counter. |
| Cleaning.DedupeErrors | backend/cleaning.py:216-219 | `drop_duplicates` fails iff the frame has rows and columns and the subset is empty or names an absent column. The error is ValueError for an empty subset and KeyError otherwise. |
| Cleaning.ColumnStepsFailure | backend/cleaning.py:124-136 | The column steps fail iff trimming is on and two columns share a label, compared after normalisation when that is on. The error is AttributeError. |
| Cleaning.ColumnStepsAfterTrim | backend/cleaning.py:138-159 | Once normalisation and trimming succeed, the column steps yield the blank-row, blank-column and named-column drops of the trimmed frame, with the trim count. |
| Cleaning.CleanColumns | backend/cleaning.py:124-159 | The column-side steps run in source order, each only when its flag is set. The method stops with AttributeError exactly where `ColumnStepsFailure` says. |
| Cleaning.CleanRows | backend/cleaning.py:189-219 | The row-side steps run in source order, each only when its flag is set, with their counters. The first step that raises ends the steps with its error. |
| Cleaning.RowStepsNullsFailure | backend/cleaning.py:189-195 | When `dropna` raises, the row steps fail with its error. |
| Cleaning.RowStepsNegativeFailure | backend/cleaning.py:197-214 | When the negative-row step raises after `dropna`, the row steps fail with its error. |
| Cleaning.RowStepsDedupeFailure | backend/cleaning.py:216-219 | When `drop_duplicates` raises after the null and negative steps, the row steps fail with its error. |
| Cleaning.CleanDf | backend/cleaning.py:92-226 | The method computes the modelled cleaning. It fails with the column steps' error if they raise, and otherwise with the row steps' error if those raise. |
| Cleaning.CleanSpecFrom | backend/cleaning.py:92-226 | `clean_df` fails with the column steps' error, else with the row steps' error. Otherwise it returns the final frame with every counter taken from its step. |
| Cleaning.CleanBookkeeping | backend/cleaning.py:138-219 | Rows before minus rows after equals the sum of the four row-drop counters: empty, null, negative and de-duplicated rows. |
| Text.Strip | csv_validation.py:37 | The result has no whitespace at either end, and it is empty iff the input is all whitespace. |
| Text.StripIdempotent | csv_validation.py:92 | Stripping twice is stripping once. |
| Text.Lower | backend/cleaning.py:9 | Characters are mapped one by one, and the length is kept. |
| Text.Upper | backend/x402_wallet/middleware.py:16 | Characters are mapped one by one, and the length is kept. |
| Text.StripLowerCommute | csv_validation.py:61 | Lower-casing and stripping commute. |
| Text.LowerMatchesCaseVariants | mock_x402.py:26-27 | A string lower-cases to a lower-case word iff it is that word with any letters upper-cased. |
| Text.UpperMatchesCaseVariants | backend/x402_wallet/middleware.py:16 | A string upper-cases to an upper-case word iff it is that word with any letters lower-cased. |

## Left out

- The `RedisStore` is left out, along with the lock. The in-memory store's methods are taken as atomic steps; concurrency is not modelled.
- Signature recovery (`eth_account`), base64 and JSON decoding, `time.time()`, `uuid4()` and `_iso` are parameters. Their own behaviour is not modelled.
- A proof whose `invoice` is not a dictionary makes `invoice.get` raise outside the `try`. The model types the invoice as a string map, so this case is not represented.
- `print` lines are left out, including the production warning for a missing `REDIS_URL`.
- The FastAPI request and response objects are reduced to a method, a path and a header map.
- Case mapping, `isalnum` and `int()` digits are ASCII only; Unicode letters and digits are not modelled.
- Floats are reals: `inf` and float rounding are not modelled, and Python's float repr is a parameter.
- The validator's int and float type rules and their min/max checks (csv_validation.py:147-164) are left out because they use `pd.to_numeric`.
- Also left out from the validator:
  - regex rules (183-204), because regular expressions are not modelled;
  - date rules (221-239) and range rules (267-282);
  - the negative-number check (284-291);
  - `include_csv` (296-300, 311-312);
  - the per-column `invalid_types`, `regex_failures` and `range_failures` statistics.
- Error records keep their code, column and row, but not the message text or the offending value.
- The merged configuration is given to the checks already decoded into typed settings. The decoding of the merged JSON itself is not modelled.
- CsvValidation.ValidateCsvFull: the report covers only the modelled checks, so errors from the left-out phases are missing from its count, its `valid` flag and its sample.
- CsvValidation.ValidateCsvFull: the frame's column labels are taken to be distinct, as `pd.read_csv` makes them. With a repeated label `df[col]` is a frame, and the strip loop and the column checks would raise or behave differently; that is not modelled.
- CsvValidation.CheckTypes: a type rule is its column and its `type` text. Only "bool" rules produce errors in the model.
- The cleaner's `coerce_series` is left out except for the boolean reading `to_bool`. So are `coerce_types`, `cap_outliers_iqr` and `cap_outliers`, `parse_dates` with its ISO output, and `validate_csv_df` (cleaning.py:15-90, 161-187, 221-224). They all rest on pandas numeric and date parsing.
- Cleaning.TrimStrings: `astype("string")` also turns the non-text cells of a text column into text, and `<NA>` cells are not counted. The model leaves non-string cells as they are; dtypes are not modelled.
- Cleaning.CleanDf: `dropped_columns` after dropping blank columns comes from a Python set, in no fixed order. The model reports that set as a set, followed by the explicitly dropped columns in order.
- Cleaning.CleanDf: the `type_coercions`, `date_parses` and `outliers_capped` counters are not modelled.
- Cleaning.Dedupe: labels shared by two columns are treated like any others. Whether pandas' `drop_duplicates` raises on them is not modelled.
- Gate.WalletGate: header names are kept as written, and the receipt headers overwrite the handler's headers only under the same spelling. Starlette's header map compares names ignoring case; the model does not.
- Store.InMemoryStore.MarkRedeemed: one clock reading serves both the expiry check and the receipt's `ts`. `mark_redeemed` reads the clock again for `ts` (store.py:69).
- Store.InMemoryStore.SaveInvoice: pruning uses the time passed in, which the gate takes from the same reading that dates the invoice. `save_invoice` reads the clock again (store.py:40).
- `pd.to_numeric` on one string is a parameter of the negative-row step. A column's numeric dtype is not modelled: ints and floats keep their value, while bools and missing cells count as non-numbers.
