# StampPad protocol core, verified in Dafny

This project models the deterministic core of StampPad, which turns a burn of tokens on Solana into a stamp on Zcash
and lets stamps change hands: the replays that derive issuance, accepted inscriptions and ownership from chain data;
the listing workflow of the demo settlement adapter with its escrow; the construction of the commit/reveal pair that
writes a stamp (coin selection, fees, v5 serialization, the ZIP 244 digests, the envelope and redeem script, streaming
BLAKE2b); and the arithmetic underneath (secp256k1 recovery and signing, base58, bech32m, the launch curve).

Run `dafny verify dfyconfig.toml` in this directory.

## Layout

| files | content |
|---|---|
| Bytes, Text, Types, Ordering, Sums | byte strings, decimal text, shared records, the stable sort, totals |
| Transfer, ArtifactRules | transfer records, and what their artifacts commit to |
| Ownership, OwnershipSafety, OwnershipRules, OwnershipReplay, OwnershipOrder | the ownership replay |
| DemoChain, Settlement, SettlementRuns, SettlementRules | the escrow chain, the listing workflow, and runs of it |
| SettlementReplay, SettlementLog, SettlementTables, SettlementResale | what the replay makes of the records those runs publish |
| SolanaBurns, Inscriptions, InscriptionRules, Eligibility, BurnEvidence | burns and which inscriptions count |
| Intent, Issuance, Ledger, LedgerRules, IssuanceEvidence, LedgerEvidence | burn intents, validation and the ledger |
| Transaction, TransactionCodec, TransactionRoundTrip, TransactionReader, TransactionWriter | the v5 format |
| DigestTree, Zip244, Zip244Binding | transaction ids and signature digests |
| Fees, FeeRule, Inscribe, InscribeSafety, Envelope, Spends | building the commit/reveal pair, and spending it |
| Modular, Primes, Groups, Secp256k1, CurveLaw, Sign, KeyRecovery, CompactSignatures | keys and signatures |
| Blake2b, Base58, Bech32m, LaunchLab | other arithmetic |

Loops and objects of the source are methods and classes here; each is proved to compute a specification function, and
the properties are proved of that function.

## What the statements rest on

- SHA-256, HASH160, BLAKE2b compression, owner-signature verification, UTF-8, JSON and address validation are
  parameters. Where binding is claimed, the hypothesis is that the hash separates the finitely many inputs it is
  actually given, which a 32-byte hash can satisfy.
- `Secp256k1.SoundCurve` states the mathematics: p and n are prime and the curve points with the source's addition are
  an abelian group of order n. `CurveLaw.AssociativeIsSound` proves it from primality, associativity and the order; that
  the formulas stay on the curve, commute and give the third intersection is proved. Recovery also needs p = 3 modulo 4
  and p <= 2 n, which the constants meet (`KeyRecovery.ConstantsFit`).
- CHECKSIG in `Spends` is the source's own verifier over its own digest; the script machine has the opcodes these
  scripts use.
- Runs of the listing workflow assume fresh listing ids (UUIDs) and that truncated escrow ids do not collide. Where they
  are read back by the indexer, the chain's height does not fall, the hash tells the artifacts apart, and gifts replace no
  row of the transfer table (src/lib/market.ts refuses one while the stamp has a live listing).
- Plain objects keyed by text are maps. Amounts that the source keeps as decimal text are digit strings.

## Findings

- The redeem script's eight drops fit only bodies of 241 to 480 bytes: a shorter body underflows the script's stack and
  a longer one leaves items behind (`Envelope.RevealBalance`); the comment in src/lib/zcash/script.ts promises more.
- `conflicting_transfer` is documented in docs/PROTOCOL.md but never reported; the code answers with the wrong-sequence
  reason (`OwnershipSafety.NeverConflictingTransfer`).
- The ordering of src/lib/modules/settlement.ts (lines 14 to 18; docs/PROTOCOL.md section 22) does not give the buyer a
  valid authorization before money is at risk: no step looks at bound offers, a cancelled or expired listing's offer
  stays on chain, and it binds the sequence the stamp is listed at again. `SettlementResale.BuyerPaysSellerKeeps` is such
  a run; `SettlementReplay.SaleSettlesIff` and `SettlementLog.RunSaleSettlesIff` say exactly when a sale settles, a
  condition on the ledger that can be read before payment is locked.
- The artifact hash leaves the owner public key out, so replay determinism needs artifacts that share a hash to agree
  (`OwnershipOrder.ArtifactOrderFreeIff`, `OwnershipOrder.ArtifactOrderCanMatter`).
- The claim check reads a transaction id as a boolean, so an empty id does not claim its burn
  (`InscriptionRules.EmptyTxidClaimsTwice`; `InscriptionRules.OneStampPerBurnIff` for the exact condition).
- Base58 of n zero bytes has one digit too many and decodes to n + 2 bytes (`Base58.DecodeEncoded`).
- A ledger row can record an output that is not the one whose amount was checked (`LedgerRules.RecordedIsChecked`,
  `LedgerRules.LowFirstRecorded`).
- The reason a claim is pending can depend on the order publications are listed in (`LedgerRules.ReasonOrderFreeIff`).

## Model

| member | source | states |
|---|---|---|
| `Ownership.RecordsFromPublications` | src/lib/protocol/ownership.ts:89-110 | the records read out of the chain, in canonical order; OwnershipOrder shows the order is total on distinct outputs |
| `Ownership.ResolveOwnership` | src/lib/protocol/ownership.ts:112-249 | the replay loop computes `Resolution`, the state the safety and order lemmas are about |
| `Ownership.ApplyRecord` | src/lib/protocol/ownership.ts:139-235 | one turn of the loop: the first check that fails decides between rejected and pending, otherwise the offer or transfer branch runs |
| `Ownership.ApplyOffer` | src/lib/protocol/ownership.ts:169-201 | a settled offer is bound only if its artifact is known, it passes the check and nothing is bound at its sequence |
| `Ownership.ApplyTransfer` | src/lib/protocol/ownership.ts:203-235 | a settled transfer moves the stamp, and adds a sale row exactly when an offer is bound at its sequence |
| `Ownership.Decide` | src/lib/protocol/ownership.ts:139-235 | a record binds an offer or moves a stamp only if it is confirmed, at the next sequence, and signed by the current owner; a move under a bound offer names it, goes to its buyer and opens its hash lock |
| `OwnershipSafety.StepSafe` | src/lib/protocol/ownership.ts:139-249 | every turn of the loop keeps every chain authorized and unbroken and the sales exact |
| `OwnershipSafety.ResolutionSafe` | src/lib/protocol/ownership.ts:112-249 | for all records and artifacts: sequences are 1..n, each move starts at the previous owner (the original recipient first) and is signed by them in a confirmed record, at most one offer is bound per sequence, and the sales are exactly the moves at bound sequences at the bound offer's price, seller and buyer |
| `OwnershipSafety.AlwaysContiguous` | src/lib/indexer/index.ts:70-73 | the indexer's contiguity flag is true of every resolution |
| `OwnershipSafety.MoveCommitted` | src/lib/protocol/ownership.ts:255-325 | the artifact behind every move hashes to the commitment on chain, and where an offer is bound at the move it names that offer, pays its buyer and opens its hash lock |
| `OwnershipSafety.NeverConflictingTransfer` | src/lib/protocol/ownership.ts:255-325 | no run ever reports `conflicting_transfer`: the late one of two transfers is refused for its sequence |
| `OwnershipOrder.OrderFree` | src/lib/protocol/ownership.ts:83-87 | two validators with the same records and artifacts in any two orders compute the same state, given distinct outputs and that artifacts sharing a hash agree |
| `OwnershipOrder.ArtifactOrderFreeIff` | src/lib/protocol/ownership.ts:126-133 | replays from every state over all records are independent of the order of the artifact lists if and only if authorizations sharing a hash agree in stamp, sequence, whether they are signed and, if they are, in all a move uses, and offers sharing a hash agree in stamp, sequence and whether they are signed, and are equal if they are |
| `OwnershipOrder.UnreachedNeverMatters` | src/lib/protocol/ownership.ts:126-133 | why from every state: where no stamp can make a first move, later authorizations sharing a hash may disagree without any order showing in a resolution |
| `OwnershipOrder.ArtifactOrderCanMatter` | src/lib/protocol/transfer.ts:97-107 | after any resolution, at any sequence: the owner's next authorization published under two keys, one of which verifies, moves the stamp or leaves it depending on the order of the artifact list |
| `OwnershipReplay.AppendOnly` | src/lib/protocol/ownership.ts:112-249 | records that sort after all existing ones extend every history and every list and change nothing already there; offers bind only ahead of the history |
| `OwnershipReplay.StampLocal` | src/lib/protocol/ownership.ts:112-249 | what is concluded about a stamp depends only on the records that name it |
| `OwnershipReplay.EveryRecordAccounted` | src/lib/protocol/ownership.ts:139-235 | each record of a known stamp becomes exactly one of: a move, a bound offer, a pending row, a rejection |
| `OwnershipRules.HistoryIsMoves` | src/lib/protocol/ownership.ts:139-325 | in every replay a stamp's history is the list of the records that moved it: ripe, committing to the owner's signed authorization for its next sequence, and going by the offer bound there, or by none |
| `OwnershipRules.BindsIff` | src/lib/protocol/ownership.ts:169-363 | a record binds an offer if and only if it is ripe, commits to the owner's signed offer for its stamp and next sequence, and no other is bound there |
| `OwnershipRules.WaitsIff` | src/lib/protocol/ownership.ts:157-215 | a record waits if and only if it is not deep enough or its artifact is unknown |
| `Transfer.WriteRecord` | src/lib/protocol/transfer.ts:109-129 | the 74-byte record, written field by field into a buffer |
| `Transfer.DecodeEncodedRecord` | src/lib/protocol/transfer.ts:109-154 | a record with canonical fields reads back as itself |
| `Transfer.RecordCodec` | src/lib/protocol/transfer.ts:131-154 | a payload decodes to r if and only if r is canonical and encodes to that payload |
| `ArtifactRules.TransferPreimageBinds` | src/lib/protocol/transfer.ts:63-77 | what an owner signs determines every field of the authorization but the key and the signature, where no field has a line feed |
| `ArtifactRules.OfferPreimageBinds` | src/lib/protocol/transfer.ts:79-95 | the same of an offer |
| `ArtifactRules.KindsNeverMeet` | src/lib/protocol/transfer.ts:63-95 | no text is the preimage of both an authorization and an offer, whatever the fields hold |
| `ArtifactRules.TransferHashBinds` | src/lib/protocol/transfer.ts:97-107 | where the hash separates them, two authorizations have one hash if and only if they differ in nothing but the key |
| `ArtifactRules.OfferHashBinds` | src/lib/protocol/transfer.ts:97-107 | the same of offers |
| `ArtifactRules.ReadInPlace` | src/lib/protocol/ownership.ts:83-110 | the replay reads by height, then transaction id, then place in the transaction, each record once |
| `DemoChain.DemoZcashChain.PublishDemoRecord` | src/lib/zcash/demo.ts:87-125 | publishes one transaction with the record and any notice, or changes nothing |
| `DemoChain.DemoZcashChain.LockDemoHtlc` | src/lib/zcash/demo.ts:127-155 | opens an escrow for the amount at the next height |
| `DemoChain.DemoZcashChain.ClaimDemoHtlc` | src/lib/zcash/demo.ts:157-169 | claims a locked escrow with a preimage of its lock, or changes nothing |
| `DemoChain.DemoZcashChain.RefundDemoHtlc` | src/lib/zcash/demo.ts:171-180 | refunds a locked escrow after its timeout, or changes nothing |
| `SettlementRuns.EscrowFinal` | src/lib/zcash/demo.ts:127-180 | from any point of a run to its end an escrow keeps its terms, is claimed only against a preimage of its lock, and once claimed or refunded never changes again |
| `SettlementRules.RefundedInTime` | src/lib/zcash/demo.ts:171-180 | for every escrow a run leaves refunded there is a refund call in it that found the escrow locked, with these terms, at or past its expiry height |
| `Settlement.DemoSettlementAdapter.List` | src/lib/modules/settlement.ts:87-137 | a new listing, refused where the source throws; a refused call changes nothing |
| `Settlement.DemoSettlementAdapter.Reserve` | src/lib/modules/settlement.ts:139-162 | buyer and hash lock are set on a listed row |
| `Settlement.DemoSettlementAdapter.PublishOffer` | src/lib/modules/settlement.ts:170-204 | the signed offer is stored and its record published |
| `Settlement.DemoSettlementAdapter.Authorize` | src/lib/modules/settlement.ts:212-234 | the seller's signed authorization is stored, nothing is published |
| `Settlement.DemoSettlementAdapter.LockPayment` | src/lib/modules/settlement.ts:236-258 | the buyer's money goes into an escrow of exactly the price |
| `Settlement.DemoSettlementAdapter.PublishTransfer` | src/lib/modules/settlement.ts:260-291 | the authorization's record is published and its artifact stored |
| `Settlement.DemoSettlementAdapter.ClaimPayment` | src/lib/modules/settlement.ts:293-299 | the seller claims the escrow with the stored preimage |
| `Settlement.DemoSettlementAdapter.Cancel` | src/lib/modules/settlement.ts:301-310 | cancels a listing in every state but payment_locked and transfer_published, settled and expired ones included; refuses those two |
| `Settlement.DemoSettlementAdapter.ReconcileListings` | src/lib/market.ts:62-84 | settles delivered live rows and expires unpaid ones past their height; visits them in any order |
| `SettlementRuns.PerformKeeps` | src/lib/modules/settlement.ts:87-333 | every action keeps the invariant of the market |
| `SettlementRuns.RunKeeps` | src/lib/modules/settlement.ts:87-333 | every run keeps the invariant |
| `SettlementRuns.MarketSafe` | src/lib/modules/settlement.ts:87-333 | in every state a run from an empty market reaches, each row's artifacts fit its terms and are signed, each escrow holds exactly the price under the listing's lock, no stamp has two live listings |
| `SettlementRuns.ClosedForever` | src/lib/modules/settlement.ts:301-371 | a listing settled, cancelled or expired at some point of a run is never live again |
| `SettlementRuns.SellerCanClaim` | src/lib/zcash/demo.ts:157-169 | while an escrow is locked the listing's preimage opens it, so the claim succeeds |
| `SettlementRules.RecordedKeysFit` | src/lib/modules/settlement.ts:87-162 | in every run the keys on record are those of the parties on record, and the seller may authorize |
| `SettlementRules.OfferPublishedIff` | src/lib/modules/settlement.ts:170-204 | exactly when an offer is published: a reserved row, a seller who may authorize and signed the row's terms, a recordable stamp, 25,000 zatoshi |
| `SettlementRules.AuthorizedIff` | src/lib/modules/settlement.ts:212-234 | exactly when an authorization is stored |
| `SettlementRules.TransferPublishedIff` | src/lib/modules/settlement.ts:260-291 | exactly when a delivery is published, the notice's 10,000 zatoshi included |
| `SettlementRules.ReconciledIff` | src/lib/market.ts:62-84 | reconciled against any resolution a live listing settles if and only if the ledger's event at its sequence delivered to its buyer; otherwise it expires if and only if nothing is paid in and its height has passed; otherwise it stays |
| `SettlementReplay.PublishedReadsBack` | src/lib/protocol/ownership.ts:89-110 | the transaction a record is published in reads back as that one record |
| `SettlementReplay.OfferAccepted` | src/lib/protocol/ownership.ts:327-363 | what the workflow publishes as an offer passes the replay's check of the seller's unmoved stamp |
| `SettlementReplay.AuthorizationAcceptedIff` | src/lib/protocol/ownership.ts:255-325 | the stored authorization passes the replay's check if and only if the stamp has not moved since it was listed and the listing's own offer is the one bound |
| `SettlementReplay.SaleSettlesIff` | src/lib/modules/settlement.ts:236-333 | with the listing's two records confirmed among any others, and its stamp by then at the listed sequence (or its offer's record not repeated), its sale is booked if and only if before its offer's record the stamp stood where it was listed, with its seller and no other offer bound, or the sale was made already |
| `SettlementReplay.PaidForNothing` | src/lib/modules/settlement.ts:14-18 | otherwise the seller can still claim the locked payment, and no further records ever book the sale |
| `SettlementReplay.BookedSettles` | src/lib/market.ts:62-84 | a booked sale closes its listing at the next reconciliation |
| `SettlementLog.RunLogged` | src/lib/modules/settlement.ts:164-291 | every row's published artifacts are in the run's log of transactions, the offer's before the transfer's, at rising heights |
| `SettlementLog.RunSaleSettlesIff` | src/lib/indexer/index.ts:88-103 | from any run on an empty market through reading its transactions back to the resolution: when the sale of a listing that published its transfer is booked |
| `SettlementTables.RunTable` | src/lib/modules/settlement.ts:260-291 | in every state a run reaches, a listing that published its transfer has a row in the transfer table, and every listing's row there holds that listing's authorization |
| `SettlementTables.TablesSaleSettlesIff` | src/lib/indexer/index.ts:88-103 | the same for an indexer that reads its artifacts from the listing and transfer tables of the run |
| `SettlementRules.TransferIdsTell` | src/lib/modules/settlement.ts:272-274 | two listings share a row of the transfer table if and only if they deliver the same stamp at the same sequence |
| `SettlementResale.BuyerPaysSellerKeeps` | src/lib/modules/settlement.ts:14-18 | a run in which the buyer pays against a verified authorization and the seller claims the price, while the ledger rejects both records of the listing, because the offer of an earlier, cancelled listing is bound |
| `SettlementResale.SamplePlausible` | src/lib/modules/settlement.ts:14-18 | a wallet, hash and parties with which that run takes place |
| `SolanaBurns.DecodeBurns` | src/lib/solana/rpc.ts:114-154 | one record per mint burned, in mint order |
| `SolanaBurns.OneRecordPerMint` | src/lib/solana/rpc.ts:114-154 | exactly one record per mint, for exactly the sum of that mint's burn instructions, inner ones included |
| `BurnEvidence.RecordsHaveEvidence` | src/lib/solana/rpc.ts:49-154 | a record's amount is all that the transaction and what it invokes burn of the mint, its authority that of the first such burn, its memos the memos of either program, each with exactly the signing keys |
| `BurnEvidence.BurnerChoseRecipient` | src/lib/inscriptions.ts:202-214 | from an accepted stamp back to a finalized, successful transaction with the cited signature that burned exactly its units, carries a memo which is its recipient and nothing but blanks, and was signed by the burning authority |
| `Inscriptions.IndexInscriptions` | src/lib/inscriptions.ts:124-248 | the claiming loop over the canonical order computes `Index` |
| `Inscriptions.ClaimInOrder` | src/lib/inscriptions.ts:148-240 | the loop that updates claims, supply and the three lists |
| `Inscriptions.Judge` | src/lib/inscriptions.ts:149-223 | the checks on one inscription, short of who came first |
| `Eligibility.EligibleIff` | src/lib/inscriptions.ts:108-222 | an inscription is eligible if and only if its hex names a script that decodes, its protocol is indexed, it is deep enough, the first listed burn with its signature and mint is finalized, succeeded, is of the amount and has a memo that trims to the recipient and is signed by its authority, and its outputs to the recipient total more than zero |
| `Eligibility.AcceptedExactly` | src/lib/inscriptions.ts:119-248 | given that first claims count, a stamp is accepted if and only if some inscription qualifies for it and none lower on the chain, or in its block with a smaller id, qualifies for the same burn |
| `Eligibility.ClaimsRecorded` | src/lib/inscriptions.ts:226-248 | the published record of claims names, for exactly the burns accepted stamps cite, the last such stamp |
| `Inscriptions.SupplyEqualsBurns` | src/lib/inscriptions.ts:254-267 | the self-check answers whether every published supply is the decimal of the burned units |
| `InscriptionRules.AcceptedIff` | src/lib/inscriptions.ts:124-240 | where first claims count, an inscription is accepted if and only if it passes every check of its own and no earlier one that does cites its burn |
| `InscriptionRules.OneStampPerBurnIff` | src/lib/inscriptions.ts:225-240 | no burn backs two stamps if and only if, for every burn, the canonically first eligible inscription citing it has a transaction id or is the only one |
| `InscriptionRules.OneStampPerBurn` | src/lib/inscriptions.ts:225-240 | in particular with non-empty transaction ids |
| `InscriptionRules.EmptyTxidClaimsTwice` | src/lib/inscriptions.ts:225-226 | an input on which an empty transaction id leaves its burn open: both stamps are accepted, and ten units are published where five were burned |
| `InscriptionRules.OrderFree` | src/lib/inscriptions.ts:119-148 | permuting inscriptions and burns changes nothing |
| `InscriptionRules.TipOnlyAppends` | src/lib/inscriptions.ts:161-165 | raising the tip only appends to the accepted list |
| `InscriptionRules.SupplyAlwaysMatches` | src/lib/inscriptions.ts:254-267 | the self-check is true of every index |
| `InscriptionRules.NoInflation` | src/lib/inscriptions.ts:124-248 | where first claims count, accepted units of a mint never exceed the finalized, successful units burned |
| `InscriptionRules.SupplyBackedByTransactions` | src/lib/inscriptions.ts:124-267 | end to end from the instructions of the burn transactions to the published supply |
| `Issuance.FindBurn` | src/lib/protocol/validate.ts:35-56 | the first supported burn instruction |
| `Issuance.CollectIntents` | src/lib/protocol/validate.ts:58-66 | the intents of the memo instructions, in order |
| `Ledger.RebuildLedger` | src/lib/protocol/ledger.ts:32-127 | the rebuild loop computes `FinalState`, sorts the accepted rows and totals them: each mint with rows has the decimal of exactly their sum |
| `IssuanceEvidence.PassedIff` | src/lib/protocol/validate.ts:35-195 | a transaction passes if and only if it is final, successful and of the source network, its first burn is of its own mint and program with agreeing decimals, a positive amount and only allowed extensions, the burned account is the mint's, not frozen, and its owner or a delegate for as much signed, and its one intent is for that mint, amount and network with a valid destination; and then with exactly those fields |
| `LedgerEvidence.LedgerExactly` | src/lib/protocol/ledger.ts:32-127 | with signatures that tell transactions apart: every row stands on such a transaction and on the valid publication with the smallest id, and an issuance has a row if and only if some transaction issues it and some publication carries it |
| `LedgerEvidence.PublicationIff` | src/lib/protocol/validate.ts:198-237 | a publication is valid if and only if its first tagged output carries the commitment, some output pays the destination 10,000 zatoshi, and it is deep enough on the right chain |
| `LedgerEvidence.WaitsIff` | src/lib/protocol/ledger.ts:83-93 | a claim waits for confirmations if and only if the first listed publication naming its commitment anywhere is not deep enough |
| `LedgerEvidence.MissingIntentIff` | src/lib/protocol/ledger.ts:43-53 | the missing-intent reason is given if and only if no memo is an intent for the network or nothing is burned |
| `LedgerEvidence.LedgerOrders` | src/lib/protocol/ledger.ts:26-127 | transactions are read by slot and signature; rows are listed by transaction and place in it |
| `Ledger.SumUnits` | src/lib/protocol/ledger.ts:118-123 | the totals loop over decimal texts |
| `LedgerRules.OneRowPerEvent` | src/lib/protocol/ledger.ts:38-111 | no burn event has two accepted rows |
| `LedgerRules.EventIdInjective` | src/lib/protocol/ledger.ts:69-77 | event ids of one network are equal only for the same transaction and locator, so only a real duplicate is turned away |
| `LedgerRules.PreimageInjective` | src/lib/protocol/encoding.ts:28-46 | the canonical preimage determines every field when no field has a line feed |
| `LedgerRules.OneRowPerPublication` | src/lib/protocol/ledger.ts:77-111 | no publication backs two accepted rows, if the hash tells their preimages apart, transaction ids are unique and the free-text fields have no line feed |
| `LedgerRules.UnitsBacked` | src/lib/protocol/ledger.ts:118-123 | accepted units of a mint are at most the finalized, successful units burned |
| `LedgerRules.OrderFree` | src/lib/protocol/ledger.ts:26-127 | permuting transactions and publications changes neither the accepted rows nor the rejected ones |
| `LedgerRules.ReasonOrderFreeIff` | src/lib/protocol/ledger.ts:83-95 | a claim is pending for the same reason in every order of the publications if and only if those mentioning its commitment are all settled or all not |
| `LedgerRules.ReasonsOrderFree` | src/lib/protocol/ledger.ts:26-127 | where that holds of every claim the pending rows are the same too |
| `LedgerRules.RecordedIsChecked` | src/lib/protocol/validate.ts:219-267 | the recorded output index is the checked output's if and only if the first output to the destination pays 10,000 zatoshi |
| `LedgerRules.LowFirstRecorded` | src/lib/protocol/validate.ts:219-267 | for every claim, a valid publication whose row records output 0, which failed the check |
| `TransactionRoundTrip.ParseAfterSerialize` | src/lib/zcash/transaction.ts:271-472 | every well-formed transaction reads back as itself, empty bundles as none and an unshared anchor as none |
| `TransactionRoundTrip.SerializationInjective` | src/lib/zcash/transaction.ts:271-283 | two well-formed transactions with the same bytes are the same up to that |
| `TransactionRoundTrip.ParsedOk` | src/lib/zcash/transaction.ts:423-472 | whatever parses is well formed |
| `TransactionRoundTrip.SerializeAfterParseIff` | src/lib/zcash/transaction.ts:148-157 | accepted bytes re-serialize to themselves if and only if every CompactSize in them is minimal |
| `TransactionReader.Reader.Take` | src/lib/zcash/transaction.ts:302-311 | moves the cursor over n bytes or fails |
| `TransactionReader.Reader.CompactSize` | src/lib/zcash/transaction.ts:327-339 | every width is accepted, values above 2^53 - 1 are not |
| `TransactionReader.Reader.Repeat` | src/lib/zcash/transaction.ts:345-349 | reads the same length count times |
| `TransactionReader.Reader.Sapling` | src/lib/zcash/transaction.ts:359-390 | the Sapling bundle at the cursor |
| `TransactionReader.Reader.Orchard` | src/lib/zcash/transaction.ts:392-416 | the Orchard bundle at the cursor |
| `TransactionReader.ParseTransaction` | src/lib/zcash/transaction.ts:423-472 | the cursor parser computes the parsing function the round trips are about |
| `TransactionWriter.SerializeTransaction` | src/lib/zcash/transaction.ts:271-283 | the part-pushing serializer computes the serializing function |
| `TransactionCodec.TxidRoundTrip` | src/lib/zcash/transaction.ts:186-195 | a displayed id survives the way to internal bytes and back |
| `TransactionCodec.CompactSizeForms` | src/lib/zcash/transaction.ts:148-157 | the shortest of the four forms of a length |
| `DigestTree.TreeBinding` | src/lib/zcash/zip244.ts:93-241 | equal root digests of two trees split at the same places force equal trees, if the hash separates the inputs the two trees hash |
| `Zip244.TxidIsTree` | src/lib/zcash/zip244.ts:93-241 | the id is the root of its hash tree |
| `Zip244.SighashIsTree` | src/lib/zcash/zip244.ts:359-425 | so is what an input signs |
| `Zip244Binding.TxidBinds` | src/lib/zcash/zip244.ts:231-241 | two well-formed transactions have the same id if and only if they have the same branch, lock time, expiry, prevouts, sequences, outputs and shielded effects |
| `Zip244Binding.SighashBinds` | src/lib/zcash/zip244.ts:359-425 | two signature digests are equal if and only if hash type, outputs, signed coin (with its amount and script), header and shielded effects agree, and without ANYONECANPAY all coins too |
| `Zip244Binding.SighashDefined` | src/lib/zcash/zip244.ts:359-408 | a digest exists exactly for the types that commit to all outputs, and one of the transparent part exactly for those that commit to all, none or one |
| `Zip244Binding.TransparentSighashBinds` | src/lib/zcash/zip244.ts:324-394 | of every defined type, two transparent digests are equal if and only if they commit to the same outputs (all, the one at the input's index, or none), coin and, without ANYONECANPAY, coins |
| `Zip244Binding.RootCall` | src/lib/zcash/zip244.ts:415-425 | ids and signature digests are made under the twelve letters and the branch's four bytes, over four digests |
| `Zip244Binding.SighashIsNoTxid` | src/lib/zcash/zip244.ts:400-425 | no signature digest is a transaction id |
| `Fees.EncodedSizes` | src/lib/zcash/fees.ts:44-51 | the sizes the fee counts are the lengths the serializer writes |
| `Fees.FeeMonotone` | src/lib/zcash/fees.ts:65-78 | shorter scriptSigs never need a higher fee |
| `FeeRule.RequiredFeeIsConventional` | src/lib/zcash/fees.ts:39-79 | the fee is 5000 times the least n >= 2 with 150 n at least the bytes of the serialized inputs and 34 n at least those of the serialized outputs |
| `FeeRule.SignedCommitPaysRule` | src/lib/zcash/inscribe.ts:192-370 | signed by the signer, what the commit's coins hold beyond its outputs is at least that fee of its final bytes |
| `FeeRule.SignedRevealPaysRule` | src/lib/zcash/inscribe.ts:111-341 | and so for the reveal |
| `Inscribe.SelectCoins` | src/lib/zcash/inscribe.ts:192-243 | the selection loop computes `Fund` |
| `Inscribe.SelectAndBuild` | src/lib/zcash/inscribe.ts:192-270 | the funding transaction, or insufficient funds, or a refusal |
| `InscribeSafety.GreedyIsOptimal` | src/lib/zcash/inscribe.ts:192-243 | if any choice of coins can pay, the largest coins can with no more of them; so insufficient funds is reported only when no choice can pay |
| `InscribeSafety.FundedIsAChoice` | src/lib/zcash/inscribe.ts:200-234 | what is spent is one such choice |
| `InscribeSafety.CommitConserves` | src/lib/zcash/inscribe.ts:205-266 | coins equal outputs plus fee, the first output is the stamp's, change is absent or at least 546, and the fee is at most 545 above the one it was sized for |
| `InscribeSafety.SignedCommitFee` | src/lib/zcash/inscribe.ts:343-370 | with compressed keys and signatures of up to 72 bytes the signed commit needs no more than the fee it was sized for |
| `InscribeSafety.SignerPaysCommitFee` | src/lib/zcash/inscribe.ts:343-370 | signed with the signer's own signatures of its digests, the commit finalizes and pays at least the conventional fee of its final size |
| `InscribeSafety.SignedRevealFee` | src/lib/zcash/inscribe.ts:111-148 | the second transaction's fee covers it once signed, and such a signature always fits |
| `InscribeSafety.SignerPaysRevealFee` | src/lib/zcash/inscribe.ts:313-341 | signed with the signer's own signature, so does the second transaction |
| `InscribeSafety.DigestsIgnoreScriptSigs` | src/lib/zcash/inscribe.ts:313-370 | for every hash, filling in scriptSigs changes neither the id nor any signature digest |
| `InscribeSafety.FinalizingKeepsDigests` | src/lib/zcash/inscribe.ts:313-370 | so finalizing either transaction leaves its id and every signature digest as they were |
| `InscribeSafety.StampPair` | src/lib/zcash/inscribe.ts:383-411 | the second transaction spends output 0 of the signed commit for exactly its value and script, and the coins are the change, both fees and the dust |
| `Spends.StampSpends` | src/lib/zcash/inscribe.ts:111-411 | for every plan, built stamp and finalized reveal: output 0 of the commit is 0xa9, 20, h, 0x87, and the reveal's scriptSig against the h in those bytes leaves exactly one true value if and only if the body is 241 to 480 bytes and the signature checks; its body reads back if and only if it has one |
| `Spends.SignedRevealSpendsIff` | src/lib/zcash/inscribe.ts:319-341 | with the signer's own signature, checked by the verifier against the finished transaction's digest: it opens output 0 if and only if the body is 241 to 480 bytes |
| `Spends.SignedCommitSpends` | src/lib/zcash/inscribe.ts:343-370 | where the coins are P2PKH outputs of the signer's key, every input of the commit it signed runs to one true value, each signature checked against the finished transaction's own digest |
| `Spends.SpendKeyIff` | src/lib/zcash/script.ts:62-69 | a key's script accepts exactly its own key with a signature that checks |
| `Spends.CommitBuilt` | src/lib/zcash/inscribe.ts:192-270 | the built commit is a v5 transaction for the branch at its expiry, past the tip, unlocked and final, spending the largest coins each by its own outpoint |
| `Spends.CommitBuiltIff` | src/lib/zcash/inscribe.ts:192-270 | too few coins is reported if and only if no choice of them can pay; a commit is built if and only if one can, the expiry fits and the coins taken, the fewest largest that pay, are readable |
| `Spends.PlanIff` | src/lib/zcash/inscribe.ts:111-148 | there is a plan if and only if key and commitment have their sizes, the address decodes and the dust is at least 546 |
| `Spends.CostAddsUp` | src/lib/zcash/inscribe.ts:368-411 | the breakdown is what each transaction spends beyond its outputs, and what is delivered |
| `Envelope.ConcatBytes` | src/lib/zcash/script.ts:36-44 | a buffer of the total size, filled part by part, is the concatenation |
| `Envelope.WriteEnvelope` | src/lib/zcash/inscription.ts:87-99 | the chunking loop computes `EncodeEnvelope` |
| `Envelope.ReadScript` | src/lib/zcash/inscription.ts:111-140 | the script loop computes `ParseScript`, truncated pushes included |
| `Envelope.ReadEnvelope` | src/lib/zcash/inscription.ts:149-183 | the decoding loop computes `DecodeEnvelope` |
| `Envelope.EnvelopeRoundTrip` | src/lib/zcash/inscription.ts:87-183 | an envelope followed by signature and redeem script pushes decodes to its body if and only if there is a body and neither push reads as one more chunk |
| `Envelope.MagicStarts` | src/lib/zcash/inscription.ts:149-165 | reading starts after the first push that is "ord", with or without a byte order mark |
| `Envelope.RedeemRoundTrip` | src/lib/zcash/script.ts:152-167 | the redeem script reads back as its key, commitment and eight drops |
| `Envelope.RevealBalance` | src/lib/zcash/script.ts:142-186 | with a valid signature the spend leaves exactly one true value if and only if the body is 241 to 480 bytes; up to 240 the stack underflows, above 480 items are left below |
| `Blake2b.Hasher.constructor` | src/lib/zcash/blake2b.ts:80-106 | the initial state, with a key absorbed as a block |
| `Blake2b.Hasher.Update` | src/lib/zcash/blake2b.ts:108-125 | absorbs any bytes at any split, refuses after the digest |
| `Blake2b.Hasher.Digest` | src/lib/zcash/blake2b.ts:127-137 | the one-shot definition of RFC 7693 section 3.3 over everything absorbed |
| `Blake2b.Hash` | src/lib/zcash/blake2b.ts:71-137 | however the message is split, the digest is the one-shot hash; none for options out of range |
| `Blake2b.ParameterLayout` | src/lib/zcash/blake2b.ts:85-95 | every byte of the parameter block: lengths, fanout and depth, zeros, salt, personalization |
| `Blake2b.PersonalizationsSeparate` | src/lib/zcash/blake2b.ts:181-184 | hashes of one length start from different blocks if and only if their personalizations differ |
| `Modular.ModPow` | src/lib/protocol/secp256k1.ts:35-45 | square and multiply is the power modulo m |
| `Modular.ComputeModInv` | src/lib/protocol/secp256k1.ts:48-59 | the extended Euclidean loop computes `ModInv`; none for multiples of the modulus, where the source throws |
| `Modular.ModInvCorrect` | src/lib/protocol/secp256k1.ts:48-59 | modulo a prime, of everything but its multiples the inverse is computed |
| `Secp256k1.ComputePointMul` | src/lib/protocol/secp256k1.ts:85-96 | the double-and-add loop computes `PointMul` |
| `Secp256k1.PointMulIsTimes` | src/lib/protocol/secp256k1.ts:85-96 | double-and-add is scalar multiplication |
| `Secp256k1.GeneratorOnCurve` | src/lib/protocol/secp256k1.ts:19-25 | the base point is on the curve |
| `Secp256k1.BytesToBigInt` | src/lib/protocol/secp256k1.ts:98-102 | the big-endian value |
| `CurveLaw.SumIsThirdIntersection` | src/lib/protocol/secp256k1.ts:66-83 | from the primality of p alone: the sum of two points is nothing exactly for opposites, and otherwise on the curve and the mirror image of the third intersection of the line through them, touching where they coincide |
| `CurveLaw.AssociativeIsSound` | src/lib/protocol/secp256k1.ts:66-83 | given prime p and n, associativity and the order are all that is assumed of the addition |
| `Secp256k1.RecoveryVerifies` | src/lib/protocol/secp256k1.ts:135-176 | every key recovery returns, under whatever id, is a valid point and verifies the signature |
| `KeyRecovery.RecoversIff` | src/lib/protocol/secp256k1.ts:135-176 | recovery returns a key if and only if it is valid and verifying with it lands on the point the id names: ordinate of the id's parity, abscissa r or r + n by its high bit |
| `KeyRecovery.SignThenRecover` | src/lib/protocol/secp256k1.ts:135-176 | for every signature the signer makes, its public key comes back under exactly one of the four ids |
| `KeyRecovery.NonceRecovers` | src/lib/protocol/secp256k1.ts:135-176 | which id: the parity of the nonce point's ordinate, flipped where s was negated, plus two where its abscissa is not below the order |
| `Primes.RootExponent` | src/lib/protocol/secp256k1.ts:150-154 | modulo a prime that is 3 modulo 4, the power (p + 1) / 4 of a square is a root of it |
| `CompactSignatures.PointRoundTrip` | src/lib/protocol/secp256k1.ts:114-196 | either encoding of a point reads back as the point |
| `CompactSignatures.DecodedOnCurve` | src/lib/protocol/secp256k1.ts:178-196 | whatever decodes, in either form, is on the curve |
| `CompactSignatures.CompactProvesKey` | src/lib/protocol/tsig.ts:86-102 | the 65-byte signature a wallet lays out gives back its own key in the form the header asks for, under exactly one of the four ids |
| `Sign.ComputeSignature` | src/lib/zcash/sign.ts:11-30 | the retry loop over nonce counters |
| `Sign.SigningVerifies` | src/lib/zcash/sign.ts:11-30 | what the signer returns verifies under the scalar's public key, with s at most N/2 |
| `KeyRecovery.NonceRefusedIff` | src/lib/zcash/sign.ts:16-28 | the signer passes a nonce over if and only if its point's abscissa is a multiple of n or s would be zero |
| `Sign.TrimLeadingZeros` | src/lib/zcash/sign.ts:48-52 | the cursor that skips leading zero bytes |
| `Sign.DerRoundTrip` | src/lib/zcash/sign.ts:47-58 | the DER form determines the signature and is at most 72 bytes |
| `Sign.SignerFits` | src/lib/zcash/sign.ts:11-58 | so is every signature the signer returns |
| `Base58.MultiplyAddInPlace` | src/lib/protocol/encoding.ts:138-149 | the in-place digit loop and its carry loop |
| `Base58.MultiplyAddDigits` | src/lib/protocol/encoding.ts:138-149 | the digit list is always the shortest digits of the value so far |
| `Base58.ComputeRecode` | src/lib/protocol/encoding.ts:135-181 | the whole conversion loop, either way |
| `Base58.DecodeEncoded` | src/lib/protocol/encoding.ts:135-181 | bytes survive encoding and decoding if and only if they are empty or not all zero; n zero bytes come back as n + 2 |
| `Base58.EncodeDecoded` | src/lib/protocol/encoding.ts:135-181 | alphabet text survives decoding and encoding if and only if it is empty or has a character other than 1 |
| `Intent.WriteIntent` | src/lib/protocol/encoding.ts:52-70 | the intent record written into a buffer at its offsets |
| `Intent.IntentRoundTrip` | src/lib/protocol/encoding.ts:52-96 | an encodable intent reads back as itself if and only if its destination is 7-bit, its nonce lower-case and its mint not the all-zero key |
| `Intent.DecodedReencodes` | src/lib/protocol/encoding.ts:72-96 | what decodes encodes to the same bytes if and only if its destination bytes are 7-bit and its key is not all zeros |
| `Bech32m.ComputePolymod` | src/lib/protocol/taddr.ts:152-162 | the checksum loop computes `Polymod` |
| `Bech32m.MixSeparates` | src/lib/protocol/taddr.ts:126-162 | the generators' low bits are linearly independent |
| `Bech32m.SubstitutionDetected` | src/lib/protocol/taddr.ts:130-162 | replacing any one character after the separator by any other makes a valid address invalid |
| `Bech32m.GeneratorsOfCode` | src/lib/protocol/taddr.ts:152-162 | the five generators are the code's polynomial over the field of 32 elements, times the powers of x |
| `Bech32m.VerifiesIff` | src/lib/protocol/taddr.ts:130-150 | an address verifies if and only if it is the prefix, a separator and at least six characters of the set whose values after the expanded prefix leave the remainder of BIP 350 |
| `LaunchLab.FullRaise` | src/lib/solana/launchlab.ts:441-496 | for all launch parameters, spending the whole raise without fees buys everything for sale or one unit less |
| `LaunchLab.BuyKeepsTheProduct` | src/lib/solana/launchlab.ts:474-496 | the fee is within the input, the output within what is sold, and it is exactly the most that keeps the product of the reserves from falling |
| `LaunchLab.BuyMonotone` | src/lib/solana/launchlab.ts:464-496 | spending more never buys less |
| `LaunchLab.ClosingPrice` | src/lib/solana/launchlab.ts:441-462 | for all launch parameters, the curve sold out for the whole raise closes at the price the migrated pool opens at, kept raise over left supply, within the rounding of the divisions |
| `LaunchLab.ReservesIff` | src/lib/solana/launchlab.ts:441-462 | parameters have a curve if and only if something is left of supply and raise and the pool's opening price asks more than the raise of what is sold |
| `LaunchLab.FeeIsLeast` | src/lib/solana/launchlab.ts:464-496 | the fee is the least that is no less than the rate's share of the input |

## Left out

- Error messages and other prose: a thrown error is a none, a refusal or a reason.
- Timestamps on listings and transfers, and session, wallet and storage plumbing: each adapter call is one atomic step.
- The live settlement adapter, RPC clients, publishers and workers: network orchestration.
- The rounds of BLAKE2b, SHA-256 and RIPEMD-160: opaque; only their use is modelled.
- `authDigest`: the authorizing-data digest of ZIP 244 is not needed by the pair's construction.
- The scriptPubKey override of the signature digest: present in the source for its tests only.
- JSON text of stamp payloads and content types other than bytes: envelope bodies are byte strings; a decoder's removal
  of a byte order mark is modelled for the magic only.
- Base58Check address text and the consensus branch table: addresses arrive decoded, branch ids by height as a parameter.
- `tsig.ts` beyond the compact signature: message framing, base64 and address text around the recovered key.
- Secp256k1.RecoveryVerifies: points are in reduced coordinates; a caller's own unreduced key is not modelled.
- SettlementLog.RunSaleSettlesIff: publications orphaned by a reorganization are simply not seen; the run itself is not
  rolled back, as the adapter's tables are not.
- Sign.ComputeSignature: the scalar is not negative; the source has no defined behaviour for a negative one.
- Bech32m.ComputePolymod: the checksum state is its thirty bits rather than a 32-bit integer; no value reaches the
  other two.
- LaunchLab.FullRaise: amounts and rates are not negative, as the program's unsigned fields are.
- Blake2b.Hash: the counter is unbounded; the source wraps it at 2^128.
- InscribeSafety.GreedyIsOptimal: coins are compared by value only, as the source does; which of equal coins is taken
  follows the stable sort.
- Ledger.RebuildLedger: locators are structured values rather than text to be parsed, so an invalid locator, on which
  the source throws, cannot occur; the commitment index it builds and discards is not kept.
- Stamp numbering, display formatting, token metadata, HD derivation and instruction encoding: easy or table-driven.
