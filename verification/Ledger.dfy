/** Rebuilding the issuance ledger from both chains. */
module Ledger {
  import opened Bytes
  import opened Issuance
  import opened Ordering
  import opened Types
  import Text

  datatype RebuildInput = RebuildInput(
    sourceNetwork: SourceNetwork, destinationNetwork: DestNetwork, minZcashConfirmations: int,
    solana: seq<SolanaTx>, zcash: seq<ZcashPublication>)

  datatype PendingReason = ConfirmationPending | PublicationPending
  datatype PendingRow = PendingRow(sourceTx: string, reason: PendingReason)

  /** A losing publication's id goes with the reason. */
  datatype RejectedRow = RejectedRow(sourceTx: string, reason: RejectReason, losing: Option<string>)

  datatype State = State(
    accepted: seq<AcceptedIssuance>, pending: seq<PendingRow>, rejected: seq<RejectedRow>, seen: set<string>)

  datatype RebuildOutput = RebuildOutput(
    accepted: seq<AcceptedIssuance>, pending: seq<PendingRow>, rejected: seq<RejectedRow>,
    acceptedStampUnits: map<string, string>)

  /* ---------- orders ---------- */

  predicate EarlierBurn(a: SolanaTx, b: SolanaTx) {
    a.slot < b.slot || (a.slot == b.slot && StringLess(a.signature, b.signature))
  }

  predicate EarlierTxid(a: ZcashPublication, b: ZcashPublication) { StringLess(a.txid, b.txid) }

  predicate EarlierRow(a: AcceptedIssuance, b: AcceptedIssuance) {
    if a.issuance.sourceTx != b.issuance.sourceTx then StringLess(a.issuance.sourceTx, b.issuance.sourceTx)
    else CompareLocators(a.issuance.burnLocator, b.issuance.burnLocator) < 0
  }

  /* ---------- one transaction ---------- */

  function FirstFor(intents: seq<LocatedIntent>, network: DestNetwork): Option<string> {
    if intents == [] then None
    else if intents[0].intent.destinationNetwork == network then Some(intents[0].intent.destination)
    else FirstFor(intents[1..], network)
  }

  /** Each transaction is checked against what it says itself. */
  function Claim(env: Env, input: RebuildInput, tx: SolanaTx): Checked {
    match (FirstFor(DecodeIntents(tx), input.destinationNetwork), DecodeBurn(tx))
    case (Some(destination), Some(burn)) =>
      ValidateBurn(env, tx, Expected(input.sourceNetwork, input.destinationNetwork, tx.mint.address, burn.amountBase,
                                     tx.mint.decimals, destination))
    case (_, _) => Rejected(MissingIntent)
  }

  function EventId(f: IssuanceFields): string {
    SourceName(f.sourceNetwork) + ":" + f.sourceTx + ":" + Show(f.burnLocator)
  }

  function Publishes(env: Env, f: IssuanceFields, minConfirmations: int): ZcashPublication -> bool {
    (z: ZcashPublication) => ValidPublication(env, f, z, minConfirmations)
  }

  /** The valid publications, by txid. */
  function Matches(env: Env, input: RebuildInput, f: IssuanceFields): seq<ZcashPublication> {
    Sort(EarlierTxid, Filter(Publishes(env, f, input.minZcashConfirmations), input.zcash))
  }

  predicate Contains(text: string, part: string) {
    part <= text || (text != "" && Contains(text[1..], part))
  }

  function Mentions(commitment: Digest): ZcashOutput -> bool {
    (o: ZcashOutput) => o.nullData.Some? && Contains(ToHex(o.nullData.value), ToHex(commitment))
  }

  function FirstMention(zcash: seq<ZcashPublication>, commitment: Digest): Option<ZcashPublication> {
    if zcash == [] then None
    else if FirstOutput(zcash[0].outputs, Mentions(commitment)).Some? then Some(zcash[0])
    else FirstMention(zcash[1..], commitment)
  }

  /** Why nothing was accepted yet: looks at the publications in the order they were given. */
  function WhyPending(env: Env, input: RebuildInput, f: IssuanceFields): PendingReason {
    match FirstMention(input.zcash, CommitmentOf(env, f))
    case Some(z) =>
      if !z.inBestChain || z.confirmations < input.minZcashConfirmations then ConfirmationPending
      else PublicationPending
    case None => PublicationPending
  }

  function Losers(sourceTx: string, extra: seq<ZcashPublication>): seq<RejectedRow> {
    seq(|extra|, i requires 0 <= i < |extra| => RejectedRow(sourceTx, DuplicatePublication, Some(extra[i].txid)))
  }

  /** A claim not seen before: pending without a publication, accepted with the first. */
  function Settle(env: Env, input: RebuildInput, st: State, f: IssuanceFields): State {
    var matches := Matches(env, input, f);
    var seen := st.seen + {EventId(f)};
    if matches == [] then
      st.(pending := st.pending + [PendingRow(f.sourceTx, WhyPending(env, input, f))], seen := seen)
    else State(st.accepted + [AcceptIssuance(env, f, matches[0])], st.pending,
               st.rejected + Losers(f.sourceTx, matches[1..]), seen)
  }

  function Step(env: Env, input: RebuildInput, st: State, tx: SolanaTx): State {
    match Claim(env, input, tx)
    case Rejected(reason) => st.(rejected := st.rejected + [RejectedRow(tx.signature, reason, None)])
    case Passed(f) =>
      if EventId(f) in st.seen then
        st.(rejected := st.rejected + [RejectedRow(tx.signature, DuplicateClaim, None)])
      else Settle(env, input, st, f)
  }

  function Run(env: Env, input: RebuildInput, txs: seq<SolanaTx>): State {
    if txs == [] then State([], [], [], {})
    else Step(env, input, Run(env, input, txs[..|txs| - 1]), txs[|txs| - 1])
  }

  /* ---------- totals ---------- */

  /** Base units in rows of a mint. */
  function Units(rows: seq<AcceptedIssuance>, mint: string): nat {
    if rows == [] then 0
    else
      var last := rows[|rows| - 1];
      Units(rows[..|rows| - 1], mint)
      + if last.issuance.mint == mint && Text.AllDigits(last.issuance.amountBase)
        then Text.Numeral(last.issuance.amountBase) else 0
  }

  predicate Mints(rows: seq<AcceptedIssuance>, mint: string) {
    exists i :: 0 <= i < |rows| && rows[i].issuance.mint == mint
  }

  /** The map of totals: a decimal text for each mint that has rows. */
  ghost predicate Totals(units: map<string, string>, rows: seq<AcceptedIssuance>) {
    forall m :: (m in units <==> Mints(rows, m)) && (m in units ==> units[m] == Text.Decimal(Units(rows, m)))
  }

  predicate AmountsReadable(rows: seq<AcceptedIssuance>) {
    forall i | 0 <= i < |rows| :: Text.AllDigits(rows[i].issuance.amountBase)
  }

  /** Adds the rows up, mint by mint. */
  method SumUnits(rows: seq<AcceptedIssuance>) returns (units: map<string, string>)
    requires AmountsReadable(rows)
    ensures Totals(units, rows)
  {
    units := map[];
    for k := 0 to |rows|
      invariant Totals(units, rows[..k])
    {
      var row := rows[k].issuance;
      UnitsReadable(rows[..k], row.mint);
      var prev := if row.mint in units then Text.Numeral(units[row.mint]) else 0;
      assert prev == Units(rows[..k], row.mint) by { NoRowsNoUnits(rows[..k], row.mint); }
      OneMoreRow(units, rows, k);
      units := units[row.mint := Text.Decimal(prev + Text.Numeral(row.amountBase))];
    }
    assert rows[..|rows|] == rows;
  }

  /** What the next row changes. */
  lemma OneMoreRow(units: map<string, string>, rows: seq<AcceptedIssuance>, k: nat)
    requires k < |rows| && Totals(units, rows[..k]) && Text.AllDigits(rows[k].issuance.amountBase)
    ensures var row := rows[k].issuance;
            Totals(units[row.mint := Text.Decimal(Units(rows[..k], row.mint) + Text.Numeral(row.amountBase))],
                   rows[..k + 1])
  {
    var before, after := rows[..k], rows[..k + 1];
    assert after[..k] == before && after[k] == rows[k];
    forall m ensures Mints(after, m) <==> Mints(before, m) || m == rows[k].issuance.mint {
      if m == rows[k].issuance.mint { assert after[k].issuance.mint == m; }
      if Mints(before, m) {
        var i :| 0 <= i < |before| && before[i].issuance.mint == m;
        assert after[i] == before[i];
      }
    }
  }

  lemma UnitsReadable(rows: seq<AcceptedIssuance>, mint: string)
    ensures Text.AllDigits(Text.Decimal(Units(rows, mint)))
    ensures Text.Numeral(Text.Decimal(Units(rows, mint))) == Units(rows, mint)
  {
    Text.DecimalRoundTrip(Units(rows, mint));
  }

  lemma {:induction false} NoRowsNoUnits(rows: seq<AcceptedIssuance>, mint: string)
    ensures !Mints(rows, mint) ==> Units(rows, mint) == 0
  {
    if rows != [] && !Mints(rows, mint) {
      assert rows[|rows| - 1].issuance.mint != mint;
      assert forall i | 0 <= i < |rows| - 1 :: rows[..|rows| - 1][i] == rows[i];
      NoRowsNoUnits(rows[..|rows| - 1], mint);
    }
  }

  /* ---------- the rebuild ---------- */

  function Order(input: RebuildInput): seq<SolanaTx> { Sort(EarlierBurn, input.solana) }

  function FinalState(env: Env, input: RebuildInput): State { Run(env, input, Order(input)) }

  method RebuildLedger(env: Env, input: RebuildInput) returns (out: RebuildOutput)
    ensures var st := FinalState(env, input);
            && out.accepted == Sort(EarlierRow, st.accepted) && out.pending == st.pending && out.rejected == st.rejected
            && Totals(out.acceptedStampUnits, out.accepted)
  {
    var solana := Sort(EarlierBurn, input.solana);
    var accepted: seq<AcceptedIssuance> := [];
    var pending: seq<PendingRow> := [];
    var rejected: seq<RejectedRow> := [];
    var seen: set<string> := {};
    for k := 0 to |solana|
      invariant State(accepted, pending, rejected, seen) == Run(env, input, solana[..k])
    {
      var tx := solana[k];
      TakeNext(solana, k);
      var claim := Claim(env, input, tx);
      if claim.Rejected? {
        rejected := rejected + [RejectedRow(tx.signature, claim.reason, None)];
        continue;
      }
      var f := claim.issuance;
      if EventId(f) in seen {
        rejected := rejected + [RejectedRow(tx.signature, DuplicateClaim, None)];
        continue;
      }
      var matches := Matches(env, input, f);
      if |matches| == 0 {
        pending := pending + [PendingRow(f.sourceTx, WhyPending(env, input, f))];
      } else {
        rejected := rejected + Losers(f.sourceTx, matches[1..]);
        accepted := accepted + [AcceptIssuance(env, f, matches[0])];
      }
      seen := seen + {EventId(f)};
    }
    assert solana[..|solana|] == solana;
    AcceptedReadable(env, input, solana);
    SortElements(EarlierRow, accepted);
    accepted := Sort(EarlierRow, accepted);
    assert AmountsReadable(accepted) by {
      forall i | 0 <= i < |accepted| ensures Text.AllDigits(accepted[i].issuance.amountBase) {
        assert accepted[i] in accepted;
      }
    }
    var units := SumUnits(accepted);
    out := RebuildOutput(accepted, pending, rejected, units);
  }

  /** Every accepted row carries an issuance some transaction passed with. */
  lemma {:induction false} AcceptedReadable(env: Env, input: RebuildInput, txs: seq<SolanaTx>)
    ensures forall row | row in Run(env, input, txs).accepted :: Text.AllDigits(row.issuance.amountBase)
  {
    if txs != [] {
      AcceptedReadable(env, input, txs[..|txs| - 1]);
    }
  }
}
