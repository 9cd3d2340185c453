/** Which stamps count: an inscription is accepted only for a finalized burn nobody claimed before it. */
module Inscriptions {
  import opened Bytes
  import opened Ordering
  import opened SolanaBurns
  import Text

  datatype Payment = Payment(address: string, zatoshis: int)

  datatype ObservedInscription = ObservedInscription(
    txid: string, height: int, scriptSigHex: string, outputs: seq<Payment>)

  datatype StampPayload = StampPayload(p: string, v: int, mint: string, burn: string, amt: Digits, to: string)

  datatype RejectionReason =
    | NotAnInscription | ForeignProtocol | BurnNotFound | BurnFailed | BurnUnconfirmed
    | MintMismatch | AmountMismatch | RecipientUnauthorized | NotDelivered | AlreadyClaimed

  datatype AcceptedStamp = AcceptedStamp(
    id: string, height: int, payload: StampPayload, burn: ObservedBurn, deliveredZatoshis: int)

  datatype RejectedStamp = RejectedStamp(
    id: string, height: int, reason: RejectionReason, payload: Option<StampPayload>)

  datatype PendingStamp = PendingStamp(id: string, height: int, payload: StampPayload, confirmations: int)

  datatype StampSet = StampSet(
    accepted: seq<AcceptedStamp>, rejected: seq<RejectedStamp>, pending: seq<PendingStamp>,
    supplyByMint: map<string, string>, claimedBurns: map<string, string>)

  /** decodeStamp reads the envelope's JSON payload out of a script, or nothing. */
  datatype IndexOptions = IndexOptions(
    inscriptions: seq<ObservedInscription>, burns: seq<ObservedBurn>, tipHeight: int, minConfirmations: int,
    acceptProtocols: seq<string>, decodeStamp: Bytes -> Option<StampPayload>)

  function ScriptBytes(hex: string): Option<Bytes> {
    var clean := if hex[..Min(2, |hex|)] == "0x" then hex[2..] else hex;
    if clean == "" then None else FromHex(clean)
  }

  function Min(a: nat, b: nat): nat { if a < b then a else b }

  function CanonicalOrder(a: ObservedInscription, b: ObservedInscription): int {
    if a.height != b.height then a.height - b.height
    else if StringLess(a.txid, b.txid) then -1
    else if StringLess(b.txid, a.txid) then 1 else 0
  }

  predicate Before(a: ObservedInscription, b: ObservedInscription) {
    CanonicalOrder(a, b) < 0
  }

  /** What `String.prototype.trim` strips. */
  predicate IsBlank(c: char) {
    c in "\t\n\r \U{b}\U{c}\U{a0}\U{1680}\U{2028}\U{2029}\U{202f}\U{205f}\U{3000}\U{feff}"
    || '\U{2000}' <= c <= '\U{200a}'
  }

  function TrimStart(s: string): string {
    if s != "" && IsBlank(s[0]) then TrimStart(s[1..]) else s
  }

  function TrimEnd(s: string): string {
    if s != "" && IsBlank(s[|s| - 1]) then TrimEnd(s[..|s| - 1]) else s
  }

  function Trim(s: string): string { TrimEnd(TrimStart(s)) }

  function WithSignature(signature: string): ObservedBurn -> bool { (b: ObservedBurn) => b.signature == signature }

  /** The first of the burns that destroyed this mint. */
  function FirstOfMint(burns: seq<ObservedBurn>, mint: string): Option<ObservedBurn> {
    if burns == [] then None
    else if burns[0].mint == mint then Some(burns[0]) else FirstOfMint(burns[1..], mint)
  }

  /** Some memo of the transaction, signed by the burn's authority, names the address. */
  predicate Authorized(memos: seq<Memo>, authority: string, to: string) {
    memos != [] && ((Trim(memos[0].text) == to && authority in memos[0].signers)
                    || Authorized(memos[1..], authority, to))
  }

  function DeliveredTo(outputs: seq<Payment>, to: string): int {
    if outputs == [] then 0
    else DeliveredTo(outputs[..|outputs| - 1], to)
         + if outputs[|outputs| - 1].address == to then outputs[|outputs| - 1].zatoshis else 0
  }

  function GroupFor(groups: map<string, seq<ObservedBurn>>, signature: string): seq<ObservedBurn> {
    if signature in groups then groups[signature] else []
  }

  /** The burns under each signature, in input order. */
  function Grouped(burns: seq<ObservedBurn>): map<string, seq<ObservedBurn>> {
    if burns == [] then map[]
    else
      var groups, last := Grouped(burns[..|burns| - 1]), burns[|burns| - 1];
      groups[last.signature := GroupFor(groups, last.signature) + [last]]
  }

  /** The verdict on an inscription before anybody else's claim is considered. */
  datatype Verdict =
    | Refuse(reason: RejectionReason, payload: Option<StampPayload>)
    | Wait(waiting: StampPayload, confirmations: int)
    | Eligible(stamp: AcceptedStamp)

  function Assess(o: IndexOptions, item: ObservedInscription): Verdict {
    var script := ScriptBytes(item.scriptSigHex);
    var decoded := if script.None? then None else o.decodeStamp(script.value);
    if decoded.None? then Refuse(NotAnInscription, None)
    else
      var payload := decoded.value;
      var confirmations := o.tipHeight - item.height + 1;
      if payload.p !in o.acceptProtocols then Refuse(ForeignProtocol, Some(payload))
      else if confirmations < o.minConfirmations then Wait(payload, confirmations)
      else AssessCandidates(GroupFor(Grouped(o.burns), payload.burn), item, payload)
  }

  /** The checks on the burns of the cited transaction. */
  function AssessCandidates(candidates: seq<ObservedBurn>, item: ObservedInscription,
                            payload: StampPayload): (v: Verdict)
    ensures !v.Wait?
  {
    if candidates == [] then Refuse(BurnNotFound, Some(payload))
    else
      var found := FirstOfMint(candidates, payload.mint);
      if found.None? then Refuse(MintMismatch, Some(payload))
      else
        var burn, delivered := found.value, DeliveredTo(item.outputs, payload.to);
        if burn.failed then Refuse(BurnFailed, Some(payload))
        else if !burn.finalized then Refuse(BurnUnconfirmed, Some(payload))
        else if burn.amountBase != payload.amt then Refuse(AmountMismatch, Some(payload))
        else if !Authorized(burn.memos, burn.authority, payload.to) then Refuse(RecipientUnauthorized, Some(payload))
        else if delivered <= 0 then Refuse(NotDelivered, Some(payload))
        else Eligible(AcceptedStamp(item.txid, item.height, payload, burn, delivered))
  }

  /* ---------- the fold ---------- */

  datatype Tallies = Tallies(
    accepted: seq<AcceptedStamp>, rejected: seq<RejectedStamp>, pending: seq<PendingStamp>,
    claimed: map<string, string>, supply: map<string, nat>)

  function Units(supply: map<string, nat>, mint: string): nat {
    if mint in supply then supply[mint] else 0
  }

  /** `if (claimedBurns[burn])`: an empty txid does not count as a claim. */
  predicate Taken(claimed: map<string, string>, burn: string) {
    burn in claimed && claimed[burn] != ""
  }

  /** One pass of the claiming loop, given the verdict on the inscription. */
  function Step(t: Tallies, item: ObservedInscription, v: Verdict): Tallies {
    match v
    case Refuse(reason, payload) =>
      t.(rejected := t.rejected + [RejectedStamp(item.txid, item.height, reason, payload)])
    case Wait(payload, confirmations) =>
      t.(pending := t.pending + [PendingStamp(item.txid, item.height, payload, confirmations)])
    case Eligible(stamp) =>
      var payload := stamp.payload;
      if Taken(t.claimed, payload.burn) then
        t.(rejected := t.rejected + [RejectedStamp(item.txid, item.height, AlreadyClaimed, Some(payload))])
      else
        t.(claimed := t.claimed[payload.burn := item.txid],
           supply := t.supply[payload.mint := Units(t.supply, payload.mint) + Text.Numeral(payload.amt)],
           accepted := t.accepted + [stamp])
  }

  function Judgement(o: IndexOptions): ObservedInscription -> Verdict { (item: ObservedInscription) => Assess(o, item) }

  /** The tallies after the inscriptions so far, first one first. */
  function Fold(judge: ObservedInscription -> Verdict, items: seq<ObservedInscription>): Tallies {
    if items == [] then Tallies([], [], [], map[], map[])
    else
      var last := items[|items| - 1];
      Step(Fold(judge, items[..|items| - 1]), last, judge(last))
  }

  function Finish(t: Tallies): StampSet {
    StampSet(t.accepted, t.rejected, t.pending, map m | m in t.supply :: Text.Decimal(t.supply[m]), t.claimed)
  }

  /** The index as a function of its options. */
  function Index(o: IndexOptions): StampSet {
    Finish(Fold(Judgement(o), Sort(Before, o.inscriptions)))
  }

  lemma {:induction false} GroupHasSignature(burns: seq<ObservedBurn>, signature: string)
    ensures GroupFor(Grouped(burns), signature) == Filter(WithSignature(signature), burns)
  {
    if burns != [] {
      GroupHasSignature(burns[..|burns| - 1], signature);
    }
  }

  method GroupBurns(burns: seq<ObservedBurn>) returns (bySignature: map<string, seq<ObservedBurn>>)
    ensures bySignature == Grouped(burns)
  {
    bySignature := map[];
    for i := 0 to |burns|
      invariant bySignature == Grouped(burns[..i])
    {
      var burn := burns[i];
      TakeNext(burns, i);
      assert Grouped(burns[..i + 1]) == bySignature[burn.signature := GroupFor(bySignature, burn.signature) + [burn]];
      if burn.signature in bySignature {
        bySignature := bySignature[burn.signature := bySignature[burn.signature] + [burn]];
      } else {
        assert [] + [burn] == [burn];
        bySignature := bySignature[burn.signature := [burn]];
      }
    }
    assert burns[..|burns|] == burns;
  }

  method IndexInscriptions(o: IndexOptions) returns (out: StampSet)
    ensures out == Index(o)
  {
    var bySignature := GroupBurns(o.burns);
    var tallies := ClaimInOrder(o, bySignature, Sort(Before, o.inscriptions));
    out := Finish(tallies);
  }

  lemma FoldNext(judge: ObservedInscription -> Verdict, items: seq<ObservedInscription>, i: nat)
    requires i < |items|
    ensures Fold(judge, items[..i + 1]) == Step(Fold(judge, items[..i]), items[i], judge(items[i]))
  {
    TakeNext(items, i);
  }

  /** The claiming loop over the inscriptions in canonical order. */
  method ClaimInOrder(o: IndexOptions, bySignature: map<string, seq<ObservedBurn>>, items: seq<ObservedInscription>)
    returns (t: Tallies)
    requires bySignature == Grouped(o.burns)
    ensures t == Fold(Judgement(o), items)
  {
    var accepted: seq<AcceptedStamp>, rejected: seq<RejectedStamp>, pending: seq<PendingStamp> := [], [], [];
    var claimedBurns: map<string, string>, supply: map<string, nat> := map[], map[];
    for i := 0 to |items|
      invariant Tallies(accepted, rejected, pending, claimedBurns, supply) == Fold(Judgement(o), items[..i])
    {
      var item := items[i];
      FoldNext(Judgement(o), items, i);
      var verdict := Judge(o, bySignature, item);
      match verdict {
        case Refuse(reason, payload) =>
          rejected := rejected + [RejectedStamp(item.txid, item.height, reason, payload)];
        case Wait(payload, confirmations) =>
          pending := pending + [PendingStamp(item.txid, item.height, payload, confirmations)];
        case Eligible(stamp) =>
          var payload := stamp.payload;
          if Taken(claimedBurns, payload.burn) {
            rejected := rejected + [RejectedStamp(item.txid, item.height, AlreadyClaimed, Some(payload))];
          } else {
            claimedBurns := claimedBurns[payload.burn := item.txid];
            supply := supply[payload.mint := Units(supply, payload.mint) + Text.Numeral(payload.amt)];
            accepted := accepted + [stamp];
          }
      }
    }
    assert items[..|items|] == items;
    t := Tallies(accepted, rejected, pending, claimedBurns, supply);
  }

  /** Everything the rule asks of one inscription, short of who came first. */
  method Judge(o: IndexOptions, bySignature: map<string, seq<ObservedBurn>>, item: ObservedInscription)
    returns (v: Verdict)
    requires bySignature == Grouped(o.burns)
    ensures v == Judgement(o)(item)
  {
    var script := ScriptBytes(item.scriptSigHex);
    var decoded := if script.None? then None else o.decodeStamp(script.value);
    if decoded.None? { return Refuse(NotAnInscription, None); }
    var payload := decoded.value;
    if payload.p !in o.acceptProtocols { return Refuse(ForeignProtocol, Some(payload)); }
    var confirmations := o.tipHeight - item.height + 1;
    if confirmations < o.minConfirmations { return Wait(payload, confirmations); }
    var candidates := if payload.burn in bySignature then bySignature[payload.burn] else [];
    v := CheckClaim(candidates, item, payload);
  }

  /** The burn-side checks, in the order the rule applies them. */
  method CheckClaim(candidates: seq<ObservedBurn>, item: ObservedInscription, payload: StampPayload)
    returns (v: Verdict)
    ensures v == AssessCandidates(candidates, item, payload)
  {
    if candidates == [] { return Refuse(BurnNotFound, Some(payload)); }
    var found := FirstOfMint(candidates, payload.mint);
    if found.None? { return Refuse(MintMismatch, Some(payload)); }
    var burn := found.value;
    if burn.failed { return Refuse(BurnFailed, Some(payload)); }
    if !burn.finalized { return Refuse(BurnUnconfirmed, Some(payload)); }
    if burn.amountBase != payload.amt { return Refuse(AmountMismatch, Some(payload)); }
    if !Authorized(burn.memos, burn.authority, payload.to) { return Refuse(RecipientUnauthorized, Some(payload)); }
    var delivered := 0;
    for i := 0 to |item.outputs|
      invariant delivered == DeliveredTo(item.outputs[..i], payload.to)
    {
      TakeNext(item.outputs, i);
      if item.outputs[i].address == payload.to {
        delivered := delivered + item.outputs[i].zatoshis;
      }
    }
    assert item.outputs[..|item.outputs|] == item.outputs;
    if delivered <= 0 { return Refuse(NotDelivered, Some(payload)); }
    v := Eligible(AcceptedStamp(item.txid, item.height, payload, burn, delivered));
  }

  /* ---------- the consistency check ---------- */

  function BurnedByAccepted(accepted: seq<AcceptedStamp>, mint: string): nat {
    if accepted == [] then 0
    else BurnedByAccepted(accepted[..|accepted| - 1], mint)
         + var b := accepted[|accepted| - 1].burn; if b.mint == mint then Text.Numeral(b.amountBase) else 0
  }

  /** The published supply of every mint is the decimal of the units burned by its accepted stamps. */
  ghost predicate SupplyMatchesBurns(result: StampSet) {
    forall m: string :: (if m in result.supplyByMint then result.supplyByMint[m] else "0")
                        == Text.Decimal(BurnedByAccepted(result.accepted, m))
  }

  method SupplyEqualsBurns(result: StampSet) returns (ok: bool)
    ensures ok <==> SupplyMatchesBurns(result)
  {
    var fromBurns: map<string, nat> := map[];
    for i := 0 to |result.accepted|
      invariant forall m :: Units(fromBurns, m) == BurnedByAccepted(result.accepted[..i], m)
    {
      TakeNext(result.accepted, i);
      var burn := result.accepted[i].burn;
      fromBurns := fromBurns[burn.mint := Units(fromBurns, burn.mint) + Text.Numeral(burn.amountBase)];
    }
    assert result.accepted[..|result.accepted|] == result.accepted;
    var mints := result.supplyByMint.Keys + fromBurns.Keys;
    var todo := mints;
    while todo != {}
      invariant todo <= mints
      invariant forall m | m in mints - todo ::
        (if m in result.supplyByMint then result.supplyByMint[m] else "0") == Text.Decimal(Units(fromBurns, m))
      decreases todo
    {
      var mint :| mint in todo;
      var published := if mint in result.supplyByMint then result.supplyByMint[mint] else "0";
      if published != Text.Decimal(Units(fromBurns, mint)) {
        return false;
      }
      todo := todo - {mint};
    }
    ok := true;
  }
}
