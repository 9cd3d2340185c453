/** The simulated Zcash chain: record publication and hash-time-locked escrows. */
module DemoChain {
  import opened Bytes
  import opened Types
  import opened Transfer
  import Text

  datatype EscrowState = Locked | Claimed | Refunded

  datatype Htlc = Htlc(
    id: string, amountZat: int, hashLockHex: string, expiryHeight: int, buyerAddress: string,
    sellerAddress: string, state: EscrowState, lockTxid: string, claimTxid: Option<string>,
    preimageHex: Option<string>)

  datatype Chain = Chain(
    height: int, fundedZat: int, txs: map<string, ZcashPublication>, escrows: map<string, Htlc>)

  const PUBLICATION_FEE_ZAT := 25_000
  const DESTINATION_NOTICE_ZAT := 10_000

  function HashText(p: Primitives, text: string): string {
    ToHex(p.sha256(p.utf8(text)))
  }

  /* ---------- publishing a record ---------- */

  /** A missing or empty notice address pays no notice. */
  function NoticeOutputs(notice: Option<string>): seq<ZcashOutput> {
    if notice.Some? && notice.value != "" then [ZcashOutput(0, DESTINATION_NOTICE_ZAT, notice, None)] else []
  }

  function RecordCost(notice: Option<string>): int {
    PUBLICATION_FEE_ZAT + if NoticeOutputs(notice) == [] then 0 else DESTINATION_NOTICE_ZAT
  }

  function RecordPublication(p: Primitives, network: DestNetwork, height: int, payload: Bytes,
                             notice: Option<string>): ZcashPublication
  {
    ZcashPublication(
      ToHex(p.sha256(payload + p.utf8(Text.Integer(height)))), network, Some(height), 0, true,
      NoticeOutputs(notice) + [ZcashOutput(|NoticeOutputs(notice)|, 0, None, Some(payload))])
  }

  /** None where the source throws for want of funds. */
  function Published(p: Primitives, c: Chain, network: DestNetwork, payload: Bytes,
                     notice: Option<string>): Option<(Chain, ZcashPublication)>
  {
    if c.fundedZat < RecordCost(notice) then None
    else
      var z := RecordPublication(p, network, c.height + 1, payload, notice);
      Some((Chain(c.height + 1, c.fundedZat - RecordCost(notice), c.txs[z.txid := z], c.escrows), z))
  }

  /* ---------- escrows ---------- */

  function LockText(hashLockHex: string, buyerAddress: string, height: int): string {
    hashLockHex + ":" + buyerAddress + ":" + Text.Integer(height)
  }

  /** The escrow a lock at the next height opens; its id is half of its transaction id. */
  function NewEscrow(p: Primitives, c: Chain, amountZat: int, hashLockHex: string, buyer: string, seller: string,
                     timeoutBlocks: int): Htlc
  {
    var lockTxid := HashText(p, LockText(hashLockHex, buyer, c.height + 1));
    Htlc(lockTxid[..32], amountZat, hashLockHex, c.height + 1 + timeoutBlocks, buyer, seller, Locked, lockTxid, None,
         None)
  }

  function Lock(c: Chain, h: Htlc): Chain {
    c.(height := c.height + 1, escrows := c.escrows[h.id := h])
  }

  /** The bytes of a hex text as the runtime reads it: it stops at the first bad pair. */
  function LenientHex(text: string): Bytes {
    if |text| < 2 || HexValue(text[0]) < 0 || HexValue(text[1]) < 0 then []
    else [16 * HexValue(text[0]) + HexValue(text[1])] + LenientHex(text[2..])
  }

  lemma {:induction false} LenientHexAgrees(text: string)
    requires FromHex(text).Some?
    ensures LenientHex(text) == FromHex(text).value
  {
    if text != "" { LenientHexAgrees(text[2..]); }
  }

  predicate CanClaim(p: Primitives, c: Chain, id: string, preimageHex: string) {
    id in c.escrows && c.escrows[id].state == Locked
    && ToHex(p.sha256(LenientHex(preimageHex))) == c.escrows[id].hashLockHex
  }

  function Claim(p: Primitives, c: Chain, id: string, preimageHex: string): Option<Chain> {
    if !CanClaim(p, c, id, preimageHex) then None
    else
      var txid := HashText(p, c.escrows[id].id + ":claim:" + Text.Integer(c.height + 1));
      Some(c.(height := c.height + 1,
              escrows := c.escrows[id := c.escrows[id].(state := Claimed, preimageHex := Some(preimageHex),
                                                        claimTxid := Some(txid))]))
  }

  function Refund(c: Chain, id: string): Option<Chain> {
    if id !in c.escrows || c.escrows[id].state != Locked || c.height < c.escrows[id].expiryHeight then None
    else Some(c.(escrows := c.escrows[id := c.escrows[id].(state := Refunded)]))
  }

  /** The mutable chain the adapters share. */
  class DemoZcashChain {
    var height: int
    var fundedZat: int
    var txs: map<string, ZcashPublication>
    var escrows: map<string, Htlc>

    function State(): Chain
      reads this
    {
      Chain(height, fundedZat, txs, escrows)
    }

    constructor ()
      ensures State() == Chain(100, 1_000_000_000, map[], map[])
    {
      height, fundedZat, txs, escrows := 100, 1_000_000_000, map[], map[];
    }

    method PublishDemoRecord(p: Primitives, network: DestNetwork, payload: Bytes, notice: Option<string>)
      returns (publication: Option<ZcashPublication>)
      modifies this
      ensures match Published(p, old(State()), network, payload, notice)
        case None => publication == None && State() == old(State())
        case Some((after, z)) => publication == Some(z) && State() == after
    {
      var paysNotice := notice.Some? && notice.value != "";
      var cost := PUBLICATION_FEE_ZAT + if paysNotice then DESTINATION_NOTICE_ZAT else 0;
      if fundedZat < cost {
        return None;
      }
      fundedZat := fundedZat - cost;
      height := height + 1;
      var txid := ToHex(p.sha256(payload + p.utf8(Text.Integer(height))));
      var outputs: seq<ZcashOutput> := [];
      if paysNotice {
        outputs := outputs + [ZcashOutput(|outputs|, DESTINATION_NOTICE_ZAT, notice, None)];
      }
      assert outputs == NoticeOutputs(notice);
      outputs := outputs + [ZcashOutput(|outputs|, 0, None, Some(payload))];
      var z := ZcashPublication(txid, network, Some(height), 0, true, outputs);
      assert z == RecordPublication(p, network, old(height) + 1, payload, notice);
      txs := txs[txid := z];
      publication := Some(z);
    }

    method LockDemoHtlc(p: Primitives, amountZat: int, hashLockHex: string, buyer: string, seller: string,
                        timeoutBlocks: int)
      returns (h: Htlc)
      modifies this
      ensures h == NewEscrow(p, old(State()), amountZat, hashLockHex, buyer, seller, timeoutBlocks)
      ensures State() == Lock(old(State()), h)
    {
      height := height + 1;
      var lockTxid := HashText(p, hashLockHex + ":" + buyer + ":" + Text.Integer(height));
      h := Htlc(lockTxid[..32], amountZat, hashLockHex, height + timeoutBlocks, buyer, seller, Locked, lockTxid, None,
                None);
      escrows := escrows[h.id := h];
    }

    method ClaimDemoHtlc(p: Primitives, id: string, preimageHex: string) returns (ok: bool)
      modifies this
      ensures match Claim(p, old(State()), id, preimageHex)
        case None => !ok && State() == old(State())
        case Some(after) => ok && State() == after
    {
      if id !in escrows {
        return false;
      }
      var h := escrows[id];
      if h.state != Locked {
        return false;
      }
      if ToHex(p.sha256(LenientHex(preimageHex))) != h.hashLockHex {
        return false;
      }
      height := height + 1;
      h := h.(state := Claimed);
      h := h.(preimageHex := Some(preimageHex));
      h := h.(claimTxid := Some(HashText(p, h.id + ":claim:" + Text.Integer(height))));
      escrows := escrows[id := h];
      ok := true;
    }

    method RefundDemoHtlc(id: string) returns (ok: bool)
      modifies this
      ensures match Refund(old(State()), id)
        case None => !ok && State() == old(State())
        case Some(after) => ok && State() == after
    {
      if id !in escrows || escrows[id].state != Locked || height < escrows[id].expiryHeight {
        return false;
      }
      escrows := escrows[id := escrows[id].(state := Refunded)];
      ok := true;
    }
  }
}
