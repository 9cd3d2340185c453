/** Reading a parsed Solana transaction down to one burn record per mint. */
module SolanaBurns {
  import opened Bytes
  import opened Ordering
  import Sums
  import Text

  /** A base-unit amount as the RPC prints it. */
  type Digits = s: string | Text.AllDigits(s) witness "0"

  datatype TokenAmount = TokenAmount(amount: Option<Digits>, decimals: Option<int>)

  /** The `info` fields the reader looks at; None for a missing field or one of another type. */
  datatype Info = Info(
    mint: Option<string>, authority: Option<string>, multisigAuthority: Option<string>,
    tokenAmount: Option<TokenAmount>, amount: Option<Digits>)

  datatype Parsed = Unparsed | TextParsed(text: string) | ObjectParsed(kind: string, info: Option<Info>)

  datatype ParsedInstruction = ParsedInstruction(programId: string, parsed: Parsed)

  datatype AccountKey = AccountKey(pubkey: string, signer: bool)

  datatype ParsedTransaction = ParsedTransaction(
    slot: int, accountKeys: seq<AccountKey>, instructions: seq<ParsedInstruction>,
    innerInstructions: seq<seq<ParsedInstruction>>, failed: bool)

  datatype Memo = Memo(text: string, signers: seq<string>)

  /** A burn reduced to the fields the stamp rule depends on. */
  datatype ObservedBurn = ObservedBurn(
    signature: string, slot: int, finalized: bool, failed: bool, mint: string, amountBase: Digits,
    decimals: Option<int>, authority: string, memos: seq<Memo>)

  datatype BurnInstruction = BurnInstruction(mint: string, amount: Digits, decimals: Option<int>, authority: string)

  const TOKEN_PROGRAM_IDS := {
    "TokenkegQfeZyiNwAJbNbGKPFXCWuBvf9Ss623VQ5DA", "TokenzQdBNbLqP5VEhdkAS6EPFLC1PHnBqCXEpPxuEb" }
  const MEMO_PROGRAM_IDS := {
    "Memo1UhkJRfHyvLMcVucJwxXeuD728EqVDDwQDxFMNo", "MemoSq4gqABAXKb96qnH8TysNcWxMyWCqXgDLGmfcHr" }

  function Flatten<A>(parts: seq<seq<A>>): seq<A> {
    if parts == [] then [] else parts[0] + Flatten(parts[1..])
  }

  /** Inner instructions too: a burn invoked by another program appears only there. */
  function AllInstructions(tx: ParsedTransaction): seq<ParsedInstruction> {
    tx.instructions + Flatten(tx.innerInstructions)
  }

  function FirstText(a: Option<string>, b: Option<string>): string {
    match a
    case Some(text) => text
    case None => match b case Some(text) => text case None => ""
  }

  function ReadBurn(instruction: ParsedInstruction): Option<BurnInstruction> {
    if instruction.programId !in TOKEN_PROGRAM_IDS then None
    else match instruction.parsed
      case ObjectParsed(kind, Some(info)) =>
        var mint, authority := FirstText(info.mint, None), FirstText(info.authority, info.multisigAuthority);
        if kind != "burn" && kind != "burnChecked" then None
        else if mint == "" || authority == "" then None
        else if kind == "burnChecked" then (
          match info.tokenAmount
          case Some(TokenAmount(Some(amount), decimals)) => Some(BurnInstruction(mint, amount, decimals, authority))
          case _ => None)
        else (
          match info.amount
          case Some(amount) => Some(BurnInstruction(mint, amount, None, authority))
          case None => None)
      case _ => None
  }

  function Signers(keys: seq<AccountKey>): seq<string> {
    if keys == [] then []
    else (if keys[0].signer then [keys[0].pubkey] else []) + Signers(keys[1..])
  }

  function Memos(instructions: seq<ParsedInstruction>, signers: seq<string>): seq<Memo> {
    if instructions == [] then []
    else
      (if instructions[0].programId in MEMO_PROGRAM_IDS && instructions[0].parsed.TextParsed?
       then [Memo(instructions[0].parsed.text, signers)] else [])
      + Memos(instructions[1..], signers)
  }

  /** The burn instructions found, in order. */
  function Burns(instructions: seq<ParsedInstruction>): seq<BurnInstruction> {
    if instructions == [] then []
    else
      Burns(instructions[..|instructions| - 1])
      + match ReadBurn(instructions[|instructions| - 1]) case None => [] case Some(b) => [b]
  }

  /** Base units of a mint these instructions destroy. */
  function Destroyed(burns: seq<BurnInstruction>, mint: string): nat {
    if burns == [] then 0
    else
      Destroyed(burns[..|burns| - 1], mint)
      + var b := burns[|burns| - 1]; if b.mint == mint then Text.Numeral(b.amount) else 0
  }

  predicate Destroys(burns: seq<BurnInstruction>, mint: string) {
    exists i | 0 <= i < |burns| :: burns[i].mint == mint
  }

  /* ---------- the map the reader builds ---------- */

  /** An insertion-ordered map from mint to record. */
  datatype Tally = Tally(order: seq<string>, byMint: map<string, ObservedBurn>)

  function FreshRecord(signature: string, tx: ParsedTransaction, finalized: bool, memos: seq<Memo>,
                       b: BurnInstruction): ObservedBurn
  {
    ObservedBurn(signature, tx.slot, finalized, tx.failed, b.mint, b.amount, b.decimals, b.authority, memos)
  }

  /** The first burn of a mint opens its record; later ones add to the amount. */
  function AddBurn(t: Tally, record: ObservedBurn): Tally {
    if record.mint in t.byMint then
      var existing := t.byMint[record.mint];
      var total := Text.Decimal(Text.Numeral(existing.amountBase) + Text.Numeral(record.amountBase));
      t.(byMint := t.byMint[record.mint := existing.(amountBase := total)])
    else Tally(t.order + [record.mint], t.byMint[record.mint := record])
  }

  function TallyOf(signature: string, tx: ParsedTransaction, finalized: bool, memos: seq<Memo>,
                   burns: seq<BurnInstruction>): Tally
  {
    if burns == [] then Tally([], map[])
    else AddBurn(TallyOf(signature, tx, finalized, memos, burns[..|burns| - 1]),
                 FreshRecord(signature, tx, finalized, memos, burns[|burns| - 1]))
  }

  ghost predicate TallyOk(t: Tally) {
    && (forall m :: m in t.order <==> m in t.byMint)
    && (forall i, j | 0 <= i < j < |t.order| :: t.order[i] != t.order[j])
  }

  function Values(t: Tally): seq<ObservedBurn>
    requires forall m | m in t.order :: m in t.byMint
  {
    seq(|t.order|, i requires 0 <= i < |t.order| => t.byMint[t.order[i]])
  }

  predicate MintLess(a: ObservedBurn, b: ObservedBurn) {
    StringLess(a.mint, b.mint)
  }

  /** The record of mint m after these burns. */
  ghost predicate Records(signature: string, tx: ParsedTransaction, finalized: bool, memos: seq<Memo>,
                          burns: seq<BurnInstruction>, m: string, r: ObservedBurn) {
    && r.mint == m && Text.Numeral(r.amountBase) == Destroyed(burns, m)
    && r.signature == signature && r.finalized == finalized && r.failed == tx.failed && r.memos == memos
  }

  lemma AddBurnRecords(signature: string, tx: ParsedTransaction, finalized: bool, memos: seq<Memo>,
                       front: seq<BurnInstruction>, last: BurnInstruction, t: Tally, m: string)
    requires forall k | k in t.byMint :: Records(signature, tx, finalized, memos, front, k, t.byMint[k])
    requires last.mint in t.byMint || Destroyed(front, last.mint) == 0
    requires m in AddBurn(t, FreshRecord(signature, tx, finalized, memos, last)).byMint
    ensures Records(signature, tx, finalized, memos, front + [last], m,
                    AddBurn(t, FreshRecord(signature, tx, finalized, memos, last)).byMint[m])
  {
    assert (front + [last])[..|front|] == front;
    if m == last.mint && m in t.byMint {
      Text.DecimalRoundTrip(Text.Numeral(t.byMint[m].amountBase) + Text.Numeral(last.amount));
    }
  }

  lemma DestroysLast(front: seq<BurnInstruction>, last: BurnInstruction, m: string)
    ensures Destroys(front + [last], m) <==> Destroys(front, m) || last.mint == m
  {
    var burns := front + [last];
    assert burns[|front|] == last;
    if Destroys(front, m) { var i :| 0 <= i < |front| && front[i].mint == m; assert burns[i].mint == m; }
  }

  lemma {:induction false} TallyInvariant(signature: string, tx: ParsedTransaction, finalized: bool, memos: seq<Memo>,
                                          burns: seq<BurnInstruction>)
    ensures var t := TallyOf(signature, tx, finalized, memos, burns);
      && TallyOk(t)
      && (forall m :: m in t.byMint <==> Destroys(burns, m))
      && (forall m | m in t.byMint :: Records(signature, tx, finalized, memos, burns, m, t.byMint[m]))
  {
    if burns != [] {
      var front, last := burns[..|burns| - 1], burns[|burns| - 1];
      TallyInvariant(signature, tx, finalized, memos, front);
      var before := TallyOf(signature, tx, finalized, memos, front);
      assert burns == front + [last];
      forall m ensures Destroys(burns, m) <==> Destroys(front, m) || last.mint == m {
        DestroysLast(front, last, m);
      }
      if last.mint !in before.byMint { NothingDestroyed(front, last.mint); }
      forall m | m in TallyOf(signature, tx, finalized, memos, burns).byMint
        ensures Records(signature, tx, finalized, memos, burns, m,
                        TallyOf(signature, tx, finalized, memos, burns).byMint[m])
      {
        AddBurnRecords(signature, tx, finalized, memos, front, last, before, m);
      }
    }
  }

  lemma {:induction false} NothingDestroyed(burns: seq<BurnInstruction>, mint: string)
    requires !Destroys(burns, mint)
    ensures Destroyed(burns, mint) == 0
  {
    if burns != [] {
      var front := burns[..|burns| - 1];
      assert burns == front + [burns[|burns| - 1]];
      DestroysLast(front, burns[|burns| - 1], mint);
      NothingDestroyed(front, mint);
    }
  }

  /** One record per mint destroyed, in mint order. */
  function DecodedBurns(signature: string, tx: ParsedTransaction, finalized: bool): seq<ObservedBurn> {
    var instructions := AllInstructions(tx);
    var memos := Memos(instructions, Signers(tx.accountKeys));
    TallyInvariant(signature, tx, finalized, memos, Burns(instructions));
    Sort(MintLess, Values(TallyOf(signature, tx, finalized, memos, Burns(instructions))))
  }

  lemma TallyLast(signature: string, tx: ParsedTransaction, finalized: bool, memos: seq<Memo>,
                  front: seq<ParsedInstruction>, last: ParsedInstruction)
    ensures var before := TallyOf(signature, tx, finalized, memos, Burns(front));
      TallyOf(signature, tx, finalized, memos, Burns(front + [last]))
      == match ReadBurn(last)
         case None => before
         case Some(b) => AddBurn(before, FreshRecord(signature, tx, finalized, memos, b))
  {
    assert (front + [last])[..|front|] == front;
    match ReadBurn(last)
    case None => assert Burns(front) + [] == Burns(front);
    case Some(b) => assert (Burns(front) + [b])[..|Burns(front)|] == Burns(front);
  }

  method TallyBurns(signature: string, tx: ParsedTransaction, finalized: bool, memos: seq<Memo>,
                    instructions: seq<ParsedInstruction>)
    returns (order: seq<string>, byMint: map<string, ObservedBurn>)
    ensures Tally(order, byMint) == TallyOf(signature, tx, finalized, memos, Burns(instructions))
  {
    order, byMint := [], map[];
    for i := 0 to |instructions|
      invariant Tally(order, byMint) == TallyOf(signature, tx, finalized, memos, Burns(instructions[..i]))
    {
      var burn := ReadBurn(instructions[i]);
      TakeNext(instructions, i);
      TallyLast(signature, tx, finalized, memos, instructions[..i], instructions[i]);
      if burn.None? {
        continue;
      }
      var record := FreshRecord(signature, tx, finalized, memos, burn.value);
      if record.mint in byMint {
        var existing := byMint[record.mint];
        var total := Text.Decimal(Text.Numeral(existing.amountBase) + Text.Numeral(record.amountBase));
        byMint := byMint[record.mint := existing.(amountBase := total)];
        continue;
      }
      order := order + [record.mint];
      byMint := byMint[record.mint := record];
    }
    assert instructions[..|instructions|] == instructions;
  }

  method DecodeBurns(signature: string, tx: ParsedTransaction, finalized: bool) returns (out: seq<ObservedBurn>)
    ensures out == DecodedBurns(signature, tx, finalized)
  {
    var instructions := AllInstructions(tx);
    var memos := Memos(instructions, Signers(tx.accountKeys));
    var order, byMint := TallyBurns(signature, tx, finalized, memos, instructions);
    TallyInvariant(signature, tx, finalized, memos, Burns(instructions));
    out := Sort(MintLess, Values(Tally(order, byMint)));
  }

  /** Exactly one record per mint destroyed, for exactly the sum of that mint's burn instructions. */
  lemma OneRecordPerMint(signature: string, tx: ParsedTransaction, finalized: bool)
    ensures var out, burns := DecodedBurns(signature, tx, finalized), Burns(AllInstructions(tx));
      && (forall b | b in out ::
            && b.signature == signature && b.finalized == finalized && b.failed == tx.failed
            && Destroys(burns, b.mint) && Text.Numeral(b.amountBase) == Destroyed(burns, b.mint))
      && (forall m | Destroys(burns, m) :: exists b :: b in out && b.mint == m)
      && (forall i, j | 0 <= i < j < |out| :: out[i].mint != out[j].mint)
  {
    var burns := Burns(AllInstructions(tx));
    var memos := Memos(AllInstructions(tx), Signers(tx.accountKeys));
    TallyInvariant(signature, tx, finalized, memos, burns);
    var t := TallyOf(signature, tx, finalized, memos, burns);
    var values, out := Values(t), DecodedBurns(signature, tx, finalized);
    SortElements(MintLess, values);
    ValuesListed(t);
    forall b | b in out ensures Destroys(burns, b.mint) && Records(signature, tx, finalized, memos, burns, b.mint, b) {
      assert b in values;
    }
    forall m | Destroys(burns, m) ensures exists b :: b in out && b.mint == m {
      assert t.byMint[m] in values;
    }
    SortMultiset(MintLess, values);
    DistinctStays(values, out);
  }

  /** The record of a mint that was burned. */
  lemma RecordOf(signature: string, tx: ParsedTransaction, finalized: bool, mint: string) returns (b: ObservedBurn)
    requires Destroys(Burns(AllInstructions(tx)), mint)
    ensures b in DecodedBurns(signature, tx, finalized) && b.mint == mint
  {
    var burns, memos := Burns(AllInstructions(tx)), Memos(AllInstructions(tx), Signers(tx.accountKeys));
    TallyInvariant(signature, tx, finalized, memos, burns);
    var t := TallyOf(signature, tx, finalized, memos, burns);
    ValuesListed(t);
    SortElements(MintLess, Values(t));
    b := t.byMint[mint];
  }

  /** The listed values are the map's, one for each key and under its own mint. */
  lemma ValuesListed(t: Tally)
    requires TallyOk(t) && forall m | m in t.byMint :: t.byMint[m].mint == m
    ensures forall b | b in Values(t) :: b.mint in t.byMint && t.byMint[b.mint] == b
    ensures forall m | m in t.byMint :: t.byMint[m] in Values(t) && t.byMint[m].mint == m
    ensures forall i, j | 0 <= i < j < |Values(t)| :: Values(t)[i].mint != Values(t)[j].mint
  {
    var values := Values(t);
    forall b | b in values ensures b.mint in t.byMint && t.byMint[b.mint] == b {
      var i :| 0 <= i < |values| && values[i] == b;
      assert t.order[i] in t.byMint;
    }
    forall m | m in t.byMint ensures t.byMint[m] in values && t.byMint[m].mint == m {
      var i :| 0 <= i < |t.order| && t.order[i] == m;
      assert values[i] in values;
    }
    forall i, j | 0 <= i < j < |values| ensures values[i].mint != values[j].mint {
      assert t.order[i] in t.byMint && t.order[j] in t.byMint;
    }
  }

  /** Rearranging a list whose records have different mints keeps them different. */
  lemma DistinctStays(a: seq<ObservedBurn>, b: seq<ObservedBurn>)
    requires multiset(a) == multiset(b)
    requires forall i, j | 0 <= i < j < |a| :: a[i].mint != a[j].mint
    ensures forall i, j | 0 <= i < j < |b| :: b[i].mint != b[j].mint
  {
    SameElements(a, b);
    forall i, j | 0 <= i < j < |b| ensures b[i].mint != b[j].mint {
      Sums.DistinctCount(a, b[i]);
      if b[i] == b[j] {
        TwiceCounts(b, i, j);
      } else {
        assert b[i] in a && b[j] in a;
      }
    }
  }

  lemma TwiceCounts<A>(s: seq<A>, i: nat, j: nat)
    requires i < j < |s| && s[i] == s[j]
    ensures multiset(s)[s[i]] >= 2
  {
    assert s == s[..j] + s[j..];
    assert s[i] in s[..j] && s[j..][0] == s[j];
    assert s[i] in multiset(s[..j]) && s[j] in multiset(s[j..]);
  }
}
