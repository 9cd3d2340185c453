/** What the claiming rule asks of an inscription, told from the inscription, the burns and the options alone. */
module Eligibility {
  import opened Bytes
  import opened Ordering
  import opened SolanaBurns
  import opened Inscriptions
  import opened InscriptionRules
  import Sums

  /* ---------- scripts as hex ---------- */

  predicate SpellsByte(hi: char, lo: char, b: Byte) {
    HexValue(hi) >= 0 && HexValue(lo) >= 0 && b == 16 * HexValue(hi) + HexValue(lo)
  }

  /** Two digits of either case for each byte. */
  predicate Spells(hex: string, b: Bytes) {
    |hex| == 2 * |b| && forall i | 0 <= i < |b| :: SpellsByte(hex[2 * i], hex[2 * i + 1], b[i])
  }

  lemma SpellsFirst(hex: string, b: Bytes)
    requires |hex| >= 2 && b != []
    ensures Spells(hex, b) <==> Spells(hex[2..], b[1..]) && SpellsByte(hex[0], hex[1], b[0])
  {
    var h, c := hex[2..], b[1..];
    assert |hex| == 2 * |b| ==> forall i | 0 <= i < |c| ::
      c[i] == b[i + 1] && h[2 * i] == hex[2 * (i + 1)] && h[2 * i + 1] == hex[2 * (i + 1) + 1];
    if Spells(h, c) && SpellsByte(hex[0], hex[1], b[0]) {
      forall i | 0 <= i < |b| ensures SpellsByte(hex[2 * i], hex[2 * i + 1], b[i]) {
        if i > 0 { assert SpellsByte(h[2 * (i - 1)], h[2 * (i - 1) + 1], c[i - 1]); }
      }
    }
    if Spells(hex, b) {
      forall i | 0 <= i < |c| ensures SpellsByte(h[2 * i], h[2 * i + 1], c[i]) {
        assert SpellsByte(hex[2 * (i + 1)], hex[2 * (i + 1) + 1], b[i + 1]);
      }
    }
  }

  lemma FromHexFirst(hex: string, b: Bytes)
    requires |hex| >= 2 && b != []
    ensures FromHex(hex) == Some(b) <==> FromHex(hex[2..]) == Some(b[1..]) && SpellsByte(hex[0], hex[1], b[0])
  {
    assert b == [b[0]] + b[1..];
  }

  lemma {:induction false} FromHexIff(hex: string, b: Bytes)
    ensures FromHex(hex) == Some(b) <==> Spells(hex, b)
    decreases |hex|
  {
    if |hex| >= 2 && b != [] {
      FromHexIff(hex[2..], b[1..]);
      FromHexFirst(hex, b);
      SpellsFirst(hex, b);
    }
  }

  /** The text names these bytes, at least one, after an optional 0x. */
  predicate NamesScript(text: string, b: Bytes) {
    b != [] && if |text| >= 2 && text[0] == '0' && text[1] == 'x' then Spells(text[2..], b) else Spells(text, b)
  }

  lemma ScriptBytesIff(text: string, b: Bytes)
    ensures ScriptBytes(text) == Some(b) <==> NamesScript(text, b)
  {
    var head := text[..Min(2, |text|)];
    assert head == "0x" <==> |text| >= 2 && text[0] == '0' && text[1] == 'x' by {
      if |text| >= 2 && text[0] == '0' && text[1] == 'x' { assert head == [text[0], text[1]]; }
      if head == "0x" { assert head[0] == '0' && head[1] == 'x'; }
    }
    FromHexIff(if head == "0x" then text[2..] else text, b);
  }

  /* ---------- memos ---------- */

  predicate AllBlank(s: string) { forall c | c in s :: IsBlank(c) }

  /** The text is the address with nothing but blanks around it. */
  predicate SurroundedBy(text: string, before: nat, to: string) {
    && before + |to| <= |text| && text[before..before + |to|] == to
    && AllBlank(text[..before]) && AllBlank(text[before + |to|..])
    && (to == "" || (!IsBlank(to[0]) && !IsBlank(to[|to| - 1])))
  }

  ghost predicate Trims(text: string, to: string) { exists before: nat :: SurroundedBy(text, before, to) }

  lemma {:induction false} TrimStartFacts(s: string)
    ensures var t := TrimStart(s);
            && |t| <= |s| && s[|s| - |t|..] == t && AllBlank(s[..|s| - |t|]) && (t != "" ==> !IsBlank(t[0]))
  {
    if s != "" && IsBlank(s[0]) {
      TrimStartFacts(s[1..]);
      var t := TrimStart(s);
      assert s[1..][|s[1..]| - |t|..] == s[|s| - |t|..];
      assert s[..|s| - |t|] == [s[0]] + s[1..][..|s[1..]| - |t|];
    }
  }

  lemma {:induction false} TrimEndFacts(s: string)
    ensures var t := TrimEnd(s);
            && |t| <= |s| && s[..|t|] == t && AllBlank(s[|t|..]) && (t != "" ==> !IsBlank(t[|t| - 1]))
  {
    if s != "" && IsBlank(s[|s| - 1]) {
      TrimEndFacts(s[..|s| - 1]);
      var t := TrimEnd(s);
      assert s[..|s| - 1][..|t|] == s[..|t|];
      assert s[|t|..] == s[..|s| - 1][|t|..] + [s[|s| - 1]];
    }
  }

  lemma TrimSurrounds(text: string)
    ensures Trims(text, Trim(text))
  {
    var s := TrimStart(text);
    var t := TrimEnd(s);
    TrimStartFacts(text);
    TrimEndFacts(s);
    var before := |text| - |s|;
    assert text[before..before + |t|] == s[..|t|];
    assert text[before + |t|..] == s[|t|..];
    if t != "" { assert t[0] == s[0]; }
    assert SurroundedBy(text, before, t);
  }

  /** Nothing else is left of a text when its blanks are trimmed. */
  lemma TrimmedOnce(text: string, i: nat, a: string, j: nat, b: string)
    requires SurroundedBy(text, i, a) && SurroundedBy(text, j, b)
    ensures a == b
  {
    if a == "" {
      NothingLeft(text, i, j, b);
    } else if b == "" {
      NothingLeft(text, j, i, a);
    } else {
      Solid(text, i, a);
      Solid(text, j, b);
    }
  }

  lemma BlankAt(s: string, k: nat)
    requires AllBlank(s) && k < |s|
    ensures IsBlank(s[k])
  {
    assert s[k] in s;
  }

  lemma Whole(text: string, i: nat)
    requires SurroundedBy(text, i, "")
    ensures AllBlank(text)
  {
    assert text == text[..i] + text[i..];
  }

  lemma NothingLeft(text: string, i: nat, j: nat, b: string)
    requires SurroundedBy(text, i, "") && SurroundedBy(text, j, b)
    ensures b == ""
  {
    Whole(text, i);
    forall k | 0 <= k < |text| ensures IsBlank(text[k]) { BlankAt(text, k); }
    if b != "" { Solid(text, j, b); }
  }

  /** What is left starts and ends where the text is not blank. */
  lemma Solid(text: string, i: nat, a: string)
    requires SurroundedBy(text, i, a) && a != ""
    ensures forall k | 0 <= k < i :: IsBlank(text[k])
    ensures forall k | i + |a| <= k < |text| :: IsBlank(text[k])
    ensures !IsBlank(text[i]) && !IsBlank(text[i + |a| - 1])
  {
    assert text[i..i + |a|][0] == a[0] && text[i..i + |a|][|a| - 1] == a[|a| - 1];
    forall k | 0 <= k < i ensures IsBlank(text[k]) { BlankAt(text[..i], k); }
    forall k | i + |a| <= k < |text| ensures IsBlank(text[k]) { BlankAt(text[i + |a|..], k - i - |a|); }
  }

  lemma TrimIff(text: string, to: string)
    ensures Trim(text) == to <==> Trims(text, to)
  {
    TrimSurrounds(text);
    if Trims(text, to) {
      var i: nat :| SurroundedBy(text, i, Trim(text));
      var j: nat :| SurroundedBy(text, j, to);
      TrimmedOnce(text, i, Trim(text), j, to);
    }
  }

  /** One of the burn's own memos is the address, and the authority signed it. */
  ghost predicate NamedBy(burn: ObservedBurn, to: string) {
    exists k :: 0 <= k < |burn.memos| && Trims(burn.memos[k].text, to) && burn.authority in burn.memos[k].signers
  }

  lemma {:induction false} AuthorizedIff(memos: seq<Memo>, authority: string, to: string)
    ensures Authorized(memos, authority, to)
            <==> exists k :: 0 <= k < |memos| && Trims(memos[k].text, to) && authority in memos[k].signers
  {
    if memos != [] {
      TrimIff(memos[0].text, to);
      AuthorizedIff(memos[1..], authority, to);
      if k :| 0 <= k < |memos[1..]| && Trims(memos[1..][k].text, to) && authority in memos[1..][k].signers {
        assert memos[k + 1] == memos[1..][k];
      }
      if k :| 0 <= k < |memos| && Trims(memos[k].text, to) && authority in memos[k].signers {
        if k > 0 { assert memos[1..][k - 1] == memos[k]; }
      }
    }
  }

  /* ---------- payments and burns ---------- */

  function PaidTo(to: string): Payment -> int { (p: Payment) => if p.address == to then p.zatoshis else 0 }

  lemma {:induction false} DeliveredIsSum(outputs: seq<Payment>, to: string)
    ensures DeliveredTo(outputs, to) == Sums.Sum(PaidTo(to), outputs)
  {
    if outputs != [] { DeliveredIsSum(outputs[..|outputs| - 1], to); }
  }

  predicate Cites(payload: StampPayload, b: ObservedBurn) { b.signature == payload.burn && b.mint == payload.mint }

  /** Burn i is the first listed with the signature and mint the payload cites. */
  predicate FirstCited(burns: seq<ObservedBurn>, payload: StampPayload, i: nat) {
    i < |burns| && Cites(payload, burns[i]) && forall j | 0 <= j < i :: !Cites(payload, burns[j])
  }

  lemma {:induction false} FirstOfMintAppend(a: seq<ObservedBurn>, b: seq<ObservedBurn>, mint: string)
    ensures FirstOfMint(a + b, mint) == if FirstOfMint(a, mint).Some? then FirstOfMint(a, mint)
                                        else FirstOfMint(b, mint)
  {
    if a == [] {
      assert a + b == b;
    } else {
      assert (a + b)[1..] == a[1..] + b;
      FirstOfMintAppend(a[1..], b, mint);
    }
  }

  /** The first burn so cited, and what one more burn changes. */
  function Found(burns: seq<ObservedBurn>, payload: StampPayload): Option<ObservedBurn> {
    FirstOfMint(Filter(WithSignature(payload.burn), burns), payload.mint)
  }

  lemma FoundLast(front: seq<ObservedBurn>, last: ObservedBurn, payload: StampPayload)
    ensures Found(front + [last], payload)
            == if Found(front, payload).Some? then Found(front, payload)
               else if Cites(payload, last) then Some(last) else None
  {
    var kept := Filter(WithSignature(payload.burn), front);
    assert (front + [last])[..|front|] == front;
    FirstOfMintAppend(kept, [last], payload.mint);
    assert kept + [] == kept;
    assert [last][1..] == [] && FirstOfMint([], payload.mint) == None;
  }

  lemma CitedLast(front: seq<ObservedBurn>, last: ObservedBurn, payload: StampPayload, i: nat)
    ensures FirstCited(front + [last], payload, i)
            <==> FirstCited(front, payload, i)
                 || (i == |front| && Cites(payload, last) && forall j | 0 <= j < i :: !Cites(payload, front[j]))
  {
    var burns := front + [last];
    assert burns[|front|] == last && forall j | 0 <= j < |front| :: burns[j] == front[j];
  }

  /** Selecting by signature, then by mint, finds the first burn with both. */
  lemma {:induction false} FoundFirst(burns: seq<ObservedBurn>, payload: StampPayload)
    ensures Found(burns, payload).None? <==> forall j | 0 <= j < |burns| :: !Cites(payload, burns[j])
    ensures Found(burns, payload).Some?
            ==> exists i: nat :: FirstCited(burns, payload, i) && burns[i] == Found(burns, payload).value
  {
    if burns != [] {
      var n := |burns| - 1;
      var front, last := burns[..n], burns[n];
      assert burns == front + [last];
      FoundFirst(front, payload);
      FoundLast(front, last, payload);
      if Found(front, payload).Some? {
        var i: nat :| FirstCited(front, payload, i) && front[i] == Found(front, payload).value;
        CitedLast(front, last, payload, i);
        assert burns[i] == front[i];
      } else {
        CitedLast(front, last, payload, n);
      }
    }
  }

  lemma FoundIff(burns: seq<ObservedBurn>, payload: StampPayload, i: nat)
    requires i < |burns|
    ensures FirstCited(burns, payload, i) ==> Found(burns, payload) == Some(burns[i])
  {
    FoundFirst(burns, payload);
    if FirstCited(burns, payload, i) {
      var k: nat :| FirstCited(burns, payload, k) && burns[k] == Found(burns, payload).value;
      assert k == i;
    }
  }

  /* ---------- the rule ---------- */

  /** Burn i of the options is one the payload may claim. */
  ghost predicate Backs(o: IndexOptions, payload: StampPayload, i: nat) {
    && FirstCited(o.burns, payload, i)
    && o.burns[i].finalized && !o.burns[i].failed && o.burns[i].amountBase == payload.amt
    && NamedBy(o.burns[i], payload.to)
  }

  /** Everything asked of an inscription but that nobody came before it. */
  ghost predicate Qualifies(o: IndexOptions, item: ObservedInscription, a: AcceptedStamp) {
    && a.id == item.txid && a.height == item.height
    && (exists script :: NamesScript(item.scriptSigHex, script) && o.decodeStamp(script) == Some(a.payload))
    && a.payload.p in o.acceptProtocols && item.height <= o.tipHeight - o.minConfirmations + 1
    && (exists i: nat :: Backs(o, a.payload, i) && a.burn == o.burns[i])
    && a.deliveredZatoshis == Sums.Sum(PaidTo(a.payload.to), item.outputs) && a.deliveredZatoshis > 0
  }

  lemma ReadsIff(o: IndexOptions, text: string, payload: StampPayload)
    ensures (ScriptBytes(text).Some? && o.decodeStamp(ScriptBytes(text).value) == Some(payload))
            <==> exists script :: NamesScript(text, script) && o.decodeStamp(script) == Some(payload)
  {
    if ScriptBytes(text).Some? { ScriptBytesIff(text, ScriptBytes(text).value); }
    if script :| NamesScript(text, script) && o.decodeStamp(script) == Some(payload) { ScriptBytesIff(text, script); }
  }

  /** The burn-side checks pass exactly for the first burn cited, if it backs the payload and the output is paid. */
  lemma ChecksIff(o: IndexOptions, item: ObservedInscription, payload: StampPayload, a: AcceptedStamp)
    ensures AssessCandidates(Filter(WithSignature(payload.burn), o.burns), item, payload) == Eligible(a)
            <==> && a.payload == payload && a.id == item.txid && a.height == item.height
                 && (exists i: nat :: Backs(o, payload, i) && a.burn == o.burns[i])
                 && a.deliveredZatoshis == Sums.Sum(PaidTo(payload.to), item.outputs) && a.deliveredZatoshis > 0
  {
    var found := Found(o.burns, payload);
    DeliveredIsSum(item.outputs, payload.to);
    FoundFirst(o.burns, payload);
    if found.Some? { AuthorizedIff(found.value.memos, found.value.authority, payload.to); }
    if i: nat :| Backs(o, payload, i) && a.burn == o.burns[i] { FoundIff(o.burns, payload, i); }
  }

  /** An inscription is eligible exactly if it qualifies. */
  lemma EligibleIff(o: IndexOptions, item: ObservedInscription, a: AcceptedStamp)
    ensures Assess(o, item) == Eligible(a) <==> Qualifies(o, item, a)
  {
    GroupHasSignature(o.burns, a.payload.burn);
    ReadsIff(o, item.scriptSigHex, a.payload);
    ChecksIff(o, item, a.payload, a);
    AssessReads(o, item, a);
  }

  lemma AssessReads(o: IndexOptions, item: ObservedInscription, a: AcceptedStamp)
    ensures Assess(o, item) == Eligible(a)
            <==> && ScriptBytes(item.scriptSigHex).Some?
                 && o.decodeStamp(ScriptBytes(item.scriptSigHex).value) == Some(a.payload)
                 && a.payload.p in o.acceptProtocols && item.height <= o.tipHeight - o.minConfirmations + 1
                 && AssessCandidates(GroupFor(Grouped(o.burns), a.payload.burn), item, a.payload) == Eligible(a)
  {
    if Assess(o, item) == Eligible(a) { PayloadKept(o, item, a); }
  }

  lemma PayloadKept(o: IndexOptions, item: ObservedInscription, a: AcceptedStamp)
    requires Assess(o, item) == Eligible(a)
    ensures ScriptBytes(item.scriptSigHex).Some?
    ensures o.decodeStamp(ScriptBytes(item.scriptSigHex).value) == Some(a.payload)
  {
  }

  /* ---------- acceptance ---------- */

  /** Lower on the chain, or in the same block with the smaller id. */
  predicate Earlier(x: ObservedInscription, y: ObservedInscription) {
    x.height < y.height || (x.height == y.height && StringLess(x.txid, y.txid))
  }

  lemma EarlierIsBefore(x: ObservedInscription, y: ObservedInscription)
    ensures Before(x, y) <==> Earlier(x, y)
  {
    StringOrder(x.txid, y.txid);
  }

  /** A stamp is accepted exactly if some inscription qualifies for it and no earlier one qualifies for its burn. */
  lemma AcceptedExactly(o: IndexOptions, a: AcceptedStamp)
    requires DistinctItems(o.inscriptions) && FirstClaimsCount(Judgement(o), Sort(Before, o.inscriptions))
    ensures a in Index(o).accepted
            <==> exists x :: x in o.inscriptions && Qualifies(o, x, a) && FirstToClaim(o, x, a.payload.burn)
  {
    if a in Index(o).accepted {
      AcceptedComeFromInscriptions(o, a);
      var x :| x in o.inscriptions && Assess(o, x) == Eligible(a);
      AcceptedIff(o, x);
      EligibleIff(o, x, a);
      UncontestedIff(o, x, a);
    }
    if x :| x in o.inscriptions && Qualifies(o, x, a) && FirstToClaim(o, x, a.payload.burn) {
      EligibleIff(o, x, a);
      AcceptedIff(o, x);
      UncontestedIff(o, x, a);
    }
  }

  /** No inscription earlier than x qualifies for the burn. */
  ghost predicate FirstToClaim(o: IndexOptions, x: ObservedInscription, burn: string) {
    forall y, b | y in o.inscriptions && Earlier(y, x) && Qualifies(o, y, b) :: b.payload.burn != burn
  }

  lemma UncontestedIff(o: IndexOptions, x: ObservedInscription, a: AcceptedStamp)
    requires Assess(o, x) == Eligible(a)
    ensures Uncontested(Judgement(o), o.inscriptions, x) <==> FirstToClaim(o, x, a.payload.burn)
  {
    forall y ensures Before(y, x) <==> Earlier(y, x) { EarlierIsBefore(y, x); }
    forall y, b ensures Assess(o, y) == Eligible(b) <==> Qualifies(o, y, b) { EligibleIff(o, y, b); }
    if FirstToClaim(o, x, a.payload.burn) {
      forall y | y in o.inscriptions && Before(y, x) && Judgement(o)(y).Eligible?
        ensures Judgement(o)(y).stamp.payload.burn != a.payload.burn
      {
        assert Qualifies(o, y, Assess(o, y).stamp);
      }
    }
  }

  /** A hex digit is its value in either case, and nothing else is one. */
  lemma HexValueIff(c: char, v: int)
    requires 0 <= v < 16
    ensures HexValue(c) == v <==> c == "0123456789abcdef"[v] || c == "0123456789ABCDEF"[v]
  {
    HexLetters(v);
  }

  lemma HexLetters(v: int)
    requires 0 <= v < 16
    ensures "0123456789abcdef"[v] as int == if v < 10 then 48 + v else 87 + v
    ensures "0123456789ABCDEF"[v] as int == if v < 10 then 48 + v else 55 + v
  {
  }

  /* ---------- the record of claims ---------- */

  /** Stamp i is the last accepted that cites the burn. */
  predicate LastCiting(accepted: seq<AcceptedStamp>, burn: string, i: nat) {
    i < |accepted| && accepted[i].payload.burn == burn
    && forall j | i < j < |accepted| :: accepted[j].payload.burn != burn
  }

  /** The record names, for exactly the burns accepted stamps cite, the last such stamp. */
  ghost predicate ClaimsOf(accepted: seq<AcceptedStamp>, claimed: map<string, string>) {
    && (forall a | a in accepted :: a.payload.burn in claimed)
    && forall burn | burn in claimed ::
         exists i: nat :: LastCiting(accepted, burn, i) && claimed[burn] == accepted[i].id
  }

  lemma ClaimNext(accepted: seq<AcceptedStamp>, claimed: map<string, string>, a: AcceptedStamp)
    requires ClaimsOf(accepted, claimed)
    ensures ClaimsOf(accepted + [a], claimed[a.payload.burn := a.id])
  {
    var more, next := accepted + [a], claimed[a.payload.burn := a.id];
    forall burn | burn in next ensures exists i: nat :: LastCiting(more, burn, i) && next[burn] == more[i].id {
      if burn == a.payload.burn {
        assert LastCiting(more, burn, |accepted|);
      } else {
        var i: nat :| LastCiting(accepted, burn, i) && claimed[burn] == accepted[i].id;
        assert LastCiting(more, burn, i);
      }
    }
  }

  lemma {:induction false} FoldClaims(o: IndexOptions, items: seq<ObservedInscription>)
    ensures var t := Fold(Judgement(o), items); ClaimsOf(t.accepted, t.claimed)
  {
    if items != [] {
      var front, last := items[..|items| - 1], items[|items| - 1];
      FoldClaims(o, front);
      var t, v := Fold(Judgement(o), front), Judgement(o)(last);
      if v.Eligible? && !Taken(t.claimed, v.stamp.payload.burn) {
        EligibleFacts(o, last);
        ClaimNext(t.accepted, t.claimed, v.stamp);
      }
    }
  }

  /** The published record of claims names, for exactly the burns accepted stamps cite, the last such stamp: where first
      claims count, the one. */
  lemma ClaimsRecorded(o: IndexOptions)
    ensures ClaimsOf(Index(o).accepted, Index(o).claimedBurns)
  {
    FoldClaims(o, Sort(Before, o.inscriptions));
  }
}
