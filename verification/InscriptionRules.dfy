/** Who is accepted, and that neither arrival order nor a higher tip rewrites it, nor more is issued than burned. */
module InscriptionRules {
  import opened Bytes
  import opened Ordering
  import opened SolanaBurns
  import opened Inscriptions
  import Sums
  import Text

  type Judge = ObservedInscription -> Verdict

  /* ---------- canonical order ---------- */

  lemma CanonicalOrderIsWeak()
    ensures WeakOrder(Before)
  {
    forall a, b | Before(a, b) ensures !Before(b, a) {
      StringOrder(a.txid, b.txid);
    }
    forall a, b, c | !Before(b, a) && !Before(c, b) ensures !Before(c, a) {
      StringOrder(a.txid, b.txid);
      StringOrder(b.txid, c.txid);
      StringOrder(a.txid, c.txid);
      if StringLess(a.txid, b.txid) && StringLess(b.txid, c.txid) {
        StringLessTransitive(a.txid, b.txid, c.txid);
      }
    }
  }

  ghost predicate DistinctItems(items: seq<ObservedInscription>) {
    forall a, b | a in items && b in items && a != b :: (a.height, a.txid) != (b.height, b.txid)
  }

  lemma DistinctItemsNoTies(items: seq<ObservedInscription>)
    requires DistinctItems(items)
    ensures NoTies(Before, items)
  {
    forall a, b | a in items && b in items && a != b ensures Before(a, b) || Before(b, a) {
      StringOrder(a.txid, b.txid);
    }
  }

  /* ---------- first come, first served ---------- */

  /** y is an eligible claim on the burn that the record of claims can see. */
  predicate Claims(judge: Judge, y: ObservedInscription, burn: string) {
    judge(y).Eligible? && judge(y).stamp.payload.burn == burn && y.txid != ""
  }

  predicate ClaimedBefore(judge: Judge, items: seq<ObservedInscription>, burn: string) {
    exists j | 0 <= j < |items| :: Claims(judge, items[j], burn)
  }

  /** Item i is eligible and nobody before it claimed its burn. */
  predicate Wins(judge: Judge, items: seq<ObservedInscription>, i: nat)
    requires i < |items|
  {
    judge(items[i]).Eligible? && !ClaimedBefore(judge, items[..i], judge(items[i]).stamp.payload.burn)
  }

  lemma ClaimedLast(judge: Judge, front: seq<ObservedInscription>, last: ObservedInscription, burn: string)
    ensures ClaimedBefore(judge, front + [last], burn)
            <==> ClaimedBefore(judge, front, burn) || Claims(judge, last, burn)
  {
    var items := front + [last];
    assert items[|front|] == last;
    if ClaimedBefore(judge, front, burn) {
      var j :| 0 <= j < |front| && Claims(judge, front[j], burn);
      assert Claims(judge, items[j], burn);
    }
  }

  lemma {:induction false} ClaimRecord(judge: Judge, items: seq<ObservedInscription>, burn: string)
    ensures Taken(Fold(judge, items).claimed, burn) <==> ClaimedBefore(judge, items, burn)
  {
    if items != [] {
      var front, last := items[..|items| - 1], items[|items| - 1];
      ClaimRecord(judge, front, burn);
      assert items == front + [last];
      ClaimedLast(judge, front, last, burn);
    }
  }

  /** A stamp is accepted exactly if it is the verdict on a winning item. */
  lemma {:induction false} AcceptedAreWinners(judge: Judge, items: seq<ObservedInscription>, a: AcceptedStamp)
    ensures a in Fold(judge, items).accepted
            <==> exists i | 0 <= i < |items| :: Wins(judge, items, i) && judge(items[i]).stamp == a
  {
    if items != [] {
      var front, last, n := items[..|items| - 1], items[|items| - 1], |items| - 1;
      AcceptedAreWinners(judge, front, a);
      assert forall i | 0 <= i < n :: front[..i] == items[..i];
      if judge(last).Eligible? {
        ClaimRecord(judge, front, judge(last).stamp.payload.burn);
      }
      var before, after := Fold(judge, front).accepted, Fold(judge, items).accepted;
      assert a in after <==> a in before || (Wins(judge, items, n) && judge(last).stamp == a);
      if a in before {
        var i :| 0 <= i < |front| && Wins(judge, front, i) && judge(front[i]).stamp == a;
        assert Wins(judge, items, i);
      }
      if i :| 0 <= i < |items| && Wins(judge, items, i) && judge(items[i]).stamp == a {
        if i < n { assert Wins(judge, front, i) && judge(front[i]).stamp == a; }
      }
    }
  }

  /** An eligible stamp carries its inscription's identity and its burn's mint and amount. */
  lemma EligibleFacts(o: IndexOptions, item: ObservedInscription)
    requires Assess(o, item).Eligible?
    ensures var a := Assess(o, item).stamp;
      && a.id == item.txid && a.height == item.height
      && a.burn in o.burns && a.burn.finalized && !a.burn.failed
      && a.burn.signature == a.payload.burn && a.burn.mint == a.payload.mint && a.burn.amountBase == a.payload.amt
      && item.height <= o.tipHeight - o.minConfirmations + 1
      && a.payload.p in o.acceptProtocols && a.deliveredZatoshis > 0
  {
    var payload := Assess(o, item).stamp.payload;
    var candidates := GroupFor(Grouped(o.burns), payload.burn);
    GroupHasSignature(o.burns, payload.burn);
    FilterElements(WithSignature(payload.burn), o.burns);
    FirstOfMintFacts(candidates, payload.mint);
  }

  lemma {:induction false} FirstOfMintFacts(burns: seq<ObservedBurn>, mint: string)
    ensures FirstOfMint(burns, mint).Some?
            ==> FirstOfMint(burns, mint).value in burns && FirstOfMint(burns, mint).value.mint == mint
    ensures FirstOfMint(burns, mint).None? ==> forall b | b in burns :: b.mint != mint
  {
    if burns != [] {
      FirstOfMintFacts(burns[1..], mint);
      assert burns == [burns[0]] + burns[1..];
    }
  }

  lemma EarlierIndex(items: seq<ObservedInscription>, i: nat, y: ObservedInscription)
    requires Sorted(Before, items) && WeakOrder(Before)
    requires i < |items| && y in items && Before(y, items[i])
    ensures exists j :: 0 <= j < i && items[j] == y
  {
    var j :| 0 <= j < |items| && items[j] == y;
    assert !Before(y, y);
  }

  lemma {:induction false} FirstIndex(items: seq<ObservedInscription>, x: ObservedInscription) returns (i: nat)
    requires x in items
    ensures i < |items| && items[i] == x && x !in items[..i]
  {
    var n := |items| - 1;
    if x in items[..n] {
      i := FirstIndex(items[..n], x);
      assert items[..n][..i] == items[..i];
    } else {
      i := n;
      assert items == items[..n] + [items[n]];
    }
  }

  /** Nobody eligible comes before x with a claim on the same burn. */
  ghost predicate Uncontested(judge: Judge, items: seq<ObservedInscription>, x: ObservedInscription)
    requires judge(x).Eligible?
  {
    forall y | y in items && Before(y, x) && judge(y).Eligible? ::
      judge(y).stamp.payload.burn != judge(x).stamp.payload.burn
  }

  /** Item i is eligible, and no eligible item before it cites its burn. */
  predicate FirstOfBurn(judge: Judge, items: seq<ObservedInscription>, i: nat)
    requires i < |items|
  {
    judge(items[i]).Eligible? && !CitedBefore(judge, items, i, judge(items[i]).stamp.payload.burn)
  }

  predicate CitedBefore(judge: Judge, items: seq<ObservedInscription>, n: nat, burn: string)
    requires n <= |items|
  {
    exists j | 0 <= j < n :: judge(items[j]).Eligible? && judge(items[j]).stamp.payload.burn == burn
  }

  predicate CitedAfter(judge: Judge, items: seq<ObservedInscription>, i: nat, burn: string)
    requires i < |items|
  {
    exists j | i < j < |items| :: judge(items[j]).Eligible? && judge(items[j]).stamp.payload.burn == burn
  }

  /** For each burn, the canonically first eligible inscription citing it has a transaction id, or is the only one. */
  predicate FirstClaimsCount(judge: Judge, items: seq<ObservedInscription>) {
    forall i | 0 <= i < |items| && FirstOfBurn(judge, items, i) ::
      items[i].txid == "" ==> !CitedAfter(judge, items, i, judge(items[i]).stamp.payload.burn)
  }

  /** The first item up to n that cites the burn. */
  lemma {:induction false} FirstCiting(judge: Judge, items: seq<ObservedInscription>, n: nat, burn: string)
    returns (i: nat)
    requires n <= |items| && CitedBefore(judge, items, n, burn)
    ensures i < n && FirstOfBurn(judge, items, i) && judge(items[i]).stamp.payload.burn == burn
  {
    if CitedBefore(judge, items, n - 1, burn) {
      i := FirstCiting(judge, items, n - 1, burn);
    } else {
      i := n - 1;
      var j :| 0 <= j < n && judge(items[j]).Eligible? && judge(items[j]).stamp.payload.burn == burn;
      assert j == n - 1;
    }
  }

  /** Where first claims count, whoever wins is the first of its burn. */
  lemma WinnerIsFirst(judge: Judge, items: seq<ObservedInscription>, i: nat)
    requires FirstClaimsCount(judge, items) && i < |items| && Wins(judge, items, i)
    ensures FirstOfBurn(judge, items, i)
  {
    var burn := judge(items[i]).stamp.payload.burn;
    if CitedBefore(judge, items, i, burn) {
      var first := FirstCiting(judge, items, i, burn);
      assert CitedAfter(judge, items, first, burn);
      assert Claims(judge, items[..i][first], burn);
    }
  }

  lemma WinnerUncontested(judge: Judge, items: seq<ObservedInscription>, i: nat)
    requires WeakOrder(Before) && Sorted(Before, items)
    requires FirstClaimsCount(judge, items)
    requires i < |items| && Wins(judge, items, i)
    ensures Uncontested(judge, items, items[i])
  {
    var burn := judge(items[i]).stamp.payload.burn;
    WinnerIsFirst(judge, items, i);
    forall y | y in items && Before(y, items[i]) && judge(y).Eligible? ensures judge(y).stamp.payload.burn != burn {
      EarlierIndex(items, i, y);
      var j :| 0 <= j < i && items[j] == y;
    }
  }

  lemma UncontestedWins(judge: Judge, items: seq<ObservedInscription>, x: ObservedInscription)
    requires Sorted(Before, items) && NoTies(Before, items)
    requires x in items && judge(x).Eligible? && Uncontested(judge, items, x)
    ensures exists i :: 0 <= i < |items| && items[i] == x && Wins(judge, items, i)
  {
    var burn := judge(x).stamp.payload.burn;
    var i := FirstIndex(items, x);
    forall j | 0 <= j < i ensures !Claims(judge, items[..i][j], burn) {
      var y := items[j];
      assert y in items[..i] && y in items;
      assert !Before(x, y);
      assert Before(y, x);
    }
    assert Wins(judge, items, i);
  }

  /** An inscription is accepted exactly when it passes every check of its own and no eligible
      inscription canonically before it cites the same burn. */
  lemma AcceptedIff(o: IndexOptions, x: ObservedInscription)
    requires DistinctItems(o.inscriptions) && x in o.inscriptions
    requires FirstClaimsCount(Judgement(o), Sort(Before, o.inscriptions))
    requires Assess(o, x).Eligible?
    ensures Assess(o, x).stamp in Index(o).accepted <==> Uncontested(Judgement(o), o.inscriptions, x)
  {
    var judge, items := Judgement(o), Sort(Before, o.inscriptions);
    CanonicalOrderIsWeak();
    SortSorted(Before, o.inscriptions);
    SortElements(Before, o.inscriptions);
    DistinctItemsNoTies(o.inscriptions);
    AcceptedAreWinners(judge, items, judge(x).stamp);
    if judge(x).stamp in Index(o).accepted {
      var i :| 0 <= i < |items| && Wins(judge, items, i) && judge(items[i]).stamp == judge(x).stamp;
      SameStampSameItem(o, items[i], x);
      WinnerUncontested(judge, items, i);
    }
    if Uncontested(judge, o.inscriptions, x) {
      UncontestedWins(judge, items, x);
    }
  }

  lemma SameStampSameItem(o: IndexOptions, x: ObservedInscription, y: ObservedInscription)
    requires DistinctItems(o.inscriptions) && x in Sort(Before, o.inscriptions) && y in o.inscriptions
    requires Assess(o, x).Eligible? && Assess(o, y).Eligible? && Assess(o, x).stamp == Assess(o, y).stamp
    ensures x == y
  {
    SortElements(Before, o.inscriptions);
    EligibleFacts(o, x);
    EligibleFacts(o, y);
  }

  /** Every accepted stamp is the verdict on some inscription. */
  lemma AcceptedComeFromInscriptions(o: IndexOptions, a: AcceptedStamp)
    requires a in Index(o).accepted
    ensures exists x :: x in o.inscriptions && Assess(o, x) == Eligible(a)
  {
    var judge, items := Judgement(o), Sort(Before, o.inscriptions);
    AcceptedAreWinners(judge, items, a);
    var i :| 0 <= i < |items| && Wins(judge, items, i) && judge(items[i]).stamp == a;
    SortElements(Before, o.inscriptions);
    assert items[i] in items;
  }

  predicate OnePerBurn(accepted: seq<AcceptedStamp>) {
    forall i, j | 0 <= i < j < |accepted| :: accepted[i].payload.burn != accepted[j].payload.burn
  }

  lemma CountsInFront(judge: Judge, items: seq<ObservedInscription>)
    requires items != [] && FirstClaimsCount(judge, items)
    ensures FirstClaimsCount(judge, items[..|items| - 1])
  {
    var front := items[..|items| - 1];
    forall i | 0 <= i < |front| && FirstOfBurn(judge, front, i) && front[i].txid == ""
      ensures !CitedAfter(judge, front, i, judge(front[i]).stamp.payload.burn)
    {
      var burn := judge(front[i]).stamp.payload.burn;
      assert FirstOfBurn(judge, items, i) by {
        forall j | 0 <= j < i ensures !(judge(items[j]).Eligible? && judge(items[j]).stamp.payload.burn == burn) {
          assert items[j] == front[j];
        }
      }
      forall j | i < j < |front| ensures !(judge(front[j]).Eligible? && judge(front[j]).stamp.payload.burn == burn) {
        assert items[j] == front[j];
      }
    }
  }

  /** One burn, one stamp, where first claims count. */
  lemma {:induction false} CountingKeepsOnePerBurn(judge: Judge, items: seq<ObservedInscription>)
    requires FirstClaimsCount(judge, items)
    ensures OnePerBurn(Fold(judge, items).accepted)
  {
    if items != [] {
      var front, last, n := items[..|items| - 1], items[|items| - 1], |items| - 1;
      CountsInFront(judge, items);
      CountingKeepsOnePerBurn(judge, front);
      if Wins(judge, items, n) {
        WinnerIsFirst(judge, items, n);
        forall a | a in Fold(judge, front).accepted ensures a.payload.burn != judge(last).stamp.payload.burn {
          AcceptedAreWinners(judge, front, a);
          var i :| 0 <= i < |front| && Wins(judge, front, i) && judge(front[i]).stamp == a;
          assert items[i] == front[i];
        }
      }
      LastAccepted(judge, items);
    }
  }

  /** The last item adds its stamp exactly if it wins. */
  lemma LastAccepted(judge: Judge, items: seq<ObservedInscription>)
    requires items != []
    ensures var n := |items| - 1;
      Fold(judge, items).accepted
      == Fold(judge, items[..n]).accepted + if Wins(judge, items, n) then [judge(items[n]).stamp] else []
  {
    var n := |items| - 1;
    if judge(items[n]).Eligible? { ClaimRecord(judge, items[..n], judge(items[n]).stamp.payload.burn); }
  }

  /** The next eligible item after an unrecorded first claim wins as well. */
  lemma SecondWinner(judge: Judge, items: seq<ObservedInscription>, i: nat) returns (j: nat)
    requires i < |items| && FirstOfBurn(judge, items, i) && items[i].txid == ""
    requires CitedAfter(judge, items, i, judge(items[i]).stamp.payload.burn)
    ensures i < j < |items| && Wins(judge, items, i) && Wins(judge, items, j)
    ensures judge(items[j]).stamp.payload.burn == judge(items[i]).stamp.payload.burn
  {
    var burn := judge(items[i]).stamp.payload.burn;
    forall m | 0 <= m < i ensures !Claims(judge, items[..i][m], burn) { assert items[..i][m] == items[m]; }
    j := i + 1;
    while !(judge(items[j]).Eligible? && judge(items[j]).stamp.payload.burn == burn)
      invariant i < j < |items|
      invariant forall m | i < m < j :: !(judge(items[m]).Eligible? && judge(items[m]).stamp.payload.burn == burn)
      decreases |items| - j
    {
      j := j + 1;
    }
    forall m | 0 <= m < j ensures !Claims(judge, items[..j][m], burn) { assert items[..j][m] == items[m]; }
  }

  lemma {:induction false} FoldGrows(judge: Judge, items: seq<ObservedInscription>, n: nat)
    requires n <= |items|
    ensures Fold(judge, items[..n]).accepted <= Fold(judge, items).accepted
  {
    if n == |items| {
      assert items[..n] == items;
    } else {
      var front := items[..|items| - 1];
      FoldGrows(judge, front, n);
      assert front[..n] == items[..n];
    }
  }

  /** A winner's stamp is in the list once the item after it is read, last. */
  lemma WinnerAppends(judge: Judge, items: seq<ObservedInscription>, j: nat)
    requires j < |items| && Wins(judge, items, j)
    ensures Fold(judge, items[..j]).accepted + [judge(items[j]).stamp] <= Fold(judge, items).accepted
  {
    var upTo := items[..j + 1];
    assert upTo[..j] == items[..j] && Wins(judge, upTo, j);
    LastAccepted(judge, upTo);
    FoldGrows(judge, items, j + 1);
  }

  lemma EarlierWinnerIn(judge: Judge, items: seq<ObservedInscription>, i: nat, j: nat)
    requires i < j < |items| && Wins(judge, items, i)
    ensures judge(items[i]).stamp in Fold(judge, items[..j]).accepted
  {
    var before := items[..j];
    assert before[..i] == items[..i] && Wins(judge, before, i) && judge(before[i]).stamp == judge(items[i]).stamp;
    AcceptedAreWinners(judge, before, judge(items[i]).stamp);
  }

  /** Two winners citing one burn are two stamps of it. */
  lemma TwoWinners(judge: Judge, items: seq<ObservedInscription>, i: nat, j: nat)
    requires i < j < |items| && Wins(judge, items, i) && Wins(judge, items, j)
    requires judge(items[j]).stamp.payload.burn == judge(items[i]).stamp.payload.burn
    ensures !OnePerBurn(Fold(judge, items).accepted)
  {
    WinnerAppends(judge, items, j);
    EarlierWinnerIn(judge, items, i, j);
    var accepted, all := Fold(judge, items[..j]).accepted, Fold(judge, items).accepted;
    var m :| 0 <= m < |accepted| && accepted[m] == judge(items[i]).stamp;
    assert all[m] == (accepted + [judge(items[j]).stamp])[m] && all[|accepted|] == judge(items[j]).stamp;
  }

  /** One burn backs one stamp if and only if, for every burn, the canonically first eligible inscription citing it
      has a transaction id or is the only one. */
  lemma OneStampPerBurnIff(o: IndexOptions)
    ensures OnePerBurn(Index(o).accepted) <==> FirstClaimsCount(Judgement(o), Sort(Before, o.inscriptions))
  {
    var judge, items := Judgement(o), Sort(Before, o.inscriptions);
    if FirstClaimsCount(judge, items) {
      CountingKeepsOnePerBurn(judge, items);
    } else {
      var i :| 0 <= i < |items| && FirstOfBurn(judge, items, i) && items[i].txid == ""
               && CitedAfter(judge, items, i, judge(items[i]).stamp.payload.burn);
      var j := SecondWinner(judge, items, i);
      TwoWinners(judge, items, i, j);
    }
  }

  /** In particular where every inscription has a transaction id. */
  lemma OneStampPerBurn(o: IndexOptions)
    requires forall y | y in o.inscriptions :: y.txid != ""
    ensures OnePerBurn(Index(o).accepted)
  {
    var items := Sort(Before, o.inscriptions);
    SortElements(Before, o.inscriptions);
    assert forall i | 0 <= i < |items| :: items[i] in items;
    OneStampPerBurnIff(o);
  }

  /* ---------- arrival order ---------- */

  /** The fold asks the judge about its items only. */
  lemma {:induction false} FoldAgrees(a: Judge, b: Judge, items: seq<ObservedInscription>)
    requires forall x | x in items :: a(x) == b(x)
    ensures Fold(a, items) == Fold(b, items)
  {
    if items != [] {
      assert forall x | x in items[..|items| - 1] :: x in items;
      assert items[|items| - 1] in items;
      FoldAgrees(a, b, items[..|items| - 1]);
    }
  }

  ghost predicate DistinctBurns(burns: seq<ObservedBurn>) {
    forall a, b | a in burns && b in burns && a != b :: (a.signature, a.mint) != (b.signature, b.mint)
  }

  lemma SameGroup(a: seq<ObservedBurn>, b: seq<ObservedBurn>, signature: string)
    requires multiset(a) == multiset(b)
    ensures multiset(GroupFor(Grouped(a), signature)) == multiset(GroupFor(Grouped(b), signature))
  {
    GroupHasSignature(a, signature);
    GroupHasSignature(b, signature);
    forall x
      ensures multiset(Filter(WithSignature(signature), a))[x] == multiset(Filter(WithSignature(signature), b))[x]
    {
      FilterCount(WithSignature(signature), a, x);
      FilterCount(WithSignature(signature), b, x);
    }
  }

  lemma SameFirstOfMint(a: seq<ObservedBurn>, b: seq<ObservedBurn>, mint: string)
    requires multiset(a) == multiset(b)
    requires forall x, y | x in a && y in a && x.mint == y.mint :: x == y
    ensures FirstOfMint(a, mint) == FirstOfMint(b, mint)
  {
    SameElements(a, b);
    FirstOfMintFacts(a, mint);
    FirstOfMintFacts(b, mint);
  }

  lemma SameClaim(a: seq<ObservedBurn>, b: seq<ObservedBurn>, item: ObservedInscription, payload: StampPayload)
    requires multiset(a) == multiset(b)
    requires forall x, y | x in a && y in a && x.mint == y.mint :: x == y
    ensures AssessCandidates(a, item, payload) == AssessCandidates(b, item, payload)
  {
    assert a == [] <==> b == [] by { SameElements(a, b); }
    SameFirstOfMint(a, b, payload.mint);
  }

  lemma OneMintPerGroup(burns: seq<ObservedBurn>, signature: string)
    requires DistinctBurns(burns)
    ensures var group := GroupFor(Grouped(burns), signature);
      forall x, y | x in group && y in group && x.mint == y.mint :: x == y
  {
    GroupHasSignature(burns, signature);
    FilterElements(WithSignature(signature), burns);
  }

  lemma SameVerdict(a: IndexOptions, b: IndexOptions, item: ObservedInscription)
    requires b == a.(inscriptions := b.inscriptions, burns := b.burns)
    requires multiset(a.burns) == multiset(b.burns) && DistinctBurns(a.burns)
    ensures Assess(a, item) == Assess(b, item)
  {
    forall payload: StampPayload
      ensures AssessCandidates(GroupFor(Grouped(a.burns), payload.burn), item, payload)
              == AssessCandidates(GroupFor(Grouped(b.burns), payload.burn), item, payload)
    {
      SameGroup(a.burns, b.burns, payload.burn);
      OneMintPerGroup(a.burns, payload.burn);
      SameClaim(GroupFor(Grouped(a.burns), payload.burn), GroupFor(Grouped(b.burns), payload.burn), item, payload);
    }
  }

  /** Two operators who saw the same inscriptions and burns in different orders derive the same set. */
  lemma OrderFree(a: IndexOptions, b: IndexOptions)
    requires b == a.(inscriptions := b.inscriptions, burns := b.burns)
    requires multiset(a.inscriptions) == multiset(b.inscriptions) && DistinctItems(a.inscriptions)
    requires multiset(a.burns) == multiset(b.burns) && DistinctBurns(a.burns)
    ensures Index(a) == Index(b)
  {
    CanonicalOrderIsWeak();
    DistinctItemsNoTies(a.inscriptions);
    SortPermutation(Before, a.inscriptions, b.inscriptions);
    var items := Sort(Before, a.inscriptions);
    forall x | x in items ensures Judgement(a)(x) == Judgement(b)(x) {
      SameVerdict(a, b, x);
    }
    FoldAgrees(Judgement(a), Judgement(b), items);
  }

  /* ---------- a higher tip ---------- */

  lemma {:induction false} NothingEligibleAfter(judge: Judge, items: seq<ObservedInscription>, n: nat)
    requires n <= |items|
    requires forall i | n <= i < |items| :: !judge(items[i]).Eligible?
    ensures Fold(judge, items).accepted == Fold(judge, items[..n]).accepted
  {
    if n == |items| {
      assert items[..n] == items;
    } else {
      var front := items[..|items| - 1];
      NothingEligibleAfter(judge, front, n);
      assert front[..n] == items[..n];
    }
  }

  /** The confirmed items are a prefix of the canonical order. */
  lemma ConfirmedPrefix(items: seq<ObservedInscription>, cutoff: int) returns (n: nat)
    requires Sorted(Before, items)
    ensures n <= |items|
    ensures forall i | 0 <= i < n :: items[i].height <= cutoff
    ensures forall i | n <= i < |items| :: items[i].height > cutoff
  {
    n := 0;
    while n < |items| && items[n].height <= cutoff
      invariant n <= |items|
      invariant forall i | 0 <= i < n :: items[i].height <= cutoff
    {
      n := n + 1;
    }
    forall i | n <= i < |items| ensures items[i].height > cutoff {
      if i > n { assert !Before(items[i], items[n]); }
    }
  }

  /** As the tip rises the accepted list only grows at its end. */
  lemma TipOnlyAppends(o: IndexOptions, tip: int)
    requires o.tipHeight <= tip
    ensures Index(o).accepted <= Index(o.(tipHeight := tip)).accepted
  {
    var later := o.(tipHeight := tip);
    var items := Sort(Before, o.inscriptions);
    CanonicalOrderIsWeak();
    SortSorted(Before, o.inscriptions);
    var n := ConfirmedPrefix(items, o.tipHeight - o.minConfirmations + 1);
    forall i | n <= i < |items| ensures !Judgement(o)(items[i]).Eligible? {
      if Assess(o, items[i]).Eligible? { EligibleFacts(o, items[i]); }
    }
    NothingEligibleAfter(Judgement(o), items, n);
    FoldAgrees(Judgement(o), Judgement(later), items[..n]);
    FoldGrows(Judgement(later), items, n);
  }

  /* ---------- supply ---------- */

  lemma SupplyStep(t: Tallies, item: ObservedInscription, v: Verdict, mint: string)
    requires Units(t.supply, mint) == BurnedByAccepted(t.accepted, mint)
    requires v.Eligible? ==> v.stamp.burn.mint == v.stamp.payload.mint && v.stamp.burn.amountBase == v.stamp.payload.amt
    ensures var u := Step(t, item, v); Units(u.supply, mint) == BurnedByAccepted(u.accepted, mint)
  {
    if v.Eligible? { assert (t.accepted + [v.stamp])[..|t.accepted|] == t.accepted; }
  }

  lemma {:induction false} SupplyRecord(o: IndexOptions, items: seq<ObservedInscription>, mint: string)
    ensures var t := Fold(Judgement(o), items); Units(t.supply, mint) == BurnedByAccepted(t.accepted, mint)
  {
    if items != [] {
      var front, last := items[..|items| - 1], items[|items| - 1];
      SupplyRecord(o, front, mint);
      if Assess(o, last).Eligible? { EligibleFacts(o, last); }
      SupplyStep(Fold(Judgement(o), front), last, Judgement(o)(last), mint);
    }
  }

  /** The self-check holds of every index, whatever was observed. */
  lemma SupplyAlwaysMatches(o: IndexOptions)
    ensures SupplyMatchesBurns(Index(o))
  {
    var t := Fold(Judgement(o), Sort(Before, o.inscriptions));
    forall m: string ensures (if m in Index(o).supplyByMint then Index(o).supplyByMint[m] else "0")
                             == Text.Decimal(BurnedByAccepted(Index(o).accepted, m)) {
      SupplyRecord(o, Sort(Before, o.inscriptions), m);
      assert Text.Decimal(0) == "0";
    }
  }

  /** Units of a mint a burn record stands for, if it is one that may be claimed. */
  function Burned(mint: string): ObservedBurn -> int {
    (b: ObservedBurn) => if b.mint == mint && b.finalized && !b.failed then Text.Numeral(b.amountBase) else 0
  }

  function BurnsOf(accepted: seq<AcceptedStamp>): (r: seq<ObservedBurn>)
    ensures |r| == |accepted| && forall i | 0 <= i < |r| :: r[i] == accepted[i].burn
  {
    seq(|accepted|, i requires 0 <= i < |accepted| => accepted[i].burn)
  }

  lemma {:induction false} BurnedByAcceptedIsSum(accepted: seq<AcceptedStamp>, mint: string)
    requires forall a | a in accepted :: a.burn.finalized && !a.burn.failed
    ensures BurnedByAccepted(accepted, mint) == Sums.Sum(Burned(mint), BurnsOf(accepted))
  {
    if accepted != [] {
      var front := accepted[..|accepted| - 1];
      assert forall a | a in front :: a in accepted;
      assert accepted[|accepted| - 1] in accepted;
      BurnedByAcceptedIsSum(front, mint);
      assert BurnsOf(accepted)[..|front|] == BurnsOf(front);
    }
  }

  /** The accepted units of a mint never exceed the finalized, successful units burned of it. */
  lemma NoInflation(o: IndexOptions, mint: string)
    requires FirstClaimsCount(Judgement(o), Sort(Before, o.inscriptions))
    ensures BurnedByAccepted(Index(o).accepted, mint) <= Sums.Sum(Burned(mint), o.burns)
  {
    var accepted := Index(o).accepted;
    OneStampPerBurnIff(o);
    forall a | a in accepted
      ensures a.burn in o.burns && a.burn.finalized && !a.burn.failed && a.burn.signature == a.payload.burn
    {
      AcceptedComeFromInscriptions(o, a);
      var x :| x in o.inscriptions && Assess(o, x) == Eligible(a);
      EligibleFacts(o, x);
    }
    BurnedByAcceptedIsSum(accepted, mint);
    var burns := BurnsOf(accepted);
    forall i, j | 0 <= i < j < |burns| ensures burns[i] != burns[j] {
      assert accepted[i] in accepted && accepted[j] in accepted;
      assert accepted[i].payload.burn != accepted[j].payload.burn;
      assert burns[i].signature == accepted[i].payload.burn && burns[j].signature == accepted[j].payload.burn;
    }
    forall b | b in burns ensures b in o.burns {
      var i :| 0 <= i < |burns| && burns[i] == b;
      assert accepted[i] in accepted;
    }
    Sums.DistinctPart(burns, o.burns);
    Sums.SumPart(Burned(mint), burns, o.burns);
  }

  /* ---------- an inscription without a transaction id ---------- */

  /** A finalized burn of five units whose authority names the recipient. */
  const FIVE_BURNED := ObservedBurn("s", 1, true, false, "m", "5", None, "a", [Memo("t", ["a"])])
  const FIVE_CLAIMED := StampPayload("stamp", 1, "m", "s", "5", "t")

  function Claiming(txid: string, height: int): ObservedInscription {
    ObservedInscription(txid, height, "00", [Payment("t", 546)])
  }

  /** One burn, and two inscriptions that cite it; the earlier one's transaction id is empty. */
  function UnnamedFirst(): IndexOptions {
    IndexOptions([Claiming("", 1), Claiming("b", 2)], [FIVE_BURNED], 10, 1, ["stamp"], _ => Some(FIVE_CLAIMED))
  }

  lemma OneGroup(b: ObservedBurn)
    ensures GroupFor(Grouped([b]), b.signature) == [b]
  {
    var none: seq<ObservedBurn> := [];
    assert [b][..0] == none && [b] == none + [b];
    assert Grouped(none) == map[];
    assert GroupFor(Grouped(none), b.signature) + [b] == [b];
  }

  lemma FiveAuthorized()
    ensures Authorized(FIVE_BURNED.memos, "a", "t")
  {
    assert "t"[0] == 't' && !IsBlank('t');
    assert TrimStart("t") == "t" && TrimEnd("t") == "t";
    assert FIVE_BURNED.memos[0] == Memo("t", ["a"]) && "a" in ["a"];
  }

  lemma TwoZeros()
    ensures ScriptBytes("00").Some?
  {
    assert "00"[..2] == "00" && "00" != "0x" by { assert "0x"[1] == 'x'; }
    assert "00"[2..] == "" && FromHex("").Some?;
    assert FromHex("00").Some?;
  }

  lemma ClaimingEligible(item: ObservedInscription)
    requires item == Claiming(item.txid, item.height) && item.height <= 10
    ensures Assess(UnnamedFirst(), item)
            == Eligible(AcceptedStamp(item.txid, item.height, FIVE_CLAIMED, FIVE_BURNED, 546))
  {
    TwoZeros();
    OneGroup(FIVE_BURNED);
    FiveAuthorized();
    assert DeliveredTo(item.outputs, "t") == 546 by { assert item.outputs[..0] == []; }
    assert AssessCandidates([FIVE_BURNED], item, FIVE_CLAIMED)
        == Eligible(AcceptedStamp(item.txid, item.height, FIVE_CLAIMED, FIVE_BURNED, 546));
  }

  lemma TwoInOrder(x: ObservedInscription, y: ObservedInscription)
    requires x.height < y.height
    ensures Sort(Before, [x, y]) == [x, y]
  {
    assert [x, y][..1] == [x] && [x][..0] == [];
    assert Sort(Before, [x]) == [x];
  }

  /** A claim without a transaction id leaves its burn open to the next. */
  lemma UnnamedLeavesOpen(judge: Judge, x: ObservedInscription, y: ObservedInscription)
    requires x.txid == "" && judge(x).Eligible? && judge(y).Eligible?
    requires judge(x).stamp.payload.burn == judge(y).stamp.payload.burn
    ensures Fold(judge, [x, y]).accepted == [judge(x).stamp, judge(y).stamp]
  {
    var none: seq<ObservedInscription> := [];
    assert [x, y][..1] == [x] && [x][..0] == none;
    assert Fold(judge, [x]).accepted == [] + [judge(x).stamp];
    assert Fold(judge, [x]).claimed == map[judge(x).stamp.payload.burn := ""];
    assert Fold(judge, [x, y]).accepted == [judge(x).stamp] + [judge(y).stamp];
  }

  lemma FiveAndFive(accepted: seq<AcceptedStamp>)
    requires |accepted| == 2 && accepted[0].burn == FIVE_BURNED && accepted[1].burn == FIVE_BURNED
    ensures BurnedByAccepted(accepted, "m") == 10
  {
    FiveBurnedUnits();
    assert accepted[..1][..0] == [];
    assert BurnedByAccepted(accepted[..1], "m") == 5;
  }

  lemma BothAccepted()
    ensures var accepted := Index(UnnamedFirst()).accepted;
      && |accepted| == 2 && accepted[0].burn == accepted[1].burn == FIVE_BURNED
      && accepted[0].payload == accepted[1].payload == FIVE_CLAIMED
  {
    var x, y := Claiming("", 1), Claiming("b", 2);
    ClaimingEligible(x);
    ClaimingEligible(y);
    TwoInOrder(x, y);
    UnnamedLeavesOpen(Judgement(UnnamedFirst()), x, y);
  }

  lemma TenInDecimal()
    ensures Text.Decimal(10) == "10"
  {
    assert Text.Decimal(1) == "1";
  }

  lemma FiveBurnedUnits()
    ensures Text.Numeral("5") == 5 && Sums.Sum(Burned("m"), [FIVE_BURNED]) == 5
  {
    assert Text.Numeral("5") == 5 by { assert "5"[..0] == ""; }
    assert [FIVE_BURNED][..0] == [] && Burned("m")(FIVE_BURNED) == 5;
  }

  /** The claim check reads a transaction id as a boolean: here both inscriptions are accepted, and the published supply
      is ten units where five were burned. */
  lemma EmptyTxidClaimsTwice()
    ensures var out := Index(UnnamedFirst());
      && |out.accepted| == 2 && out.accepted[0].payload.burn == out.accepted[1].payload.burn == "s"
      && "m" in out.supplyByMint && out.supplyByMint["m"] == "10"
      && Sums.Sum(Burned("m"), UnnamedFirst().burns) == 5
  {
    BothAccepted();
    FiveAndFive(Index(UnnamedFirst()).accepted);
    SupplyAlwaysMatches(UnnamedFirst());
    TenInDecimal();
    FiveBurnedUnits();
  }

  /* ---------- from the transactions themselves ---------- */

  datatype SeenTransaction = SeenTransaction(signature: string, tx: ParsedTransaction, finalized: bool)

  /** The burn records read from a list of transactions. */
  function AllBurns(seen: seq<SeenTransaction>): seq<ObservedBurn> {
    if seen == [] then []
    else
      var last := seen[|seen| - 1];
      AllBurns(seen[..|seen| - 1]) + DecodedBurns(last.signature, last.tx, last.finalized)
  }

  /** Units of the mint that the finalized, successful transactions destroy. */
  function UnitsDestroyed(seen: seq<SeenTransaction>, mint: string): nat {
    if seen == [] then 0
    else
      var last := seen[|seen| - 1];
      UnitsDestroyed(seen[..|seen| - 1], mint)
      + if last.finalized && !last.tx.failed then Destroyed(Burns(AllInstructions(last.tx)), mint) else 0
  }

  lemma LastMintAlone(burns: seq<ObservedBurn>, b: ObservedBurn)
    requires burns != [] && forall i, j | 0 <= i < j < |burns| :: burns[i].mint != burns[j].mint
    requires b in burns[..|burns| - 1]
    ensures b.mint != burns[|burns| - 1].mint
  {
    var i :| 0 <= i < |burns| - 1 && burns[i] == b;
  }

  lemma {:induction false} NoMintNoSum(burns: seq<ObservedBurn>, mint: string)
    requires forall b | b in burns :: b.mint != mint
    ensures Sums.Sum(Burned(mint), burns) == 0
  {
    if burns != [] {
      DropLast(burns);
      NoMintNoSum(burns[..|burns| - 1], mint);
      assert burns[|burns| - 1] in burns;
    }
  }

  /** Among records of different mints only the one of a given mint weighs anything for it. */
  lemma {:induction false} OneMintSum(burns: seq<ObservedBurn>, mint: string, b: ObservedBurn)
    requires forall i, j | 0 <= i < j < |burns| :: burns[i].mint != burns[j].mint
    requires b in burns && b.mint == mint
    ensures Sums.Sum(Burned(mint), burns) == Burned(mint)(b)
  {
    var front, last := burns[..|burns| - 1], burns[|burns| - 1];
    if b in front {
      LastMintAlone(burns, b);
      OneMintSum(front, mint, b);
    } else {
      assert b == last by { DropLast(burns); }
      forall x | x in front ensures x.mint != mint { LastMintAlone(burns, x); }
      NoMintNoSum(front, mint);
    }
  }

  lemma TransactionSum(signature: string, tx: ParsedTransaction, finalized: bool, mint: string)
    ensures Sums.Sum(Burned(mint), DecodedBurns(signature, tx, finalized))
            == if finalized && !tx.failed then Destroyed(Burns(AllInstructions(tx)), mint) else 0
  {
    var out, burns := DecodedBurns(signature, tx, finalized), Burns(AllInstructions(tx));
    OneRecordPerMint(signature, tx, finalized);
    if Destroys(burns, mint) {
      var b := RecordOf(signature, tx, finalized, mint);
      OneMintSum(out, mint, b);
    } else {
      NothingDestroyed(burns, mint);
      NoMintNoSum(out, mint);
    }
  }

  lemma {:induction false} AllBurnsSum(seen: seq<SeenTransaction>, mint: string)
    ensures Sums.Sum(Burned(mint), AllBurns(seen)) == UnitsDestroyed(seen, mint)
  {
    if seen != [] {
      var front, last := seen[..|seen| - 1], seen[|seen| - 1];
      AllBurnsSum(front, mint);
      TransactionSum(last.signature, last.tx, last.finalized, mint);
      Sums.SumConcat(Burned(mint), AllBurns(front), DecodedBurns(last.signature, last.tx, last.finalized));
    }
  }

  /** End to end: the published supply of a mint is the decimal of some units, and those never exceed
      what the observed transactions destroyed. */
  lemma SupplyBackedByTransactions(o: IndexOptions, seen: seq<SeenTransaction>, mint: string)
    requires o.burns == AllBurns(seen)
    requires FirstClaimsCount(Judgement(o), Sort(Before, o.inscriptions))
    ensures mint in Index(o).supplyByMint ==>
              exists units: nat :: Index(o).supplyByMint[mint] == Text.Decimal(units)
                && units <= UnitsDestroyed(seen, mint)
  {
    SupplyAlwaysMatches(o);
    NoInflation(o, mint);
    AllBurnsSum(seen, mint);
    if mint in Index(o).supplyByMint {
      var units := BurnedByAccepted(Index(o).accepted, mint);
      assert Index(o).supplyByMint[mint] == Text.Decimal(units);
    }
  }
}
