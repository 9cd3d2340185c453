/** ZIP 317 conventional fees for transparent transactions. */
module Fees {
  import opened Transaction
  import opened Sums

  const MARGINAL_FEE := 5000
  const GRACE_ACTIONS := 2
  const P2PKH_STANDARD_INPUT_SIZE := 150
  const P2PKH_STANDARD_OUTPUT_SIZE := 34
  const DUST_THRESHOLD_ZAT := 546

  function InputSize(scriptSigBytes: nat): int { 32 + 4 + |CompactSize(scriptSigBytes)| + scriptSigBytes + 4 }
  function OutputSize(scriptPubKeyBytes: nat): int { 8 + |CompactSize(scriptPubKeyBytes)| + scriptPubKeyBytes }

  function DivCeil(a: int, b: int): int
    requires b > 0
  {
    (a + b - 1) / b
  }

  function Max(a: int, b: int): int { if a > b then a else b }

  /** The sizes are totalled on each side, and the larger count of standard sizes wins. */
  function LogicalActions(inputs: seq<nat>, outputs: seq<nat>): int {
    Max(DivCeil(Sum(InputSize, inputs), P2PKH_STANDARD_INPUT_SIZE),
        DivCeil(Sum(OutputSize, outputs), P2PKH_STANDARD_OUTPUT_SIZE))
  }

  function ConventionalFee(inputs: seq<nat>, outputs: seq<nat>): int {
    MARGINAL_FEE * Max(LogicalActions(inputs, outputs), GRACE_ACTIONS)
  }

  lemma EncodedSizes(i: TxInput, o: TxOutput)
    requires TxidReadable(i.prevout.txid)
    ensures |EncodeInput(i)| == InputSize(|i.scriptSig|) && |EncodeOutput(o)| == OutputSize(|o.scriptPubKey|)
  {
  }

  lemma InputSizeMonotone(a: nat, b: nat)
    requires a <= b
    ensures InputSize(a) <= InputSize(b)
  {
  }

  lemma {:induction false} SumMonotone(a: seq<nat>, b: seq<nat>)
    requires |a| == |b| && forall i | 0 <= i < |a| :: a[i] <= b[i]
    ensures Sum(InputSize, a) <= Sum(InputSize, b)
  {
    if a != [] {
      var n := |a| - 1;
      SumMonotone(a[..n], b[..n]);
      InputSizeMonotone(a[n], b[n]);
      assert Sum(InputSize, a) == Sum(InputSize, a[..n]) + InputSize(a[n]);
      assert Sum(InputSize, b) == Sum(InputSize, b[..n]) + InputSize(b[n]);
    }
  }

  /** Shorter scriptSigs than the fee was worked out for never need a higher fee. */
  lemma FeeMonotone(a: seq<nat>, b: seq<nat>, outputs: seq<nat>)
    requires |a| == |b| && forall i | 0 <= i < |a| :: a[i] <= b[i]
    ensures ConventionalFee(a, outputs) <= ConventionalFee(b, outputs)
  {
    SumMonotone(a, b);
    var x, y := Sum(InputSize, a), Sum(InputSize, b);
    assert (x + 149) / 150 <= (y + 149) / 150;
  }
}
