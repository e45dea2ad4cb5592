/** Division rounded up, as the number of batches that cover a lag. */
module Rounding {

  function CeilDiv(a: nat, b: nat): nat
    requires b > 0
  {
    (a + b - 1) / b
  }

  lemma QuotientIsUnique(x: int, b: nat, q: int, r: int)
    requires b > 0 && x == b * q + r && 0 <= r < b
    ensures x / b == q
  {
    var p := x / b;
    assert x == b * p + x % b;
    assert p < q ==> b * (p + 1) <= b * q;
    assert q < p ==> b * (q + 1) <= b * p;
  }

  lemma CeilDivStep(a: nat, b: nat)
    requires a > 0 && b > 0
    ensures CeilDiv(a, b) == 1 + CeilDiv(if a <= b then 0 else a - b, b)
  {
    QuotientIsUnique(b - 1, b, 0, b - 1);
    if a <= b {
      QuotientIsUnique(a + b - 1, b, 1, a - 1);
    } else {
      var q, r := (a - 1) / b, (a - 1) % b;
      assert a - 1 == b * q + r;
      assert b * (q + 1) == b * q + b;
      QuotientIsUnique(a + b - 1, b, q + 1, r);
    }
  }

  lemma CeilDivOfNone(b: nat)
    requires b > 0
    ensures CeilDiv(0, b) == 0
  {
    QuotientIsUnique(b - 1, b, 0, b - 1);
  }

  /** Batches taken one at a time until nothing is left. */
  function Rounds(lag: nat, batch: nat): nat
    requires batch > 0
  {
    if lag == 0 then 0 else 1 + Rounds(if lag <= batch then 0 else lag - batch, batch)
  }

  lemma {:induction false} RoundsRoundUp(lag: nat, batch: nat)
    requires batch > 0
    ensures Rounds(lag, batch) == CeilDiv(lag, batch)
  {
    if lag == 0 {
      CeilDivOfNone(batch);
    } else {
      CeilDivStep(lag, batch);
      RoundsRoundUp(if lag <= batch then 0 else lag - batch, batch);
    }
  }
}
