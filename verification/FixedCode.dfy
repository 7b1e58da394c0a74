/** The code of fixed blocks (section 3.2.6 of RFC 1951) is complete. */
module FixedCode {
  import opened Bits
  import opened Canonical
  import opened Inflate

  lemma {:induction false} FixedCounts(k: nat)
    requires k > 0
    ensures Count(FixedLit(), k) == if k == 7 then 24 else if k == 8 then 152 else if k == 9 then 112 else 0
    ensures Count(FixedDist(), k) == if k == 5 then 32 else 0
  {
    var f := Filled(8, 8) + [];
    assert FixedLit() == Filled(144, 8) +
      (Filled(112, 9) + (Filled(24, 7) + f));
    CountFilled(8, 8, [], k);
    CountFilled(24, 7, f, k);
    CountFilled(112, 9, Filled(24, 7) + f, k);
    CountFilled(144, 8, Filled(112, 9) + (Filled(24, 7) + f), k);
    assert FixedDist() == Filled(32, 5) + [];
    CountFilled(32, 5, [], k);
  }

  lemma {:induction false} FixedKraft(k: nat)
    ensures k <= 4 ==> Kraft(FixedDist(), k) == 0
    ensures k >= 5 ==> Kraft(FixedDist(), k) == Pow2(k)
    ensures k <= 6 ==> Kraft(FixedLit(), k) == 0
    ensures k == 7 ==> Kraft(FixedLit(), k) == 24
    ensures k == 8 ==> Kraft(FixedLit(), k) == 200
    ensures k >= 9 ==> Kraft(FixedLit(), k) == Pow2(k)
  {
    if k > 0 {
      FixedKraft(k - 1);
      FixedCounts(k);
    }
    Pow2Values();
  }

  /** The fixed code is complete. */
  lemma FixedFits()
    ensures Fits(FixedLit()) && Fits(FixedDist()) && Acceptable(FixedLit()) && Acceptable(FixedDist())
  {
    hide *;
    FixedComplete();
    FixedBounds();
    MakeFits(FixedLit());
    MakeFits(FixedDist());
  }

  lemma FixedComplete()
    ensures Kraft(FixedLit(), MAX_LEN) == Pow2(MAX_LEN) && Kraft(FixedDist(), MAX_LEN) == Pow2(MAX_LEN)
  {
    hide Kraft, FixedLit, FixedDist, Pow2;
    FixedKraft(MAX_LEN);
  }

  lemma MakeFits(lens: Lens)
    requires Bounded(lens, MAX_LEN) && Kraft(lens, MAX_LEN) == Pow2(MAX_LEN)
    ensures Fits(lens) && Acceptable(lens)
  {
    hide Kraft, Pow2, Bounded;
  }

  lemma FixedBounds()
    ensures Bounded(FixedLit(), MAX_LEN) && Bounded(FixedDist(), MAX_LEN)
  {
  }
}
