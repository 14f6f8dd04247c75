/** Powers of two. */
module Powers {

  function Pow2(k: nat): (p: nat)
    ensures p > 0
  {
    if k == 0 then 1 else 2 * Pow2(k - 1)
  }

  ghost predicate IsPowerOfTwo(n: nat) {
    exists k :: n == Pow2(k)
  }

  lemma {:induction false} Pow2Grows(k: nat, l: nat)
    requires k <= l
    ensures Pow2(k) <= Pow2(l)
    decreases l
  {
    if k < l { Pow2Grows(k, l - 1); }
  }

  lemma {:induction false} Pow2Less(k: nat, l: nat)
    requires k < l
    ensures Pow2(k) < Pow2(l)
    decreases l
  {
    if k < l - 1 { Pow2Less(k, l - 1); }
  }

  lemma Pow2Strict(k: nat, l: nat)
    requires k <= l
    ensures k == l || Pow2(k) < Pow2(l)
  {
    if k < l { Pow2Less(k, l); }
  }

  lemma TopBit()
    ensures Pow2(31) == 0x8000_0000
  {
    assert Pow2(8) == 0x100;
    assert Pow2(16) == 0x1_0000;
    assert Pow2(24) == 0x100_0000;
  }
}
