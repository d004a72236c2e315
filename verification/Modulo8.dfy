/** Sequence numbers on three bits: what m_isNRValid and the offset of m_NRAccepted mean in terms of
    the unbounded numbers VA (first unacknowledged) and VS (next to send). */
module Modulo8 {

  /** m_isNRValid on the fields m_NRR, m_ns, branch by branch. */
  predicate IsNRValid(nrr: int, ns: int, nr: int) {
    if nr != nrr then
      if ns < nrr then
        if nrr < nr then true
        else if nr <= ns then true
        else nrr < nr && nr <= ns
      else nrr < nr && nr <= ns
    else true
  }

  /** Number of messages m_NRAccepted removes. */
  function NROffset(nrr: int, nr: int): (n: nat) {
    (nr - nrr) % 8
  }

  /** The remainder of C, which has the sign of the dividend. */
  function CRemainder(a: int, b: nat): int
    requires b > 0
  {
    if a >= 0 then a % b else -(-a % b)
  }

  /** The double remainder of the code, negative differences included. */
  lemma OffsetInC(nrr: int, nr: int)
    ensures CRemainder(CRemainder(nr - nrr, 8) + 8, 8) == NROffset(nrr, nr)
  {
    var d := nr - nrr;
    assert d < 0 ==> d % 8 == (if -d % 8 == 0 then 0 else 8 - -d % 8);
  }

  /** `k` is the unbounded number the received `nr` stands for. */
  predicate Denotes(va: nat, vs: nat, nr: int, k: nat) {
    va <= k <= vs && nr == k % 8
  }

  /** Whatever the width of the window, an NR that passes the test is inside it: the offset never runs
      past VS. */
  lemma ValidNRIsInWindow(va: nat, vs: nat, nr: int)
    requires va <= vs && 0 <= nr < 8
    requires IsNRValid(va % 8, vs % 8, nr)
    ensures va + NROffset(va % 8, nr) <= vs
    ensures Denotes(va, vs, nr, va + NROffset(va % 8, nr))
  {
    var a, w, d := va % 8, vs - va, NROffset(va % 8, nr);
    assert nr == if a + d < 8 then a + d else a + d - 8;
    assert va == va / 8 * 8 + a;
    if w < 8 {
      assert vs % 8 == if a + w < 8 then a + w else a + w - 8;
    }
  }

  /** In a window of at most seven messages the test is exact and the number it stands for unique. */
  lemma NRValidExact(va: nat, vs: nat, nr: int)
    requires va <= vs <= va + 7 && 0 <= nr < 8
    ensures IsNRValid(va % 8, vs % 8, nr) <==> exists k: nat :: Denotes(va, vs, nr, k)
    ensures forall k: nat :: Denotes(va, vs, nr, k) ==> k == va + NROffset(va % 8, nr)
  {
    forall k: nat | Denotes(va, vs, nr, k)
      ensures IsNRValid(va % 8, vs % 8, nr) && k == va + NROffset(va % 8, nr)
    {
      DenotedIsValid(va, vs, k);
    }
    if IsNRValid(va % 8, vs % 8, nr) {
      ValidNRIsInWindow(va, vs, nr);
    }
  }

  lemma DenotedIsValid(va: nat, vs: nat, k: nat)
    requires va <= k <= vs <= va + 7
    ensures IsNRValid(va % 8, vs % 8, k % 8) && k == va + NROffset(va % 8, k % 8)
  {
    var d, w := k - va, vs - va;
    var a := va % 8;
    assert va == va / 8 * 8 + a;
    assert k % 8 == (if a + d < 8 then a + d else a + d - 8);
    assert vs % 8 == (if a + w < 8 then a + w else a + w - 8);
  }

  /** Seven is the exact limit: every number of the window is recognised, with its own offset, if and
      only if at most seven messages are outstanding. */
  lemma WindowLimitIsSeven(va: nat, vs: nat)
    requires va <= vs
    ensures (forall k: nat | va <= k <= vs ::
               IsNRValid(va % 8, vs % 8, k % 8) && k == va + NROffset(va % 8, k % 8))
            <==> vs - va <= 7
  {
    if vs - va <= 7 {
      forall k: nat | va <= k <= vs
        ensures IsNRValid(va % 8, vs % 8, k % 8) && k == va + NROffset(va % 8, k % 8)
      {
        DenotedIsValid(va, vs, k);
      }
    } else {
      var k := va + 8;
      assert va <= k <= vs && k != va + NROffset(va % 8, k % 8);
    }
  }
}
