/** Division with remainder, and the units and limits that several devices share. */
module Arithmetic {
  const ATTOSECONDS_PER_SECOND: nat := 1_000_000_000_000_000_000
  const U64_MAX: nat := 0xffff_ffff_ffff_ffff
  const U128_MAX: nat := 0xffff_ffff_ffff_ffff_ffff_ffff_ffff_ffff

  /** Whole rounds do not change a remainder. */
  lemma AddRounds(a: nat, rounds: nat, modulus: nat)
    requires modulus > 0
    ensures (a + rounds * modulus) % modulus == a % modulus
    decreases rounds
  {
    if rounds != 0 {
      AddRounds(a, rounds - 1, modulus);
      assert a + rounds * modulus == (a + (rounds - 1) * modulus) + modulus;
      OneRound(a + (rounds - 1) * modulus, modulus);
    }
  }

  lemma OneRound(a: nat, modulus: nat)
    requires modulus > 0
    ensures (a + modulus) % modulus == a % modulus
  {
    var q, r := a / modulus, a % modulus;
    assert a + modulus == (q + 1) * modulus + r;
    UniqueRemainder(a + modulus, q + 1, r, modulus);
  }

  /** Quotient and remainder are unique. */
  lemma UniqueRemainder(value: nat, q: nat, r: nat, modulus: nat)
    requires modulus > 0 && r < modulus && value == q * modulus + r
    ensures value / modulus == q && value % modulus == r
  {
    var d := value / modulus;
    if d != q {
      RoundsApart(if d < q then d else q, if d < q then q else d, modulus);
    }
  }

  lemma RoundsApart(low: nat, high: nat, modulus: nat)
    requires low < high
    ensures low * modulus + modulus <= high * modulus
  {
    assert (low + 1) * modulus <= high * modulus;
  }

  lemma Split(value: nat, modulus: nat) returns (q: nat, r: nat)
    requires modulus > 0
    ensures value == q * modulus + r && r == value % modulus
  {
    q, r := value / modulus, value % modulus;
  }

  /** A remainder may be taken between two additions. */
  lemma RemainderAdds(start: nat, a: nat, b: nat, modulus: nat)
    requires modulus > 0
    ensures ((start + a) % modulus + b) % modulus == (start + a + b) % modulus
  {
    var q, r := Split(start + a, modulus);
    assert start + a + b == r + b + q * modulus;
    AddRounds(r + b, q, modulus);
  }
}
