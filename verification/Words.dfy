/** Bytes and 32-bit words as numbers. */
module Words {
  type Byte = x: int | 0 <= x < 0x100
  type Word = x: int | 0 <= x < 0x1_0000_0000

  /** Whether the bit of the given weight is set. */
  predicate BitSet(value: nat, weight: nat)
    requires weight > 0
  {
    value / weight % 2 == 1
  }

  function Min(a: nat, b: nat): nat {
    if a < b then a else b
  }

  // Big-endian words

  function WordAt(data: seq<Byte>, at: nat): Word
    requires at + 4 <= |data|
  {
    0x100_0000 * data[at] as int + 0x1_0000 * data[at + 1] as int + 0x100 * data[at + 2] as int + data[at + 3] as int
  }

  function WordBytes(word: Word): seq<Byte> {
    [word / 0x100_0000, word / 0x1_0000 % 0x100, word / 0x100 % 0x100, word % 0x100]
  }

  lemma WordRoundTrip(word: Word)
    ensures WordAt(WordBytes(word), 0) == word
  {
    var high, middle := word / 0x1_0000, word / 0x100;
    assert word == 0x100 * middle + word % 0x100;
    assert middle == 0x100 * high + middle % 0x100 by {
      assert middle / 0x100 == high;
    }
    assert high == 0x100 * (word / 0x100_0000) + high % 0x100 by {
      assert high / 0x100 == word / 0x100_0000;
    }
  }
}
