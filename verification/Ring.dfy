/** A queue kept in a fixed buffer: a head and a length, indices taken modulo the size. */
module Ring {
  /** The queue a ring holds. */
  function Contents<T>(data: seq<T>, head: nat, length: nat): (queue: seq<T>)
    requires head < |data| && length <= |data|
    ensures |queue| == length
  {
    seq(length, i requires 0 <= i < length => data[(head + i) % |data|])
  }

  lemma WrapsOnce(index: nat, size: nat)
    requires 0 < size && index < 2 * size
    ensures index % size == if index < size then index else index - size
  {
    if index >= size {
      assert index == size * 1 + (index - size);
    }
  }

  /** Where the element `i` of a queue is kept. */
  lemma ContentsAt<T>(data: seq<T>, head: nat, length: nat, i: nat)
    requires head < |data| && i < length <= |data|
    ensures Contents(data, head, length)[i] == data[if head + i < |data| then head + i else head + i - |data|]
  {
    WrapsOnce(head + i, |data|);
  }

  /** Storing at the tail appends. */
  lemma Push<T>(data: seq<T>, head: nat, length: nat, value: T)
    requires head < |data| && length < |data|
    ensures Contents(data[(head + length) % |data| := value], head, length + 1) == Contents(data, head, length) + [value]
  {
    var tail := (head + length) % |data|;
    var stored := data[tail := value];
    WrapsOnce(head + length, |data|);
    forall i: nat | i < length + 1
      ensures Contents(stored, head, length + 1)[i] == (Contents(data, head, length) + [value])[i]
    {
      ContentsAt(stored, head, length + 1, i);
      if i < length {
        ContentsAt(data, head, length, i);
      }
    }
  }

  /** Moving the head on drops the first element. */
  lemma Pop<T>(data: seq<T>, head: nat, length: nat)
    requires head < |data| && 0 < length <= |data|
    ensures (head + 1) % |data| < |data|
    ensures Contents(data, head, length)[0] == data[head]
    ensures Contents(data, (head + 1) % |data|, length - 1) == Contents(data, head, length)[1..]
  {
    WrapsOnce(head + 1, |data|);
    ContentsAt(data, head, length, 0);
    var next := (head + 1) % |data|;
    forall i: nat | i < length - 1
      ensures Contents(data, next, length - 1)[i] == Contents(data, head, length)[1..][i]
    {
      ContentsAt(data, next, length - 1, i);
      ContentsAt(data, head, length, i + 1);
    }
  }

  /** Storing at the last place replaces the newest element. */
  lemma ReplaceLast<T>(data: seq<T>, head: nat, length: nat, value: T)
    requires head < |data| && 0 < length <= |data|
    ensures Contents(data[(head + length - 1) % |data| := value], head, length)
         == Contents(data, head, length)[length - 1 := value]
  {
    var last := (head + length - 1) % |data|;
    var stored := data[last := value];
    WrapsOnce(head + length - 1, |data|);
    forall i: nat | i < length
      ensures Contents(stored, head, length)[i] == Contents(data, head, length)[length - 1 := value][i]
    {
      ContentsAt(stored, head, length, i);
      ContentsAt(data, head, length, i);
    }
  }
}
