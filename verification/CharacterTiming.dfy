/**
 Durations of back-to-back serial characters.  A character takes a rational
 number of attoseconds; whole attoseconds are used and the rest is carried, so
 no error builds up however long the line stays busy.
 */
module CharacterTiming {
  import opened Arithmetic

  /** The duration of one character of `length` clock-scaled attoseconds, given the carried rest. */
  function Duration(length: nat, rest: nat, clock: nat): nat
    requires clock > 0
  {
    (length + rest) / clock
  }

  function NextRest(length: nat, rest: nat, clock: nat): (next: nat)
    requires clock > 0
    ensures next < clock
  {
    (length + rest) % clock
  }

  /** The rest carried after a number of characters. */
  function RestAfter(length: nat, rest: nat, clock: nat, count: nat): nat
    requires clock > 0
  {
    if count == 0 then rest else NextRest(length, RestAfter(length, rest, clock, count - 1), clock)
  }

  /** The time that a number of characters take. */
  function TotalDuration(length: nat, rest: nat, clock: nat, count: nat): nat
    requires clock > 0
  {
    if count == 0 then 0
    else
      TotalDuration(length, rest, clock, count - 1) + Duration(length, RestAfter(length, rest, clock, count - 1), clock)
  }

  lemma {:induction false} TotalIsExact(length: nat, rest: nat, clock: nat, count: nat)
    requires clock > 0
    ensures rest + count * length
         == clock * TotalDuration(length, rest, clock, count) + RestAfter(length, rest, clock, count)
  {
    if count != 0 {
      TotalIsExact(length, rest, clock, count - 1);
      var before := RestAfter(length, rest, clock, count - 1);
      var total := TotalDuration(length, rest, clock, count - 1);
      Divided(length + before, clock);
      assert count * length == (count - 1) * length + length;
      Distribute(clock, total, Duration(length, before, clock));
    }
  }

  lemma Divided(value: nat, clock: nat)
    requires clock > 0
    ensures value == clock * (value / clock) + value % clock
  {
  }

  lemma Distribute(clock: nat, a: nat, b: nat)
    ensures clock * (a + b) == clock * a + clock * b
  {
  }

  /** Back-to-back characters do not drift: their total is the rounded-down exact time. */
  lemma NoDrift(length: nat, rest: nat, clock: nat, count: nat, exact: nat)
    requires clock > 0 && rest < clock && exact == rest + count * length
    ensures TotalDuration(length, rest, clock, count) == exact / clock
    ensures RestAfter(length, rest, clock, count) == exact % clock
  {
    TotalIsExact(length, rest, clock, count);
    RestStaysSmall(length, rest, clock, count);
    var q, r := TotalDuration(length, rest, clock, count), RestAfter(length, rest, clock, count);
    ExactSplit(exact, clock, q, r, count * length, rest);
  }

  lemma ExactSplit(exact: nat, clock: nat, q: nat, r: nat, product: nat, rest: nat)
    requires clock > 0 && r < clock && exact == rest + product && rest + product == clock * q + r
    ensures exact / clock == q && exact % clock == r
  {
    assert exact == q * clock + r;
    UniqueRemainder(exact, q, r, clock);
  }

  lemma RestStaysSmall(length: nat, rest: nat, clock: nat, count: nat)
    requires clock > 0 && rest < clock
    ensures RestAfter(length, rest, clock, count) < clock
  {
    hide NextRest;
  }

  /** A character as long as its clock takes some time. */
  lemma DurationPositive(length: nat, rest: nat, clock: nat)
    requires clock > 0 && length >= clock
    ensures Duration(length, rest, clock) >= 1
  {
    Divided(length + rest, clock);
    var duration := (length + rest) / clock;
    assert duration == 0 ==> clock * duration == 0;
  }
}
