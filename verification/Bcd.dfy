/**
 Binary-coded-decimal and hour codecs of the DP8573A counters.

 Every counter register keeps a BCD value in its low bits and unrelated bits
 above them.  The lemmas say what the rest of the model needs about a byte
 that is split this way; nothing else in the model looks inside a BCD byte.
 */
module Bcd {
  import opened Options

  function DecodeBcd(raw: bv8): Option<nat> {
    var high := (raw >> 4) as nat;
    var low := (raw & 0x0f) as nat;
    if high <= 9 && low <= 9 then Some(high * 10 + low) else None
  }

  function EncodeBcd(value: nat): bv8
    requires value < 100
  {
    ((value / 10) as bv8 << 4) | ((value % 10) as bv8)
  }

  /** The value of a counter field, if it is a BCD number within its limits. */
  function DecodeField(raw: bv8, mask: bv8, minimum: nat, maximum: nat): Option<nat> {
    var decoded := DecodeBcd(raw & mask);
    if decoded.Some? && minimum <= decoded.value <= maximum then decoded else None
  }

  /** Replaces the counter field of a byte and keeps every other bit. */
  function WithField(raw: bv8, mask: bv8, value: nat): bv8
    requires value < 100
  {
    (raw & !mask) | (EncodeBcd(value) & mask)
  }

  function HourMask(mode12: bool): bv8 {
    if mode12 then 0x9f else 0x3f
  }

  function DecodeHour(raw: bv8, mode12: bool): Option<nat> {
    if !mode12 then DecodeField(raw, 0x3f, 0, 23)
    else
      var hour := DecodeField(raw, 0x1f, 1, 12);
      if hour.None? then None
      else if hour.value == 12 then Some(if raw & 0x80 != 0 then 12 else 0)
      else Some(if raw & 0x80 != 0 then hour.value + 12 else hour.value)
  }

  function EncodeHour(hour: nat, mode12: bool): bv8
    requires hour < 24
  {
    if !mode12 then EncodeBcd(hour)
    else if hour == 0 then EncodeBcd(12)
    else if hour <= 11 then EncodeBcd(hour)
    else if hour == 12 then EncodeBcd(12) | 0x80
    else EncodeBcd(hour - 12) | 0x80
  }

  /** The masks of the plain BCD counters, with the first value that does not fit. */
  predicate FieldFits(mask: bv8, bound: nat) {
    || (mask == 0xff && bound <= 100)
    || (mask == 0x7f && bound <= 80)
    || (mask == 0x3f && bound <= 40)
    || (mask == 0x1f && bound <= 20)
    || (mask == 0x07 && bound <= 8)
  }

  lemma EncodeFits(value: nat, mask: bv8)
    requires value < 100 && FieldFits(mask, value + 1)
    ensures EncodeBcd(value) & mask == EncodeBcd(value)
  {
    var high, low := (value / 10) as bv8, (value % 10) as bv8;
    assert high <= 9 && low <= 9;
    if mask == 0x7f { assert high <= 7; }
    if mask == 0x3f { assert high <= 3; }
    if mask == 0x1f { assert high <= 1; }
    if mask == 0x07 { assert high == 0; }
  }

  lemma DecodeOfEncode(value: nat)
    requires value < 100
    ensures DecodeBcd(EncodeBcd(value)) == Some(value)
  {
    var high, low := (value / 10) as bv8, (value % 10) as bv8;
    assert high <= 9 && low <= 9;
    assert ((high << 4) | low) >> 4 == high;
    assert ((high << 4) | low) & 0x0f == low;
  }

  lemma EncodeOfDecode(raw: bv8)
    requires DecodeBcd(raw).Some?
    ensures DecodeBcd(raw).value < 100
    ensures EncodeBcd(DecodeBcd(raw).value) == raw
  {
    var value := DecodeBcd(raw).value;
    assert value / 10 == (raw >> 4) as nat;
    assert value % 10 == (raw & 0x0f) as nat;
    assert ((raw >> 4) << 4) | (raw & 0x0f) == raw;
  }

  lemma EncodeInjective(a: nat, b: nat)
    requires a < 100 && b < 100 && EncodeBcd(a) == EncodeBcd(b)
    ensures a == b
  {
    DecodeOfEncode(a);
    DecodeOfEncode(b);
  }

  /** BCD bytes and the numbers below one hundred correspond one to one. */
  lemma DecodeIffEncode(raw: bv8, value: nat)
    requires value < 100
    ensures DecodeBcd(raw) == Some(value) <==> raw == EncodeBcd(value)
  {
    if raw == EncodeBcd(value) {
      DecodeOfEncode(value);
    }
    if DecodeBcd(raw) == Some(value) {
      EncodeOfDecode(raw);
    }
  }

  /** The field of a byte holds the encoding of a number. */
  predicate Holds(raw: bv8, mask: bv8, value: nat)
    requires value < 100
  {
    raw & mask == EncodeBcd(value)
  }

  /** Two bytes differ inside the field at most. */
  predicate AgreeOutside(a: bv8, b: bv8, mask: bv8) {
    a & !mask == b & !mask
  }

  /** Two bytes agree inside the field. */
  predicate SameUnder(a: bv8, b: bv8, mask: bv8) {
    a & mask == b & mask
  }

  lemma SameUnderSwaps(a: bv8, b: bv8, c: bv8, mask: bv8)
    requires SameUnder(a, b, mask)
    ensures SameUnder(a, c, mask) == SameUnder(b, c, mask)
  {
  }

  /** A field decodes to a value exactly when it holds that value. */
  lemma FieldRoundTrip(raw: bv8, mask: bv8, minimum: nat, maximum: nat, value: nat)
    requires minimum <= value <= maximum < 100
    ensures DecodeField(raw, mask, minimum, maximum) == Some(value) <==> Holds(raw, mask, value)
  {
    var bits := raw & mask;
    DecodeIffEncode(bits, value);
  }

  /** Writing a field stores the value, and leaves the bits outside the mask alone. */
  lemma WriteField(raw: bv8, mask: bv8, value: nat)
    requires value < 100 && FieldFits(mask, value + 1)
    ensures Holds(WithField(raw, mask, value), mask, value)
    ensures AgreeOutside(WithField(raw, mask, value), raw, mask)
  {
    EncodeFits(value, mask);
    MaskedWrite(raw, mask, EncodeBcd(value));
  }

  lemma MaskedWrite(raw: bv8, mask: bv8, bits: bv8)
    ensures ((raw & !mask) | (bits & mask)) & mask == bits & mask
    ensures ((raw & !mask) | (bits & mask)) & !mask == raw & !mask
  {
  }

  /** A byte is its field and the rest. */
  lemma SplitByte(a: bv8, b: bv8, mask: bv8)
    requires SameUnder(a, b, mask) && AgreeOutside(a, b, mask)
    ensures a == b
  {
    assert a == (a & mask) | (a & !mask);
    assert b == (b & mask) | (b & !mask);
  }

  /** The hour field, AM/PM bit included, holds an hour of the day. */
  predicate HoldsHour(raw: bv8, mode12: bool, hour: nat)
    requires hour < 24
  {
    raw & HourMask(mode12) == EncodeHour(hour, mode12)
  }

  /** The hour field decodes to an hour exactly when it holds it. */
  lemma HourRoundTrip(raw: bv8, mode12: bool, hour: nat)
    requires hour < 24
    ensures DecodeHour(raw, mode12) == Some(hour) <==> HoldsHour(raw, mode12, hour)
  {
    if !mode12 {
      FieldRoundTrip(raw, 0x3f, 0, 23, hour);
      assert Holds(raw, 0x3f, hour) <==> raw & 0x3f == EncodeBcd(hour);
    } else {
      Hour12RoundTrip(raw, hour);
    }
  }

  lemma EncodeHourFits(hour: nat, mode12: bool)
    requires hour < 24
    ensures EncodeHour(hour, mode12) & HourMask(mode12) == EncodeHour(hour, mode12)
    ensures HoldsHour(EncodeHour(hour, mode12), mode12, hour)
  {
    if !mode12 {
      EncodeFits(hour, 0x3f);
    } else {
      Hour12RoundTrip(0, hour);
    }
  }

  lemma Hour12RoundTrip(raw: bv8, hour: nat)
    requires hour < 24
    ensures DecodeHour(raw, true) == Some(hour) <==> raw & 0x9f == EncodeHour(hour, true)
    ensures EncodeHour(hour, true) & 0x9f == EncodeHour(hour, true)
  {
    var digits := HourDigits(hour);
    Hour12(raw, hour, digits);
    FieldRoundTrip(raw, 0x1f, 1, 12, digits);
    var code := Hour12Code(hour, digits);
    assert Holds(raw, 0x1f, digits) <==> raw & 0x1f == code;
    HourBits(raw, code);
  }

  lemma Hour12Code(hour: nat, digits: nat) returns (code: bv8)
    requires hour < 24
    requires digits == HourDigits(hour)
    ensures code == EncodeBcd(digits) && code & 0x1f == code
    ensures EncodeHour(hour, true) == if hour >= 12 then code | 0x80 else code
  {
    code := EncodeBcd(digits);
    EncodeFits(digits, 0x1f);
  }

  /** Twelve-hour numbers and the AM/PM bit name each hour of the day once. */
  lemma Hour12(raw: bv8, hour: nat, digits: nat)
    requires hour < 24
    requires digits == HourDigits(hour)
    ensures DecodeHour(raw, true) == Some(hour)
            <==> DecodeField(raw, 0x1f, 1, 12) == Some(digits) && (raw & 0x80 != 0 <==> hour >= 12)
  {
  }

  lemma HourBits(raw: bv8, digits: bv8)
    requires digits & 0x1f == digits
    ensures raw & 0x9f == digits <==> raw & 0x1f == digits && raw & 0x80 == 0
    ensures raw & 0x9f == digits | 0x80 <==> raw & 0x1f == digits && raw & 0x80 != 0
    ensures digits & 0x9f == digits && (digits | 0x80) & 0x9f == digits | 0x80
  {
  }

  lemma DecodeHourBound(raw: bv8, mode12: bool)
    ensures DecodeHour(raw, mode12).Some? ==> DecodeHour(raw, mode12).value < 24
  {
  }

  /** The twelve-hour number an hour is written as. */
  function HourDigits(hour: nat): nat {
    if hour == 0 then 12 else if hour <= 12 then hour else hour - 12
  }

  lemma HourParts(raw: bv8, hour: nat)
    requires hour < 24 && HoldsHour(raw, true, hour)
    ensures DecodeField(raw, 0x1f, 1, 12) == Some(HourDigits(hour))
    ensures raw & 0x80 != 0 <==> hour >= 12
  {
    hide DecodeHour, HoldsHour, DecodeField;
    HourRoundTrip(raw, true, hour);
    Hour12(raw, hour, HourDigits(hour));
  }

  /** A twelve-hour field in place of the one in a byte. */
  function WithHour12(raw: bv8, digits: nat, afternoon: bool): bv8
    requires digits < 100
  {
    (raw & !0x9f) | EncodeBcd(digits) | (if afternoon then 0x80 else 0)
  }

  lemma WriteHour12(raw: bv8, hour: nat)
    requires hour < 24
    ensures HoldsHour(WithHour12(raw, HourDigits(hour), hour >= 12), true, hour)
    ensures AgreeOutside(raw, WithHour12(raw, HourDigits(hour), hour >= 12), 0x9f)
  {
    var digits, afternoon: bv8 := EncodeBcd(HourDigits(hour)), if hour >= 12 then 0x80 else 0;
    EncodeHourFits(hour, true);
    Hour12Joins(hour);
    WriteJoined(raw, digits, afternoon);
    hide EncodeBcd, EncodeHour, HourDigits;
  }

  lemma Hour12Joins(hour: nat)
    requires hour < 24
    ensures EncodeHour(hour, true) == EncodeBcd(HourDigits(hour)) | (if hour >= 12 then 0x80 else 0)
  {
    hide EncodeBcd;
  }

  lemma WriteJoined(raw: bv8, digits: bv8, afternoon: bv8)
    requires (digits | afternoon) & 0x9f == digits | afternoon
    ensures ((raw & !0x9f) | digits | afternoon) & 0x9f == digits | afternoon
    ensures ((raw & !0x9f) | digits | afternoon) & !0x9f == raw & !0x9f
  {
  }

  lemma EncodeHourInjective(a: nat, b: nat, mode12: bool)
    requires a < 24 && b < 24 && EncodeHour(a, mode12) == EncodeHour(b, mode12)
    ensures a == b
  {
    hide EncodeHour, HoldsHour, DecodeHour;
    EncodeHourFits(a, mode12);
    EncodeHourFits(b, mode12);
    HourRoundTrip(EncodeHour(a, mode12), mode12, a);
    HourRoundTrip(EncodeHour(a, mode12), mode12, b);
  }
}
