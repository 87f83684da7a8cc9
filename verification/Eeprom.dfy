/**
 The NMC93CS46 serial EEPROM: four pins, eleven-bit commands, sixteen-bit words.
 The main results are stated over whole pin sequences: what is shifted in can be
 shifted out again, and nothing but a finished, enabled write changes a word.
 */
module Eeprom {
  import opened Arithmetic

  const WORD_COUNT := 64
  const COMMAND_BITS := 11
  const DATA_BITS := 16

  // The operation is the top five bits of a command, the address the low six.
  const READ_OPERATION := 0x18
  const WRITE_OPERATION := 0x14
  const WRITE_ENABLE_COMMAND := 0x4c0
  const WRITE_DISABLE_COMMAND := 0x400

  type Word = x: int | 0 <= x < 0x1_0000
  type Contents = s: seq<Word> | |s| == 64 witness seq(64, _ => 0)

  datatype Transfer =
    | Command(bits: nat, count: nat)
    | Read(value: Word, nextBit: nat)
    | Write(address: nat, value: Word, count: nat)
    | Ignore

  datatype State = State(
    words: Contents,
    transfer: Transfer,
    writeEnabled: bool,
    chipSelect: bool,
    clock: bool,
    dataOut: bool)

  /** What every pin sequence keeps about a transfer in progress. */
  predicate TransferValid(transfer: Transfer) {
    match transfer
    case Command(bits, count) => count < COMMAND_BITS && bits < Power2(count)
    case Read(_, nextBit) => nextBit < DATA_BITS
    case Write(address, _, count) => address < WORD_COUNT && count < DATA_BITS
    case Ignore => true
  }

  function Power2(exponent: nat): (power: nat)
    ensures power >= 1
  {
    if exponent == 0 then 1 else 2 * Power2(exponent - 1)
  }

  function Bit(data: bool): nat {
    if data then 1 else 0
  }

  function DataOutPin(e: State): bool {
    e.chipSelect && e.dataOut
  }

  // One pin change

  function DecodeCommand(e: State, command: nat): State
    requires command < 0x800
  {
    var operation, address := command / 64, command % 64;
    var e1 := e.(dataOut := true);
    if operation == READ_OPERATION then e1.(transfer := Read(e.words[address], 0))
    else if operation == WRITE_OPERATION then e1.(transfer := Write(address, 0, 0))
    else if command == WRITE_ENABLE_COMMAND then e1.(writeEnabled := true, transfer := Ignore)
    else if command == WRITE_DISABLE_COMMAND then e1.(writeEnabled := false, transfer := Ignore)
    else e1.(transfer := Ignore)
  }

  /** A sixteen-bit shift register drops the bit that leaves it. */
  function ShiftIn(value: Word, data: bool): Word {
    (value * 2 + Bit(data)) % 0x1_0000
  }

  function RisingEdge(e: State, dataIn: bool): State
    requires TransferValid(e.transfer)
  {
    match e.transfer
    case Command(bits, count) =>
      if count == 0 && !dataIn then e.(dataOut := true)
      else if count + 1 == COMMAND_BITS then
        CommandIsEleven(bits, dataIn);
        DecodeCommand(e, bits * 2 + Bit(dataIn))
      else e.(transfer := Command(bits * 2 + Bit(dataIn), count + 1), dataOut := true)
    case Read(value, nextBit) =>
      e.(dataOut := value / Power2(DATA_BITS - 1 - nextBit) % 2 == 1,
         transfer := if nextBit + 1 == DATA_BITS then Ignore else Read(value, nextBit + 1))
    case Write(address, value, count) =>
      var shifted := ShiftIn(value, dataIn);
      if count + 1 == DATA_BITS then
        e.(words := if e.writeEnabled then e.words[address := shifted] else e.words,
           transfer := Ignore, dataOut := true)
      else e.(transfer := Write(address, shifted, count + 1))
    case Ignore => e
  }

  lemma CommandIsEleven(bits: nat, dataIn: bool)
    requires bits < Power2(COMMAND_BITS - 1)
    ensures bits * 2 + Bit(dataIn) < 0x800
  {
    assert Power2(2) == 4;
    assert Power2(4) == 16;
    assert Power2(6) == 64;
    assert Power2(8) == 256;
  }

  function DrivePins(e: State, chipSelect: bool, clock: bool, dataIn: bool): State
    requires TransferValid(e.transfer)
  {
    if !chipSelect then
      e.(transfer := Command(0, 0), chipSelect := false, clock := clock, dataOut := false)
    else
      var e1 := if e.chipSelect then e else e.(transfer := Command(0, 0), dataOut := true);
      var risingEdge := !e.clock && clock;
      var e2 := e1.(chipSelect := true, clock := clock);
      if risingEdge then RisingEdge(e2, dataIn) else e2
  }

  lemma StaysValid(e: State, chipSelect: bool, clock: bool, dataIn: bool)
    requires TransferValid(e.transfer)
    ensures TransferValid(DrivePins(e, chipSelect, clock, dataIn).transfer)
  {
    assert TransferValid(Command(0, 0));
    if chipSelect && clock && !e.clock {
      EdgeStaysValid(if e.chipSelect then e.(clock := clock)
                     else e.(transfer := Command(0, 0), dataOut := true, chipSelect := true, clock := clock), dataIn);
    }
    hide RisingEdge, TransferValid;
  }

  lemma EdgeStaysValid(e: State, dataIn: bool)
    requires TransferValid(e.transfer)
    ensures TransferValid(RisingEdge(e, dataIn).transfer)
  {
    if e.transfer.Command? {
      CommandGrows(e.transfer.bits, e.transfer.count, dataIn);
    }
    hide Power2, ShiftIn;
  }

  // Any sequence of pin changes

  datatype Pins = Pins(chipSelect: bool, clock: bool, dataIn: bool)

  function DriveAll(e: State, pins: seq<Pins>): (after: State)
    requires TransferValid(e.transfer)
    ensures TransferValid(after.transfer)
    decreases |pins|
  {
    if pins == [] then e
    else
      StaysValid(e, pins[0].chipSelect, pins[0].clock, pins[0].dataIn);
      DriveAll(DrivePins(e, pins[0].chipSelect, pins[0].clock, pins[0].dataIn), pins[1..])
  }

  lemma {:induction false} DriveAllSplits(e: State, a: seq<Pins>, b: seq<Pins>)
    requires TransferValid(e.transfer)
    ensures DriveAll(e, a + b) == DriveAll(DriveAll(e, a), b)
    decreases |a|
  {
    hide DrivePins;
    if a == [] {
      assert a + b == b;
    } else {
      StaysValid(e, a[0].chipSelect, a[0].clock, a[0].dataIn);
      assert (a + b)[1..] == a[1..] + b;
      DriveAllSplits(DrivePins(e, a[0].chipSelect, a[0].clock, a[0].dataIn), a[1..], b);
    }
  }

  /** One bit: data is set up, the clock rises and falls. */
  function Clocked(dataIn: bool): seq<Pins> {
    [Pins(true, true, dataIn), Pins(true, false, dataIn)]
  }

  function ClockedAll(bits: seq<bool>): seq<Pins> {
    if bits == [] then [] else Clocked(bits[0]) + ClockedAll(bits[1..])
  }

  const Select: seq<Pins> := [Pins(true, false, false)]
  const Deselect: seq<Pins> := [Pins(false, false, false)]

  /** Chip selected, clock low: between two bits. */
  predicate Ready(e: State) {
    e.chipSelect && !e.clock && TransferValid(e.transfer)
  }

  function ClockBit(e: State, dataIn: bool): State
    requires Ready(e)
  {
    RisingEdge(e.(clock := true), dataIn).(clock := false)
  }

  lemma ClockedIs(e: State, dataIn: bool, rest: seq<Pins>)
    requires Ready(e)
    ensures Ready(ClockBit(e, dataIn))
    ensures DriveAll(e, Clocked(dataIn) + rest) == DriveAll(ClockBit(e, dataIn), rest)
  {
    var pins := Clocked(dataIn) + rest;
    StaysValid(e, true, true, dataIn);
    var high := DrivePins(e, true, true, dataIn);
    assert high == RisingEdge(e.(clock := true), dataIn);
    assert pins[1..] == [Pins(true, false, dataIn)] + rest;
    assert pins[1..][1..] == rest;
    assert pins[0] == Pins(true, true, dataIn) && pins[1..][0] == Pins(true, false, dataIn);
    StaysValid(high, true, false, dataIn);
    hide RisingEdge, TransferValid;
    assert DrivePins(high, true, false, dataIn) == ClockBit(e, dataIn);
  }

  // Bits and numbers

  /** A number with bits appended, most significant first. */
  function ValueFrom(value: nat, bits: seq<bool>): nat
    decreases |bits|
  {
    if bits == [] then value else ValueFrom(value * 2 + Bit(bits[0]), bits[1..])
  }

  /** The low bits of a number, most significant first. */
  function BitsOf(value: nat, width: nat): (bits: seq<bool>)
    ensures |bits| == width
  {
    if width == 0 then [] else BitsOf(value / 2, width - 1) + [value % 2 == 1]
  }

  lemma {:induction false} ValueFromAppends(value: nat, bits: seq<bool>, last: bool)
    ensures ValueFrom(value, bits + [last]) == ValueFrom(value, bits) * 2 + Bit(last)
    decreases |bits|
  {
    if bits != [] {
      assert (bits + [last])[1..] == bits[1..] + [last];
      ValueFromAppends(value * 2 + Bit(bits[0]), bits[1..], last);
    }
  }

  lemma {:induction false} ValueOfBits(value: nat, width: nat)
    requires value < Power2(width)
    ensures ValueFrom(0, BitsOf(value, width)) == value
    decreases width
  {
    if width != 0 {
      ValueOfBits(value / 2, width - 1);
      ValueFromAppends(0, BitsOf(value / 2, width - 1), value % 2 == 1);
    }
  }

  lemma {:induction false} BitAt(value: nat, width: nat, k: nat)
    requires k < width
    ensures BitsOf(value, width)[k] == (value / Power2(width - 1 - k) % 2 == 1)
    decreases width
  {
    if k < width - 1 {
      BitAt(value / 2, width - 1, k);
      HalfFirst(value, Power2(width - 2 - k));
    }
  }

  lemma HalfFirst(value: nat, power: nat)
    requires power >= 1
    ensures value / 2 / power == value / (2 * power)
  {
    var half, q := value / 2, value / 2 / power;
    var r := half - q * power;
    assert half == q * power + r && 0 <= r < power;
    assert value == q * (2 * power) + (2 * r + value % 2);
    UniqueRemainder(value, q, 2 * r + value % 2, 2 * power);
  }

  // Shifting many bits

  function ClockBits(e: State, bits: seq<bool>): (after: State)
    requires Ready(e)
    ensures Ready(after)
    decreases |bits|
  {
    if bits == [] then e
    else
      ClockedIs(e, bits[0], []);
      ClockBits(ClockBit(e, bits[0]), bits[1..])
  }

  lemma {:induction false} ClockedAllIs(e: State, bits: seq<bool>, rest: seq<Pins>)
    requires Ready(e)
    ensures DriveAll(e, ClockedAll(bits) + rest) == DriveAll(ClockBits(e, bits), rest)
    decreases |bits|
  {
    hide DriveAll, ClockBit, Ready, Clocked;
    if bits == [] {
      assert ClockedAll(bits) + rest == rest;
    } else {
      ClockedIs(e, bits[0], ClockedAll(bits[1..]) + rest);
      assert ClockedAll(bits) + rest == Clocked(bits[0]) + (ClockedAll(bits[1..]) + rest);
      ClockedAllIs(ClockBit(e, bits[0]), bits[1..], rest);
    }
  }

  lemma {:induction false} ClockBitsAdds(e: State, a: seq<bool>, b: seq<bool>)
    requires Ready(e)
    ensures ClockBits(e, a + b) == ClockBits(ClockBits(e, a), b)
    decreases |a|
  {
    hide ClockBit, Ready;
    if a == [] {
      assert a + b == b;
    } else {
      assert (a + b)[1..] == a[1..] + b;
      ClockedIs(e, a[0], []);
      ClockBitsAdds(ClockBit(e, a[0]), a[1..], b);
    }
  }

  function Zeros(count: nat): (bits: seq<bool>)
    ensures |bits| == count
  {
    if count == 0 then [] else [false] + Zeros(count - 1)
  }

  /** Selected and waiting for a start bit. */
  predicate Fresh(e: State) {
    e.chipSelect && !e.clock && e.dataOut && e.transfer == Command(0, 0)
  }

  /** Zeros before the start bit change nothing, however many. */
  lemma {:induction false} LeadingZeros(e: State, count: nat)
    requires Fresh(e)
    ensures ClockBits(e, Zeros(count)) == e
  {
    if count != 0 {
      assert ClockBit(e, false) == e;
      assert Zeros(count)[1..] == Zeros(count - 1);
      LeadingZeros(e, count - 1);
    }
  }

  /** Command bits gather until the eleventh. */
  lemma {:induction false} CommandGathers(e: State, bits: seq<bool>)
    requires Ready(e) && e.transfer.Command? && e.dataOut
    requires e.transfer.count + |bits| < COMMAND_BITS
    requires e.transfer.count == 0 ==> bits == [] || bits[0]
    ensures ClockBits(e, bits)
         == e.(transfer := Command(ValueFrom(e.transfer.bits, bits), e.transfer.count + |bits|))
    decreases |bits|
  {
    if bits != [] {
      var next := ClockBit(e, bits[0]);
      assert next == e.(transfer := Command(e.transfer.bits * 2 + Bit(bits[0]), e.transfer.count + 1));
      CommandGathers(next, bits[1..]);
    }
  }

  /** A whole command is decoded. */
  lemma CommandDecodes(e: State, command: nat)
    requires Fresh(e) && 0x400 <= command < 0x800
    ensures ClockBits(e, BitsOf(command, 11)) == DecodeCommand(e, command)
  {
    var bits := BitsOf(command, 11);
    StartBit(command);
    var first, last := bits[..10], command % 2 == 1;
    assert bits == BitsOf(command / 2, 10) + [last];
    assert first == BitsOf(command / 2, 10) && bits == first + [last];
    assert first[0] == bits[0];
    CommandGathers(e, first);
    PowersOfTwo();
    ValueOfBits(command / 2, 10);
    ClockBitsAdds(e, first, [last]);
    var gathered := ClockBits(e, first);
    assert gathered == e.(transfer := Command(command / 2, 10));
    assert [last][1..] == [];
    assert ClockBits(gathered, [last]) == ClockBit(gathered, last);
    LastCommandBit(e, command);
  }

  lemma LastCommandBit(e: State, command: nat)
    requires Fresh(e) && 0x400 <= command < 0x800 && command / 2 < Power2(10)
    ensures ClockBit(e.(transfer := Command(command / 2, 10)), command % 2 == 1) == DecodeCommand(e, command)
  {
    assert command / 2 * 2 + Bit(command % 2 == 1) == command;
    hide Power2;
  }

  lemma PowersOfTwo()
    ensures Power2(10) == 0x400 && Power2(11) == 0x800 && Power2(15) == 0x8000 && Power2(16) == 0x1_0000
  {
    assert Power2(3) == 8;
    assert Power2(6) == 64;
    assert Power2(9) == 0x200;
    assert Power2(12) == 0x1000;
    assert Power2(15) == 0x8000;
  }

  lemma StartBit(command: nat)
    requires 0x400 <= command < 0x800
    ensures BitsOf(command, 11)[0]
  {
    BitAt(command, 11, 0);
    PowersOfTwo();
  }

  // Data

  /** One data bit more, which is not the last. */
  lemma DataBit(e: State, data: bool)
    requires Ready(e) && e.transfer.Write? && e.transfer.count + 1 < DATA_BITS && e.transfer.value < 0x8000
    ensures var t := e.transfer;
            ClockBit(e, data) == e.(transfer := Write(t.address, t.value * 2 + Bit(data), t.count + 1))
  {
    NoBitLost(e.transfer.value, data);
  }

  /** Fewer than sixteen data bits stay in the shift register. */
  lemma {:induction false} DataGathers(e: State, bits: seq<bool>)
    requires Ready(e) && e.transfer.Write? && e.transfer.count + |bits| < DATA_BITS
    requires e.transfer.value < Power2(e.transfer.count)
    ensures ValueFrom(e.transfer.value, bits) < 0x1_0000
    ensures ClockBits(e, bits)
         == e.(transfer := Write(e.transfer.address, ValueFrom(e.transfer.value, bits), e.transfer.count + |bits|))
    decreases |bits|
  {
    var t := e.transfer;
    RoomForBits(t.value, t.count);
    hide ClockBit, Power2;
    if bits != [] {
      DataBit(e, bits[0]);
      var next := ClockBit(e, bits[0]);
      DataGathers(next, bits[1..]);
    }
  }

  /** A value of fewer than sixteen bits has room for one more. */
  lemma RoomForBits(value: nat, count: nat)
    requires value < Power2(count) && count < DATA_BITS
    ensures value < 0x8000
    ensures forall data: bool :: value * 2 + Bit(data) < Power2(count + 1)
  {
    PowersOfTwo();
    PowerGrows(count, 15);
  }

  lemma NoBitLost(value: Word, data: bool)
    requires value < 0x8000
    ensures ShiftIn(value, data) == value * 2 + Bit(data)
  {
  }

  lemma {:induction false} PowerGrows(a: nat, b: nat)
    requires a <= b
    ensures Power2(a) <= Power2(b)
  {
    if a < b {
      PowerGrows(a, b - 1);
    }
  }

  /** After a transfer is over, further bits do nothing. */
  lemma {:induction false} IgnoresBits(e: State, bits: seq<bool>)
    requires Ready(e) && e.transfer == Ignore
    ensures ClockBits(e, bits) == e
    decreases |bits|
  {
    if bits != [] {
      assert ClockBit(e, bits[0]) == e;
      IgnoresBits(e, bits[1..]);
    }
  }

  /** What a write stores, once sixteen bits are in. */
  function Written(e: State, address: nat, data: seq<bool>): Contents
    requires address < WORD_COUNT
  {
    if |data| < DATA_BITS || !e.writeEnabled then e.words
    else e.words[address := ValueFrom(0, data[..16]) % 0x1_0000]
  }

  lemma DataStores(e: State, data: seq<bool>)
    requires Ready(e) && e.transfer.Write? && e.transfer.count == 0 && e.transfer.value == 0
    requires e.transfer.address < WORD_COUNT
    ensures ClockBits(e, data).words == Written(e, e.transfer.address, data)
    ensures ClockBits(e, data).writeEnabled == e.writeEnabled
  {
    if |data| < DATA_BITS {
      DataGathers(e, data);
    } else {
      var first, last, rest := data[..15], data[15], data[16..];
      assert data == first + ([last] + rest) && data[..16] == first + [last];
      DataGathers(e, first);
      var gathered := ClockBits(e, first);
      ValueFromAppends(0, first, last);
      ClockBitsAdds(e, first, [last] + rest);
      assert ([last] + rest)[1..] == rest;
      var stored := ClockBit(gathered, last);
      assert Ready(stored) && stored.transfer == Ignore;
      IgnoresBits(stored, rest);
    }
  }

  // Sessions

  /** A selection of the chip with some bits clocked in, from any earlier pin state. */
  function Session(zeros: nat, bits: seq<bool>): seq<Pins> {
    Deselect + Select + ClockedAll(Zeros(zeros) + bits)
  }

  function Selected(e: State): State {
    e.(transfer := Command(0, 0), chipSelect := true, clock := false, dataOut := true)
  }

  lemma SessionSelects(e: State, rest: seq<Pins>)
    requires TransferValid(e.transfer)
    ensures DriveAll(e, Deselect + Select + rest) == DriveAll(Selected(e), rest)
  {
    var pins := Deselect + Select + rest;
    StaysValid(e, false, false, false);
    var low := DrivePins(e, false, false, false);
    StaysValid(low, true, false, false);
    assert pins[0] == Pins(false, false, false) && pins[1..] == Select + rest;
    assert (Select + rest)[0] == Pins(true, false, false) && (Select + rest)[1..] == rest;
    assert DrivePins(low, true, false, false) == Selected(e);
  }

  lemma SessionIs(e: State, zeros: nat, bits: seq<bool>)
    requires TransferValid(e.transfer)
    ensures DriveAll(e, Session(zeros, bits)) == ClockBits(Selected(e), bits)
  {
    var selected := Selected(e);
    var all := Zeros(zeros) + bits;
    SessionSelects(e, ClockedAll(all));
    ClockedAllIs(selected, all, []);
    assert ClockedAll(all) + [] == ClockedAll(all);
    ClockBitsAdds(selected, Zeros(zeros), bits);
    LeadingZeros(selected, zeros);
  }

  lemma CommandSession(e: State, zeros: nat, command: nat, data: seq<bool>)
    requires TransferValid(e.transfer) && 0x400 <= command < 0x800
    ensures TransferValid(DecodeCommand(Selected(e), command).transfer)
    ensures DriveAll(e, Session(zeros, BitsOf(command, 11) + data))
         == ClockBits(DecodeCommand(Selected(e), command), data)
  {
    SessionIs(e, zeros, BitsOf(command, 11) + data);
    ClockBitsAdds(Selected(e), BitsOf(command, 11), data);
    CommandDecodes(Selected(e), command);
  }

  /** A write session stores exactly when writing is enabled and all sixteen bits have come. */
  lemma WriteSession(e: State, zeros: nat, address: nat, data: seq<bool>)
    requires TransferValid(e.transfer) && address < WORD_COUNT
    ensures DriveAll(e, Session(zeros, BitsOf(0x500 + address, 11) + data)).words == Written(e, address, data)
    ensures DriveAll(e, Session(zeros, BitsOf(0x500 + address, 11) + data)).writeEnabled == e.writeEnabled
  {
    var command := 0x500 + address;
    CommandSession(e, zeros, command, data);
    assert command / 64 == WRITE_OPERATION && command % 64 == address;
    DataStores(DecodeCommand(Selected(e), command), data);
  }

  lemma EnableSession(e: State, zeros: nat)
    requires TransferValid(e.transfer)
    ensures DriveAll(e, Session(zeros, BitsOf(WRITE_ENABLE_COMMAND, 11))).words == e.words
    ensures DriveAll(e, Session(zeros, BitsOf(WRITE_ENABLE_COMMAND, 11))).writeEnabled
  {
    CommandSession(e, zeros, WRITE_ENABLE_COMMAND, []);
    assert BitsOf(WRITE_ENABLE_COMMAND, 11) + [] == BitsOf(WRITE_ENABLE_COMMAND, 11);
  }

  lemma DisableSession(e: State, zeros: nat)
    requires TransferValid(e.transfer)
    ensures DriveAll(e, Session(zeros, BitsOf(WRITE_DISABLE_COMMAND, 11))).words == e.words
    ensures !DriveAll(e, Session(zeros, BitsOf(WRITE_DISABLE_COMMAND, 11))).writeEnabled
  {
    CommandSession(e, zeros, WRITE_DISABLE_COMMAND, []);
    assert BitsOf(WRITE_DISABLE_COMMAND, 11) + [] == BitsOf(WRITE_DISABLE_COMMAND, 11);
  }

  /** A command that is none of the four, whatever follows it, changes nothing that is kept. */
  lemma OtherSession(e: State, zeros: nat, command: nat, data: seq<bool>)
    requires TransferValid(e.transfer) && 0x400 <= command < 0x500
    requires command != 0x4c0 && command != 0x400
    ensures DriveAll(e, Session(zeros, BitsOf(command, 11) + data)).words == e.words
    ensures DriveAll(e, Session(zeros, BitsOf(command, 11) + data)).writeEnabled == e.writeEnabled
  {
    CommandSession(e, zeros, command, data);
    IgnoresBits(DecodeCommand(Selected(e), command), data);
  }

  /** After a disable command a write of any word stores nothing. */
  lemma DisabledWrite(e: State, address: nat, data: seq<bool>, z1: nat, z2: nat)
    requires TransferValid(e.transfer) && address < WORD_COUNT
    ensures DriveAll(e, Session(z1, BitsOf(WRITE_DISABLE_COMMAND, 11)) + Session(z2, BitsOf(0x500 + address, 11) + data)).words
         == e.words
  {
    var disable := Session(z1, BitsOf(WRITE_DISABLE_COMMAND, 11));
    var write := Session(z2, BitsOf(0x500 + address, 11) + data);
    hide Session, DriveAll, BitsOf, ClockBits;
    DisableSession(e, z1);
    WriteSession(DriveAll(e, disable), z2, address, data);
    DriveAllSplits(e, disable, write);
  }

  /** The bits that come out while further bits are clocked. */
  function Samples(e: State, count: nat): seq<bool>
    requires Ready(e)
    decreases count
  {
    if count == 0 then []
    else
      ClockedIs(e, false, []);
      [DataOutPin(DrivePins(e, true, true, false))] + Samples(ClockBit(e, false), count - 1)
  }

  lemma {:induction false} SamplesAreBits(e: State, count: nat)
    requires Ready(e) && e.transfer.Read? && e.transfer.nextBit + count == DATA_BITS && count > 0
    ensures Samples(e, count) == BitsOf(e.transfer.value, 16)[e.transfer.nextBit..]
    decreases count
  {
    var k, value := e.transfer.nextBit, e.transfer.value;
    var next := ClockBit(e, false);
    BitAt(value, 16, k);
    var bits := BitsOf(value, 16);
    assert DataOutPin(DrivePins(e, true, true, false)) == bits[k];
    hide DrivePins, Power2;
    if count == 1 {
      assert Samples(next, 0) == [];
    } else {
      assert next.transfer == Read(value, k + 1);
      SamplesAreBits(next, count - 1);
    }
    assert bits[k..] == [bits[k]] + bits[k + 1..];
  }

  /** A read session gives the stored word, most significant bit first, and changes nothing. */
  lemma ReadSession(e: State, zeros: nat, address: nat)
    requires TransferValid(e.transfer) && address < WORD_COUNT
    ensures var after := DriveAll(e, Session(zeros, BitsOf(0x600 + address, 11)));
            Ready(after) && Samples(after, 16) == BitsOf(e.words[address], 16) && after.words == e.words
  {
    var command := 0x600 + address;
    CommandSession(e, zeros, command, []);
    assert BitsOf(command, 11) + [] == BitsOf(command, 11);
    assert command / 64 == READ_OPERATION && command % 64 == address;
    var after := DecodeCommand(Selected(e), command);
    SamplesAreBits(after, 16);
  }

  /** Enable, write, read: the word comes back, and only that word has changed. */
  lemma WriteThenRead(e: State, address: nat, value: Word, z1: nat, z2: nat, z3: nat)
    requires TransferValid(e.transfer) && address < WORD_COUNT
    ensures var after := DriveAll(e, Session(z1, BitsOf(WRITE_ENABLE_COMMAND, 11))
                                     + Session(z2, BitsOf(0x500 + address, 11) + BitsOf(value, 16))
                                     + Session(z3, BitsOf(0x600 + address, 11)));
            && Ready(after)
            && after.words == e.words[address := value]
            && Samples(after, 16) == BitsOf(value, 16)
  {
    var enable := Session(z1, BitsOf(WRITE_ENABLE_COMMAND, 11));
    var write := Session(z2, BitsOf(0x500 + address, 11) + BitsOf(value, 16));
    var read := Session(z3, BitsOf(0x600 + address, 11));
    hide Session, Samples, DriveAll, BitsOf, ClockBits;
    EnableSession(e, z1);
    var enabled := DriveAll(e, enable);
    WriteSession(enabled, z2, address, BitsOf(value, 16));
    WholeWord(enabled, address, value);
    var written := DriveAll(enabled, write);
    ReadSession(written, z3, address);
    DriveAllSplits(e, enable, write);
    DriveAllSplits(e, enable + write, read);
  }

  lemma WholeWord(e: State, address: nat, value: Word)
    requires address < WORD_COUNT && e.writeEnabled
    ensures Written(e, address, BitsOf(value, 16)) == e.words[address := value]
  {
    PowersOfTwo();
    ValueOfBits(value, 16);
    assert BitsOf(value, 16)[..16] == BitsOf(value, 16);
  }

  // The output over all pin sequences

  /** A chip that is not selected forgets its transfer; a selected one holds its output high until it reads out bits. */
  predicate OutputHolds(e: State) {
    && (!e.chipSelect ==> e.transfer == Command(0, 0))
    && (e.chipSelect && (e.transfer.Command? || e.transfer.Write?) ==> e.dataOut)
    && (e.chipSelect && e.transfer.Read? && e.transfer.nextBit == 0 ==> e.dataOut)
  }

  lemma PinsAreFollowed(e: State, chipSelect: bool, clock: bool, dataIn: bool)
    requires TransferValid(e.transfer) && OutputHolds(e)
    ensures var after := DrivePins(e, chipSelect, clock, dataIn);
            && after.chipSelect == chipSelect && after.clock == clock && OutputHolds(after)
            && (!chipSelect ==> !DataOutPin(after) && after == e.(transfer := Command(0, 0), chipSelect := false, clock := clock,
                                                                  dataOut := false))
            && (chipSelect && !(clock && !e.clock) ==>
                  after == if e.chipSelect then e.(clock := clock)
                           else e.(transfer := Command(0, 0), chipSelect := true, clock := clock, dataOut := true))
  {
    hide Power2, ShiftIn;
    if chipSelect && clock && !e.clock {
      EdgeHolds(if e.chipSelect then e.(clock := clock)
                else e.(transfer := Command(0, 0), dataOut := true, chipSelect := true, clock := clock), dataIn);
    }
    hide RisingEdge;
  }

  lemma EdgeHolds(e: State, dataIn: bool)
    requires TransferValid(e.transfer) && OutputHolds(e) && e.chipSelect
    ensures var after := RisingEdge(e, dataIn);
            OutputHolds(after) && after.chipSelect && after.clock == e.clock
  {
    hide Power2, ShiftIn;
  }

  /** So on every sequence the output is low while the chip is not selected, and high while it takes a command or data. */
  lemma {:induction false} OutputOverRuns(e: State, pins: seq<Pins>)
    requires TransferValid(e.transfer) && OutputHolds(e)
    ensures OutputHolds(DriveAll(e, pins))
    decreases |pins|
  {
    hide DrivePins, OutputHolds;
    if pins != [] {
      StaysValid(e, pins[0].chipSelect, pins[0].clock, pins[0].dataIn);
      PinsAreFollowed(e, pins[0].chipSelect, pins[0].clock, pins[0].dataIn);
      OutputOverRuns(DrivePins(e, pins[0].chipSelect, pins[0].clock, pins[0].dataIn), pins[1..]);
    }
  }

  // Safety over all pin sequences

  /** The device after each prefix of a pin sequence. */
  predicate NeverEnabled(e: State, pins: seq<Pins>)
    requires TransferValid(e.transfer)
  {
    forall n: nat :: n <= |pins| ==> !DriveAll(e, pins[..n]).writeEnabled
  }

  /** Whatever is done to the pins, no word changes while writing stays disabled. */
  lemma {:induction false} DisabledKeepsWords(e: State, pins: seq<Pins>)
    requires TransferValid(e.transfer) && NeverEnabled(e, pins)
    ensures DriveAll(e, pins).words == e.words
    decreases |pins|
  {
    if pins != [] {
      assert pins[..0] == [];
      assert !DriveAll(e, pins[..0]).writeEnabled;
      StaysValid(e, pins[0].chipSelect, pins[0].clock, pins[0].dataIn);
      var next := DrivePins(e, pins[0].chipSelect, pins[0].clock, pins[0].dataIn);
      assert next.words == e.words;
      hide DrivePins;
      forall n: nat | n <= |pins[1..]|
        ensures !DriveAll(next, pins[1..][..n]).writeEnabled
      {
        assert pins[..n + 1][1..] == pins[1..][..n] && pins[..n + 1][0] == pins[0];
        assert !DriveAll(e, pins[..n + 1]).writeEnabled;
      }
      DisabledKeepsWords(next, pins[1..]);
    }
  }

  // The device

  class Nmc93cs46 {
    const words: array<Word>
    var transfer: Transfer
    var writeEnabled: bool
    var chipSelect: bool
    var clock: bool
    var dataOut: bool

    predicate Valid()
      reads this
    {
      words.Length == WORD_COUNT && TransferValid(transfer)
    }

    function Value(): State
      requires Valid()
      reads this, words
    {
      State(words[..], transfer, writeEnabled, chipSelect, clock, dataOut)
    }

    constructor ()
      ensures Valid() && fresh(words)
      ensures forall i :: 0 <= i < WORD_COUNT ==> words[i] == 0xffff
    {
      words := new Word[64](_ => 0xffff);
      transfer := Command(0, 0);
      writeEnabled, chipSelect, clock, dataOut := false, false, false, false;
    }

    method Reset()
      requires Valid()
      modifies this
      ensures Valid() && Value() == State(old(Value()).words, Command(0, 0), false, false, false, false)
    {
      transfer := Command(0, 0);
      writeEnabled, chipSelect, clock, dataOut := false, false, false, false;
    }

    method Drive(pre: bool, select: bool, newClock: bool, dataIn: bool)
      requires Valid()
      modifies this, words
      ensures Valid() && Value() == DrivePins(old(Value()), select, newClock, dataIn)
    {
      StaysValid(Value(), select, newClock, dataIn);
      if !select {
        transfer := Command(0, 0);
        chipSelect, clock, dataOut := false, newClock, false;
        return;
      }
      if !chipSelect {
        transfer := Command(0, 0);
        dataOut := true;
      }
      var risingEdge := !clock && newClock;
      chipSelect, clock := true, newClock;
      hide RisingEdge;
      if risingEdge {
        ClockRisingEdge(dataIn);
      }
    }

    method ClockRisingEdge(dataIn: bool)
      requires Valid()
      modifies this, words
      ensures Valid() && Value() == RisingEdge(old(Value()), dataIn)
    {
      hide Power2, ShiftIn;
      match transfer
      case Command(bits, count) =>
        if count == 0 && !dataIn {
          dataOut := true;
          return;
        }
        var next := bits * 2 + Bit(dataIn);
        if count + 1 == COMMAND_BITS {
          CommandIsEleven(bits, dataIn);
          hide DecodeCommand;
          Decode(next);
        } else {
          CommandGrows(bits, count, dataIn);
          transfer := Command(next, count + 1);
          dataOut := true;
        }
      case Read(value, nextBit) =>
        dataOut := value / Power2(DATA_BITS - 1 - nextBit) % 2 == 1;
        transfer := if nextBit + 1 == DATA_BITS then Ignore else Read(value, nextBit + 1);
      case Write(address, value, count) =>
        var shifted := ShiftIn(value, dataIn);
        if count + 1 == DATA_BITS {
          if writeEnabled {
            words[address] := shifted;
          }
          transfer := Ignore;
          dataOut := true;
        } else {
          transfer := Write(address, shifted, count + 1);
        }
      case Ignore =>
    }

    method Decode(command: nat)
      requires words.Length == WORD_COUNT && TransferValid(transfer) && command < 0x800
      modifies this
      ensures Valid() && Value() == DecodeCommand(old(Value()), command)
    {
      var operation, address := command / 64, command % 64;
      if operation == READ_OPERATION {
        transfer := Read(words[address], 0);
      } else if operation == WRITE_OPERATION {
        transfer := Write(address, 0, 0);
      } else if command == WRITE_ENABLE_COMMAND {
        writeEnabled, transfer := true, Ignore;
      } else if command == WRITE_DISABLE_COMMAND {
        writeEnabled, transfer := false, Ignore;
      } else {
        transfer := Ignore;
      }
      dataOut := true;
    }
  }

  lemma CommandGrows(bits: nat, count: nat, dataIn: bool)
    requires bits < Power2(count)
    ensures bits * 2 + Bit(dataIn) < Power2(count + 1)
  {
  }
}
