/**
 How long a character lasts, from the bits of the write registers: a start bit, the
 data bits, parity and stop bits, each of twice the time constant plus two clock
 periods times the clock factor.
 */
module SerialFrame {
  import opened Options
  import opened SerialChannel

  /** What a programmer sets: stop bits are counted in halves, the factor is of the clock to the bit rate. */
  datatype Line = Line(dataBits: nat, parity: bool, stopHalves: nat, factor: nat, timeConstant: nat)

  predicate Possible(l: Line) {
    5 <= l.dataBits <= 8 && 2 <= l.stopHalves <= 4 && l.factor in {1, 16, 32, 64} && l.timeConstant < 0x1_0000
  }

  /** The fields of write registers 4, 5, 12 and 13 that ask for a line. */
  predicate AsksFor(registers: WriteRegisters, l: Line)
    requires Possible(l)
  {
    && (registers[4] & 0x01 != 0 <==> l.parity)
    && registers[4] & 0x0c == (if l.stopHalves == 2 then 0x04 else if l.stopHalves == 3 then 0x08 else 0x0c)
    && registers[4] & 0xc0 == (if l.factor == 1 then 0 else if l.factor == 16 then 0x40 else if l.factor == 32 then 0x80 else 0xc0)
    && registers[5] & 0x60 ==
       (if l.dataBits == 5 then 0 else if l.dataBits == 6 then 0x40 else if l.dataBits == 7 then 0x20 else 0x60)
    && registers[12] as nat == l.timeConstant % 0x100 && registers[13] as nat == l.timeConstant / 0x100
  }

  /** The transmitter is on, clocked by the baud rate generator, which runs, and in asynchronous mode. */
  predicate CanSend(registers: WriteRegisters) {
    registers[5] & 0x08 != 0 && registers[11] & 0x18 == 0x10 && registers[14] & 0x01 != 0 && registers[4] & 0x0c != 0
  }

  /** Half bits of a character. */
  function HalfBits(l: Line): nat {
    2 + 2 * l.dataBits + (if l.parity then 2 else 0) + l.stopHalves
  }

  /** A character takes exactly the bits that were asked for at exactly the rate that was asked for. */
  lemma FrameLasts(registers: WriteRegisters, l: Line)
    requires Possible(l) && AsksFor(registers, l)
    ensures FrameUnits(registers) ==
            if CanSend(registers) then Some(HalfBits(l) * (l.timeConstant + 2) * l.factor) else None
  {
    StopBits(registers[4]);
    Bits(registers[5]);
    Factor(registers[4]);
    hide StopHalfBits, DataBits, ClockFactor;
  }

  lemma StopBits(wr4: bv8)
    ensures StopHalfBits(wr4) == if wr4 & 0x0c == 0 then None else if wr4 & 0x0c == 0x04 then Some(2)
                                 else if wr4 & 0x0c == 0x08 then Some(3) else Some(4)
    ensures wr4 & 0x0c == 0 || wr4 & 0x0c == 0x04 || wr4 & 0x0c == 0x08 || wr4 & 0x0c == 0x0c
  {
  }

  lemma Bits(wr5: bv8)
    ensures DataBits(wr5) == if wr5 & 0x60 == 0 then 5 else if wr5 & 0x60 == 0x40 then 6 else if wr5 & 0x60 == 0x20 then 7 else 8
    ensures wr5 & 0x60 == 0 || wr5 & 0x60 == 0x20 || wr5 & 0x60 == 0x40 || wr5 & 0x60 == 0x60
  {
  }

  lemma Factor(wr4: bv8)
    ensures ClockFactor(wr4) == if wr4 & 0xc0 == 0 then 1 else if wr4 & 0xc0 == 0x40 then 16 else if wr4 & 0xc0 == 0x80 then 32 else 64
    ensures wr4 & 0xc0 == 0 || wr4 & 0xc0 == 0x40 || wr4 & 0xc0 == 0x80 || wr4 & 0xc0 == 0xc0
  {
  }

  /** Every setting with stop bits asks for one line. */
  lemma SomeLine(registers: WriteRegisters) returns (l: Line)
    requires registers[4] & 0x0c != 0
    ensures Possible(l) && AsksFor(registers, l)
  {
    StopBits(registers[4]);
    Bits(registers[5]);
    Factor(registers[4]);
    var stop, bits, factor := StopHalfBits(registers[4]).value, DataBits(registers[5]), ClockFactor(registers[4]);
    var constant := TimeConstant(registers[12], registers[13]);
    hide StopHalfBits, DataBits, ClockFactor;
    l := Line(bits, registers[4] & 0x01 != 0, stop, factor, constant);
  }

  lemma TimeConstant(low: bv8, high: bv8) returns (constant: nat)
    ensures constant < 0x1_0000 && low as nat == constant % 0x100 && high as nat == constant / 0x100
  {
    constant := low as nat + 0x100 * (high as nat);
  }
}
