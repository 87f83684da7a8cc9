/** The interrupt sources of the chip, its master control and its resets, bit by bit. */
module SerialInterrupts {
  import opened Options
  import opened SerialChannel
  import opened SerialReceive
  import opened Interrupts

  /** In order of urgency: receive and transmit of channel A, then of channel B. */
  lemma SourcesAre(s: State)
    ensures Requested(s, 0) <==> ReceiveInterruptPending(s.channelA)
    ensures Requested(s, 1) <==> s.channelA.transmitInterruptPending && s.channelA.writeRegisters[1] & 0x02 != 0
    ensures Requested(s, 2) <==> ReceiveInterruptPending(s.channelB)
    ensures Requested(s, 3) <==> s.channelB.transmitInterruptPending && s.channelB.writeRegisters[1] & 0x02 != 0
  {
    hide ReceiveInterruptPending;
  }

  /** Reading the vector acknowledges the request above all others and all service, if bit 5 of the master control says so. */
  lemma VectorAcknowledges(s: State)
    ensures var after := Acknowledge(s);
            && after == s.(underService := after.underService)
            && forall source: Source ::
                 after.underService[source] <==>
                 || s.underService[source]
                 || (s.masterControl & 0x20 != 0 && Requested(s, source)
                     && forall other: Source :: other <= source ==>
                          !s.underService[other] && (other < source ==> !Requested(s, other)))
  {
    HighestIs(s, 0);
    hide Requested;
  }

  /** Bits 7 and 6 reset channel A and channel B, and retire what they have under service; the lower six are kept. */
  lemma MasterIsWritten(s: State, value: bv8)
    ensures var after := WriteMasterControl(s, value);
            && after.masterControl == value & 0x3f
            && after.channelA == (if value & 0x80 != 0 then ResetChannel else s.channelA)
            && after.channelB == (if value & 0x40 != 0 then ResetChannel else s.channelB)
            && (forall source: Source ::
                  after.underService[source] <==>
                  s.underService[source] && (if source < 2 then value & 0x80 == 0 else value & 0x40 == 0))
  {
    ResetBits(value);
    hide MasterReset;
  }

  lemma ResetBits(value: bv8)
    ensures MasterReset(value) ==
            if value & 0x80 != 0 then (if value & 0x40 != 0 then ChipReset else ChannelAReset)
            else if value & 0x40 != 0 then ChannelBReset else NoReset
  {
  }

  /** A channel that was reset holds nothing, sends nothing and asks for nothing. */
  lemma ResetIsQuiet()
    ensures var c := ResetChannel;
            && c.receiveFifo == [] && c.transmitFifo == [] && c.active.None? && c.timingRemainder == 0
            && FrameUnits(c.writeRegisters).None? && !ReceiverOn(c) && !LoopsBack(c)
            && !ReceiveInterruptPending(c) && !c.transmitInterruptPending && !TransmitInterruptEnabled(c)
            && !c.receiveFifoLocked && c.receiveErrorLatch == 0 && !c.firstCharacterArmed && Wanted(c) == 1
  {
    ReceiveRequests(ResetChannel);
  }
}
