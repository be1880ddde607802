/** The Cyfral emulator (lib/cyfral/cyfral_emulator.h): loops that write the pin and wait. */
module CyfralEmulator {
  import opened CyfralCode

  class Emulator {
    /** Everything the pin has been driven to so far, with how long each level was held. */
    var wave: seq<Pulse>

    constructor ()
      ensures wave == []
    {
      wave := [];
    }

    method Hold(high: bool, us: nat)
      modifies this
      ensures wave == old(wave) + [Pulse(high, us)]
    {
      wave := wave + [Pulse(high, us)];
    }

    method SendBit(bit: bool)
      modifies this
      ensures wave == old(wave) + Pulses([bit])
      ensures wave == old(wave) + if bit then [Pulse(true, 100), Pulse(false, 70)]
                                  else [Pulse(false, 70), Pulse(true, 50), Pulse(false, 70)]
    {
      if !bit {
        Hold(false, ZERO_LOW);
        Hold(true, ZERO_HIGH);
        Hold(false, ZERO_LOW);
      } else {
        Hold(true, ONE_HIGH);
        Hold(false, ONE_LOW);
      }
      assert Pulses([bit]) == BitPulses(bit);
    }

    method SendNibble(nibble: Byte)
      modifies this
      ensures wave == old(wave) + Pulses(NibbleBits(nibble))
    {
      ghost var bits := NibbleBits(nibble);
      assert Pulses(bits[..0]) == [];
      var i := 0;
      while i < 4
        invariant 0 <= i <= 4
        invariant wave == old(wave) + Pulses(bits[..i])
      {
        SendBit(NibbleBit(nibble, i));
        PulsesNext(bits, i);
        i := i + 1;
      }
      assert bits[..4] == bits;
    }

    method SendByte(b: Byte)
      modifies this
      ensures wave == old(wave) + Pulses(ByteBits(b))
    {
      ghost var bits := ByteBits(b);
      var i := 0;
      while i < 8
        invariant 0 <= i <= 8
        invariant wave == old(wave) + Pulses(bits[..i])
      {
        PulsesNext(bits, i);
        SendBit(ByteBit(b, i));
        i := i + 1;
      }
      assert bits[..8] == bits;
    }

    method SendFrame(data: seq<Byte>, count: nat)
      requires count <= |data|
      modifies this
      ensures wave == old(wave) + Pulses(Frame(data[..count]))
    {
      SendNibble(0x01);
      assert Frame(data[..0]) == NibbleBits(0x01);
      var i := 0;
      while i < count
        invariant 0 <= i <= count
        invariant wave == old(wave) + Pulses(Frame(data[..i]))
      {
        SendByte(data[i]);
        FrameNext(data, i);
        i := i + 1;
      }
    }

    /** `repeat` frames back to back. */
    method Send(data: seq<Byte>, count: nat, repeat: nat)
      requires count <= |data|
      modifies this
      ensures wave == old(wave) + Pulses(Repeat(Frame(data[..count]), repeat))
    {
      var frame := Frame(data[..count]);
      var i := 0;
      while i < repeat
        invariant 0 <= i <= repeat
        invariant wave == old(wave) + Pulses(Repeat(frame, i))
      {
        SendFrame(data, count);
        RepeatConcat(frame, i, 1);
        assert Repeat(frame, 1) == frame;
        PulsesConcat(Repeat(frame, i), frame);
        i := i + 1;
      }
    }
  }
}
