/**
 The Cyfral line code: how bytes become bits, bits become pulses on the pin
 (lib/cyfral/cyfral_emulator.h) and pulses become captured bits again
 (the pulse classifier of lib/cyfral/cyfral_reader.h).
 */
module CyfralCode {

  type Byte = bv8

  // ----- Bits

  function NibbleBit(nibble: Byte, i: nat): bool
    requires i < 4
  {
    nibble & (0x8 >> i) != 0
  }

  function ByteBit(b: Byte, i: nat): bool
    requires i < 8
  {
    b & (0x80 >> i) != 0
  }

  /** Most significant bit first. */
  function NibbleBits(nibble: Byte): (bits: seq<bool>)
    ensures |bits| == 4
  {
    seq(4, i requires 0 <= i < 4 => NibbleBit(nibble, i))
  }

  function ByteBits(b: Byte): (bits: seq<bool>)
    ensures |bits| == 8
  {
    seq(8, i requires 0 <= i < 8 => ByteBit(b, i))
  }

  function DataBits(data: seq<Byte>): (bits: seq<bool>)
    ensures |bits| == 8 * |data|
  {
    if data == [] then [] else ByteBits(data[0]) + DataBits(data[1..])
  }

  /** One frame: the start nibble, then the data. */
  function Frame(data: seq<Byte>): (bits: seq<bool>)
    ensures |bits| == 4 + 8 * |data|
  {
    NibbleBits(1) + DataBits(data)
  }

  function Repeat(frame: seq<bool>, times: nat): seq<bool> {
    if times == 0 then [] else frame + Repeat(frame, times - 1)
  }

  function Complement(bits: seq<bool>): (r: seq<bool>)
    ensures |r| == |bits|
    ensures forall i | 0 <= i < |bits| :: r[i] == !bits[i]
  {
    seq(|bits|, i requires 0 <= i < |bits| => !bits[i])
  }

  // ----- Pulses

  /** The pin is held at `high` for `us` microseconds. */
  datatype Pulse = Pulse(high: bool, us: nat)

  const ZERO_HIGH := 50
  const ZERO_LOW := 70
  const ONE_HIGH := 100
  const ONE_LOW := 70
  const TIME_THRESHOLD := 75

  function BitPulses(bit: bool): seq<Pulse> {
    if !bit then [Pulse(false, ZERO_LOW), Pulse(true, ZERO_HIGH), Pulse(false, ZERO_LOW)]
    else [Pulse(true, ONE_HIGH), Pulse(false, ONE_LOW)]
  }

  function Pulses(bits: seq<bool>): seq<Pulse> {
    if bits == [] then [] else BitPulses(bits[0]) + Pulses(bits[1..])
  }

  lemma {:induction false} PulsesConcat(a: seq<bool>, b: seq<bool>)
    ensures Pulses(a + b) == Pulses(a) + Pulses(b)
  {
    if a == [] {
      assert a + b == b;
    } else {
      assert (a + b)[1..] == a[1..] + b;
      PulsesConcat(a[1..], b);
    }
  }

  lemma {:induction false} DataBitsConcat(a: seq<Byte>, b: seq<Byte>)
    ensures DataBits(a + b) == DataBits(a) + DataBits(b)
  {
    if a == [] {
      assert a + b == b;
    } else {
      assert (a + b)[1..] == a[1..] + b;
      DataBitsConcat(a[1..], b);
    }
  }

  lemma ConcatAssoc<T>(a: seq<T>, b: seq<T>, c: seq<T>)
    ensures (a + b) + c == a + (b + c)
  {
  }

  lemma {:induction false} RepeatConcat(frame: seq<bool>, m: nat, n: nat)
    ensures Repeat(frame, m + n) == Repeat(frame, m) + Repeat(frame, n)
  {
    if m != 0 {
      RepeatConcat(frame, m - 1, n);
      ConcatAssoc(frame, Repeat(frame, m - 1), Repeat(frame, n));
    }
  }

  /** One more bit sent. */
  lemma PulsesNext(bits: seq<bool>, i: nat)
    requires i < |bits|
    ensures Pulses(bits[..i + 1]) == Pulses(bits[..i]) + Pulses([bits[i]])
  {
    PulsesConcat(bits[..i], [bits[i]]);
    assert bits[..i + 1] == bits[..i] + [bits[i]];
  }

  /** One more byte sent. */
  lemma FrameNext(data: seq<Byte>, i: nat)
    requires i < |data|
    ensures Pulses(Frame(data[..i + 1])) == Pulses(Frame(data[..i])) + Pulses(ByteBits(data[i]))
  {
    assert data[..i + 1] == data[..i] + [data[i]];
    DataBitsConcat(data[..i], [data[i]]);
    var bits := ByteBits(data[i]);
    assert DataBits([data[i]]) == bits;
    assert Frame(data[..i + 1]) == Frame(data[..i]) + bits;
    PulsesConcat(Frame(data[..i]), bits);
  }

  // ----- Capture

  /**
   What the reader records for a waveform: one bit for every high period, when it ends, true when it
   was shorter than the threshold. `high` says whether the line was high before, `width` for how long.
   */
  function Capture(wave: seq<Pulse>, high: bool, width: nat): seq<bool> {
    if wave == [] then []
    else if wave[0].high then Capture(wave[1..], true, (if high then width else 0) + wave[0].us)
    else if high then [width < TIME_THRESHOLD] + Capture(wave[1..], false, 0)
    else Capture(wave[1..], false, 0)
  }

  /** Microseconds that the reader spends at most for each bit it is to capture. */
  const TIME_PER_BIT := 280

  /** The pulses that begin before the limit, `time` being the time now. */
  function Within(wave: seq<Pulse>, time: nat, limit: nat): seq<Pulse> {
    if wave == [] || time >= limit then [] else [wave[0]] + Within(wave[1..], time + wave[0].us, limit)
  }

  /** The reader sees exactly the complement of the bits that were sent. */
  lemma {:induction false} CaptureOfPulses(bits: seq<bool>)
    ensures Capture(Pulses(bits), false, 0) == Complement(bits)
  {
    if bits != [] {
      var rest := Pulses(bits[1..]);
      CaptureOfPulses(bits[1..]);
      CaptureOfBit(bits[0], rest);
      assert Complement(bits) == [!bits[0]] + Complement(bits[1..]);
    }
  }

  lemma CaptureOfBit(bit: bool, rest: seq<Pulse>)
    ensures Capture(BitPulses(bit) + rest, false, 0) == [!bit] + Capture(rest, false, 0)
  {
    var wave := BitPulses(bit) + rest;
    if bit {
      assert wave[1..][1..] == rest;
    } else {
      assert Capture(wave, false, 0) == Capture(wave[1..], false, 0);
      assert wave[1..][1..][1..] == rest;
    }
  }

  function BitTime(bit: bool): nat {
    if bit then ONE_HIGH + ONE_LOW else ZERO_LOW + ZERO_HIGH + ZERO_LOW
  }

  lemma BitWithin(bit: bool, rest: seq<Pulse>, time: nat, limit: nat)
    requires time + BitTime(bit) <= limit
    ensures Within(BitPulses(bit) + rest, time, limit) == BitPulses(bit) + Within(rest, time + BitTime(bit), limit)
  {
    var wave := BitPulses(bit) + rest;
    var after := time + wave[0].us;
    assert Within(wave, time, limit) == [wave[0]] + Within(wave[1..], after, limit);
    assert Within(wave[1..], after, limit) == [wave[1]] + Within(wave[1..][1..], after + wave[1].us, limit);
    if bit {
      assert wave[1..][1..] == rest;
    } else {
      assert wave[1..][1..] == [wave[2]] + rest && ([wave[2]] + rest)[1..] == rest;
    }
  }

  /** A reader that stops after `TIME_PER_BIT` for each of `n` bits has captured `n` bits of what is sent by then. */
  lemma {:induction false} CapturedInTime(bits: seq<bool>, n: nat, time: nat, limit: nat)
    requires n <= |bits| && time + TIME_PER_BIT * n <= limit
    ensures Complement(bits[..n]) <= Capture(Within(Pulses(bits), time, limit), false, 0)
  {
    if n != 0 {
      var rest := Pulses(bits[1..]);
      BitWithin(bits[0], rest, time, limit);
      CaptureOfBit(bits[0], Within(rest, time + BitTime(bits[0]), limit));
      CapturedInTime(bits[1..], n - 1, time + BitTime(bits[0]), limit);
      assert Complement(bits[..n]) == [!bits[0]] + Complement(bits[1..][..n - 1]);
    }
  }
}
