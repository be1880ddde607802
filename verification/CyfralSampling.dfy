/**
 What reaches the parser when the converter reads the line only now and then, and when the capture begins at
 any instant of the transmission, within a bit as well as between two.
 */
module CyfralSampling {
  import opened CyfralCode
  import opened CyfralReader
  import opened CyfralRoundTrip

  /** Readings of a waveform, the first one `at` microseconds into it, with the given gaps after each. */
  function Sample(wave: seq<Pulse>, at: nat, gaps: seq<nat>): seq<Pulse>
    decreases |wave| + |gaps|
  {
    if wave == [] || gaps == [] then []
    else if at >= wave[0].us then Sample(wave[1..], at - wave[0].us, gaps)
    else [Pulse(wave[0].high, gaps[0])] + Sample(wave, at + gaps[0], gaps[1..])
  }

  function Sum(gaps: seq<nat>): nat {
    if gaps == [] then 0 else gaps[0] + Sum(gaps[1..])
  }

  ghost predicate Steady(gaps: seq<nat>, longest: nat) {
    forall g | g in gaps :: 1 <= g <= longest
  }

  lemma SteadyRest(gaps: seq<nat>, longest: nat)
    requires Steady(gaps, longest) && gaps != []
    ensures 1 <= gaps[0] <= longest && Steady(gaps[1..], longest) && Sum(gaps) == gaps[0] + Sum(gaps[1..])
  {
    assert gaps[0] in gaps;
    forall g | g in gaps[1..] ensures 1 <= g <= longest {
      assert g in gaps;
    }
  }

  /** The longest gap between readings at which no bit is misjudged. */
  const LONGEST_GAP := 25

  /** The bits captured from the readings; the line has been high for `width` when it is. */
  function Seen(wave: seq<Pulse>, at: nat, gaps: seq<nat>, high: bool, width: nat): seq<bool> {
    Capture(Sample(wave, at, gaps), high, width)
  }

  // ----- One reading

  lemma LaterPulse(wave: seq<Pulse>, at: nat, gaps: seq<nat>, high: bool, width: nat)
    requires wave != [] && at >= wave[0].us
    ensures Seen(wave, at, gaps, high, width) == Seen(wave[1..], at - wave[0].us, gaps, high, width)
  {
  }

  lemma ReadingHere(wave: seq<Pulse>, at: nat, gaps: seq<nat>, high: bool, width: nat)
    requires wave != [] && gaps != [] && at < wave[0].us
    ensures
      Seen(wave, at, gaps, high, width) ==
      if wave[0].high then Seen(wave, at + gaps[0], gaps[1..], true, (if high then width else 0) + gaps[0])
      else (if high then [width < TIME_THRESHOLD] else []) + Seen(wave, at + gaps[0], gaps[1..], false, 0)
  {
    var read := Sample(wave, at, gaps);
    assert read[0] == Pulse(wave[0].high, gaps[0]) && read[1..] == Sample(wave, at + gaps[0], gaps[1..]);
  }

  // ----- One pulse

  lemma {:induction false} LowRun(low: nat, rest: seq<Pulse>, at: nat, gaps: seq<nat>)
    returns (at': nat, gaps': seq<nat>)
    requires Steady(gaps, LONGEST_GAP) && at < low + LONGEST_GAP && at + Sum(gaps) >= low
    ensures Steady(gaps', LONGEST_GAP) && at' < LONGEST_GAP && at' + Sum(gaps') + low == at + Sum(gaps)
    ensures Seen([Pulse(false, low)] + rest, at, gaps, false, 0) == Seen(rest, at', gaps', false, 0)
    decreases |gaps|
  {
    var wave := [Pulse(false, low)] + rest;
    if at >= low {
      LaterPulse(wave, at, gaps, false, 0);
      assert wave[1..] == rest;
      at', gaps' := at - low, gaps;
    } else {
      SteadyRest(gaps, LONGEST_GAP);
      ReadingHere(wave, at, gaps, false, 0);
      at', gaps' := LowRun(low, rest, at + gaps[0], gaps[1..]);
    }
  }

  /** The high pulse was first read at `since`; it is over at the reading `fall`. */
  lemma {:induction false} HighRun(len: nat, rest: seq<Pulse>, since: nat, at: nat, gaps: seq<nat>)
    returns (fall: nat, gaps': seq<nat>)
    requires Steady(gaps, LONGEST_GAP) && since <= at < len + LONGEST_GAP && at + Sum(gaps) >= len
    ensures Steady(gaps', LONGEST_GAP) && len <= fall < len + LONGEST_GAP && fall + Sum(gaps') == at + Sum(gaps)
    ensures since <= fall
    ensures Seen([Pulse(true, len)] + rest, at, gaps, true, at - since) ==
            Seen(rest, fall - len, gaps', true, fall - since)
    decreases |gaps|
  {
    var wave := [Pulse(true, len)] + rest;
    if at >= len {
      LaterPulse(wave, at, gaps, true, at - since);
      assert wave[1..] == rest;
      fall, gaps' := at, gaps;
    } else {
      SteadyRest(gaps, LONGEST_GAP);
      ReadingHere(wave, at, gaps, true, at - since);
      fall, gaps' := HighRun(len, rest, since, at + gaps[0], gaps[1..]);
    }
  }

  lemma FallingEdge(low: nat, rest: seq<Pulse>, at: nat, gaps: seq<nat>, width: nat)
    requires at < low && gaps != []
    ensures Seen([Pulse(false, low)] + rest, at, gaps, true, width) ==
            [width < TIME_THRESHOLD] + Seen([Pulse(false, low)] + rest, at, gaps, false, 0)
  {
    var wave := [Pulse(false, low)] + rest;
    ReadingHere(wave, at, gaps, true, width);
    ReadingHere(wave, at, gaps, false, 0);
  }

  /** A high pulse, entered `at` microseconds after its start, and the low pulse after it give one bit. */
  lemma HighPulse(len: nat, low: nat, rest: seq<Pulse>, at: nat, gaps: seq<nat>)
    returns (bit: bool, at': nat, gaps': seq<nat>)
    requires at < len && low >= LONGEST_GAP && Steady(gaps, LONGEST_GAP)
    requires at + Sum(gaps) >= len + low + LONGEST_GAP
    ensures Steady(gaps', LONGEST_GAP) && at' < LONGEST_GAP && at' + Sum(gaps') + len + low == at + Sum(gaps)
    ensures len + LONGEST_GAP - at <= TIME_THRESHOLD ==> bit
    ensures len - at >= TIME_THRESHOLD ==> !bit
    ensures Seen([Pulse(true, len)] + ([Pulse(false, low)] + rest), at, gaps, false, 0) ==
            [bit] + Seen(rest, at', gaps', false, 0)
  {
    var after := [Pulse(false, low)] + rest;
    SteadyRest(gaps, LONGEST_GAP);
    ReadingHere([Pulse(true, len)] + after, at, gaps, false, 0);
    var fall, left := HighRun(len, after, at, at + gaps[0], gaps[1..]);
    FallingEdge(low, rest, fall - len, left, fall - at);
    bit := fall - at < TIME_THRESHOLD;
    at', gaps' := LowRun(low, rest, fall - len, left);
  }

  // ----- One bit

  lemma PulsesOfBit(bit: bool, rest: seq<Pulse>)
    ensures bit ==> BitPulses(bit) + rest == [Pulse(true, ONE_HIGH)] + ([Pulse(false, ONE_LOW)] + rest)
    ensures !bit ==> BitPulses(bit) + rest ==
                     [Pulse(false, ZERO_LOW)] + ([Pulse(true, ZERO_HIGH)] + ([Pulse(false, ZERO_LOW)] + rest))
  {
  }

  /**
   A bit whose pulses are entered at any instant: it is captured as it should be, or a one is taken for a
   zero, or only its low end is left and it is missed.
   */
  lemma FirstBit(bit: bool, rest: seq<Pulse>, at: nat, gaps: seq<nat>)
    returns (got: seq<bool>, at': nat, gaps': seq<nat>)
    requires at < BitTime(bit) && Steady(gaps, LONGEST_GAP) && at + Sum(gaps) >= BitTime(bit) + LONGEST_GAP
    ensures Steady(gaps', LONGEST_GAP) && at' < LONGEST_GAP && at' + Sum(gaps') + BitTime(bit) == at + Sum(gaps)
    ensures got == [] || got == [!bit] || got == [true]
    ensures at < LONGEST_GAP ==> got == [!bit]
    ensures bit && ONE_HIGH + LONGEST_GAP - TIME_THRESHOLD <= at < ONE_HIGH ==> got == [true]
    ensures Seen(BitPulses(bit) + rest, at, gaps, false, 0) == got + Seen(rest, at', gaps', false, 0)
  {
    PulsesOfBit(bit, rest);
    var wave := BitPulses(bit) + rest;
    if bit {
      if at < ONE_HIGH {
        var b;
        b, at', gaps' := HighPulse(ONE_HIGH, ONE_LOW, rest, at, gaps);
        got := [b];
      } else {
        LaterPulse(wave, at, gaps, false, 0);
        assert wave[1..] == [Pulse(false, ONE_LOW)] + rest;
        at', gaps' := LowRun(ONE_LOW, rest, at - ONE_HIGH, gaps);
        got := [];
      }
    } else {
      got, at', gaps' := FirstZero(rest, at, gaps);
    }
  }

  lemma FirstZero(rest: seq<Pulse>, at: nat, gaps: seq<nat>) returns (got: seq<bool>, at': nat, gaps': seq<nat>)
    requires at < BitTime(false) && Steady(gaps, LONGEST_GAP) && at + Sum(gaps) >= BitTime(false) + LONGEST_GAP
    ensures Steady(gaps', LONGEST_GAP) && at' < LONGEST_GAP && at' + Sum(gaps') + BitTime(false) == at + Sum(gaps)
    ensures got == if at < ZERO_LOW + ZERO_HIGH then [true] else []
    ensures Seen(BitPulses(false) + rest, at, gaps, false, 0) == got + Seen(rest, at', gaps', false, 0)
  {
    PulsesOfBit(false, rest);
    var end := [Pulse(false, ZERO_LOW)] + rest;
    var high := [Pulse(true, ZERO_HIGH)] + end;
    var wave := [Pulse(false, ZERO_LOW)] + high;
    assert wave[1..] == high && high[1..] == end;
    if at < ZERO_LOW + ZERO_HIGH {
      var a, g := at, gaps;
      if at < ZERO_LOW {
        a, g := LowRun(ZERO_LOW, high, at, gaps);
      } else {
        LaterPulse(wave, at, gaps, false, 0);
        a := at - ZERO_LOW;
      }
      var b;
      b, at', gaps' := HighPulse(ZERO_HIGH, ZERO_LOW, rest, a, g);
      got := [true];
    } else {
      LaterPulse(wave, at, gaps, false, 0);
      LaterPulse(high, at - ZERO_LOW, gaps, false, 0);
      at', gaps' := LowRun(ZERO_LOW, rest, at - ZERO_LOW - ZERO_HIGH, gaps);
      got := [];
    }
  }

  lemma SkipBit(bit: bool, rest: seq<Pulse>, at: nat, gaps: seq<nat>)
    requires at >= BitTime(bit)
    ensures Seen(BitPulses(bit) + rest, at, gaps, false, 0) == Seen(rest, at - BitTime(bit), gaps, false, 0)
  {
    PulsesOfBit(bit, rest);
    var wave := BitPulses(bit) + rest;
    LaterPulse(wave, at, gaps, false, 0);
    LaterPulse(wave[1..], at - wave[0].us, gaps, false, 0);
    if bit {
      assert wave[1..][1..] == rest;
    } else {
      LaterPulse(wave[1..][1..], at - ZERO_LOW - ZERO_HIGH, gaps, false, 0);
      assert wave[1..][1..][1..] == rest;
    }
  }

  // ----- Many bits

  const LONGEST_BIT := 190

  /** Readings no further than 25 us apart misjudge no bit. */
  lemma {:induction false} BitsSampled(bits: seq<bool>, n: nat, at: nat, gaps: seq<nat>)
    requires n <= |bits| && at < LONGEST_GAP && Steady(gaps, LONGEST_GAP)
    requires n > 0 ==> at + Sum(gaps) >= LONGEST_BIT * n + LONGEST_GAP
    ensures Complement(bits[..n]) <= Seen(Pulses(bits), at, gaps, false, 0)
    decreases n
  {
    if n != 0 {
      var got, at', gaps' := FirstBit(bits[0], Pulses(bits[1..]), at, gaps);
      BitsSampled(bits[1..], n - 1, at', gaps');
      assert Complement(bits[..n]) == [!bits[0]] + Complement(bits[1..][..n - 1]);
    }
  }

  function TimeOf(bits: seq<bool>): nat {
    if bits == [] then 0 else BitTime(bits[0]) + TimeOf(bits[1..])
  }

  lemma {:induction false} SkipBits(bits: seq<bool>, m: nat, at: nat, gaps: seq<nat>)
    requires m <= |bits|
    ensures Seen(Pulses(bits), TimeOf(bits[..m]) + at, gaps, false, 0) == Seen(Pulses(bits[m..]), at, gaps, false, 0)
    decreases m
  {
    if m == 0 {
      assert bits[0..] == bits;
    } else {
      assert bits[..m][1..] == bits[1..][..m - 1] && bits[m..] == bits[1..][m - 1..];
      SkipBit(bits[0], Pulses(bits[1..]), TimeOf(bits[..m]) + at, gaps);
      SkipBits(bits[1..], m - 1, at, gaps);
    }
  }

  // ----- Any instant

  /** The capture of the bits from the `k`-th on, but for a first bit that is a one and may be taken for a zero. */
  ghost predicate NearWindow(raw: seq<bool>, sent: seq<bool>, k: nat) {
    && k + |raw| <= |sent| && raw != []
    && (raw[0] == !sent[k] || raw[0])
    && forall j: nat | 1 <= j < |raw| :: raw[j] == !sent[k + j]
  }

  /** Enough readings for `size` bits and the rest of the one that is under way. */
  ghost predicate Lasts(gaps: seq<nat>, size: nat) {
    Steady(gaps, LONGEST_GAP) && size >= 3 && Sum(gaps) >= TIME_PER_BIT * size
  }

  lemma CapturePrefix(got: seq<bool>, more: seq<bool>, sent: seq<bool>, size: nat) returns (k: nat)
    requires size >= 1 && size + 1 <= |sent|
    requires got == [] || got == [!sent[0]] || got == [true]
    requires Complement(sent[1..][..if got == [] then size else size - 1]) <= more
    ensures k <= 1 && size <= |got + more| && NearWindow((got + more)[..size], sent, k)
    ensures got != [] ==> k == 0 && (got + more)[0] == got[0]
  {
    k := if got == [] then 1 else 0;
    var n := if got == [] then size else size - 1;
    var raw := (got + more)[..size];
    var kept := sent[1..][..n];
    forall j: nat | j < n ensures more[j] == !sent[1 + j] {
      assert kept[j] == sent[1 + j] && more[j] == Complement(kept)[j];
    }
  }

  /** A capture that begins within the first bit. */
  lemma StartInBit(sent: seq<bool>, at: nat, gaps: seq<nat>, size: nat) returns (k: nat)
    requires size + 1 <= |sent| && at < BitTime(sent[0]) && Lasts(gaps, size)
    ensures k <= 1 && size <= |Seen(Pulses(sent), at, gaps, false, 0)|
    ensures NearWindow(Seen(Pulses(sent), at, gaps, false, 0)[..size], sent, k)
    ensures sent[0] && ONE_HIGH + LONGEST_GAP - TIME_THRESHOLD <= at < ONE_HIGH ==>
              k == 0 && Seen(Pulses(sent), at, gaps, false, 0)[0]
  {
    var got, at', gaps' := FirstBit(sent[0], Pulses(sent[1..]), at, gaps);
    var n := if got == [] then size else size - 1;
    BitsSampled(sent[1..], n, at', gaps');
    k := CapturePrefix(got, Seen(Pulses(sent[1..]), at', gaps', false, 0), sent, size);
  }

  /** A capture that begins within the first `m` bits. */
  lemma {:induction false} StartAnywhere(sent: seq<bool>, m: nat, at: nat, gaps: seq<nat>, size: nat) returns (k: nat)
    requires m + size <= |sent| && at < TimeOf(sent[..m]) && Lasts(gaps, size)
    ensures size <= |Seen(Pulses(sent), at, gaps, false, 0)|
    ensures NearWindow(Seen(Pulses(sent), at, gaps, false, 0)[..size], sent, k)
    decreases m
  {
    if at < BitTime(sent[0]) {
      k := StartInBit(sent, at, gaps, size);
    } else {
      assert sent[..m][1..] == sent[1..][..m - 1];
      SkipBit(sent[0], Pulses(sent[1..]), at, gaps);
      k := StartAnywhere(sent[1..], m - 1, at - BitTime(sent[0]), gaps, size);
      k := k + 1;
    }
  }

  /** Late in the high pulse of a one: fewer than 75 us of it are left, whenever its end is noticed. */
  const LATE := 60

  /** A capture that begins late in the high pulse of the `m`-th bit, a one, takes it for a zero. */
  lemma StartInOne(sent: seq<bool>, m: nat, at: nat, gaps: seq<nat>, size: nat)
    requires m + size + 1 <= |sent| && sent[m] && Lasts(gaps, size) && at == TimeOf(sent[..m]) + LATE
    ensures
      var seen := Seen(Pulses(sent), at, gaps, false, 0);
      size <= |seen| && NearWindow(seen[..size], sent, m) && seen[0]
  {
    SkipBits(sent, m, LATE, gaps);
    var k := StartInBit(sent[m..], LATE, gaps, size);
    var raw := Seen(Pulses(sent[m..]), LATE, gaps, false, 0)[..size];
    assert forall j: nat | j < size :: sent[m..][j] == sent[m + j];
  }

  // ----- The reader's time limit

  function Taken(gaps: seq<nat>, now: nat, limit: nat): seq<nat> {
    if gaps == [] || now >= limit then [] else [gaps[0]] + Taken(gaps[1..], now + gaps[0], limit)
  }

  lemma {:induction false} TakenLasts(gaps: seq<nat>, now: nat, limit: nat)
    requires Steady(gaps, LONGEST_GAP) && now + Sum(gaps) >= limit
    ensures Steady(Taken(gaps, now, limit), LONGEST_GAP) && now + Sum(Taken(gaps, now, limit)) >= limit
    decreases |gaps|
  {
    if gaps != [] && now < limit {
      SteadyRest(gaps, LONGEST_GAP);
      var rest := Taken(gaps[1..], now + gaps[0], limit);
      TakenLasts(gaps[1..], now + gaps[0], limit);
      assert ([gaps[0]] + rest)[1..] == rest;
      assert forall g | g in [gaps[0]] + rest :: g == gaps[0] || g in rest;
    }
  }

  lemma {:induction false} WithinOfSample(wave: seq<Pulse>, at: nat, gaps: seq<nat>, now: nat, limit: nat)
    ensures Within(Sample(wave, at, gaps), now, limit) == Sample(wave, at, Taken(gaps, now, limit))
    decreases |wave| + |gaps|
  {
    if wave != [] && gaps != [] {
      if at >= wave[0].us {
        WithinOfSample(wave[1..], at - wave[0].us, gaps, now, limit);
      } else if now < limit {
        WithinOfSample(wave, at + gaps[0], gaps[1..], now + gaps[0], limit);
        var read := Sample(wave, at, gaps);
        assert read[0] == Pulse(wave[0].high, gaps[0]) && read[1..] == Sample(wave, at + gaps[0], gaps[1..]);
        var taken := Taken(gaps, now, limit);
        assert taken[0] == gaps[0] && taken[1..] == Taken(gaps[1..], now + gaps[0], limit);
      }
    }
  }

  /** The reader's buffer holds what is seen until the time is up. */
  lemma BufferOfSample(wave: seq<Pulse>, at: nat, gaps: seq<nat>, size: nat) returns (taken: seq<nat>)
    requires Lasts(gaps, size)
    ensures Lasts(taken, size)
    ensures size <= |Seen(wave, at, taken, false, 0)| ==>
      Captured(Sample(wave, at, gaps), size) == Seen(wave, at, taken, false, 0)[..size]
  {
    taken := Taken(gaps, 0, TIME_PER_BIT * size);
    TakenLasts(gaps, 0, TIME_PER_BIT * size);
    WithinOfSample(wave, at, gaps, 0, TIME_PER_BIT * size);
  }

  // ----- Which keys survive

  function NibbleOf(data: seq<Byte>, i: nat): Byte
    requires i < 2 * |data|
  {
    if i % 2 == 0 then data[i / 2] >> 4 else data[i / 2] & 0xF
  }

  /** Somewhere a nibble E is followed by a nibble 7: on the line that is 1110 0111. */
  predicate Ambiguous(data: seq<Byte>) {
    exists i: nat | i + 1 < 2 * |data| :: NibbleOf(data, i) == 0xE && NibbleOf(data, i + 1) == 0x7
  }

  lemma NibbleMasks(nibble: Byte)
    ensures NibbleBit(nibble, 0) == (nibble & 8 != 0) && NibbleBit(nibble, 1) == (nibble & 4 != 0)
    ensures NibbleBit(nibble, 2) == (nibble & 2 != 0) && NibbleBit(nibble, 3) == (nibble & 1 != 0)
  {
  }

  lemma HighNibble(b: Byte, j: nat)
    requires j < 4
    ensures ByteBit(b, j) == NibbleBit(b >> 4, j)
  {
    BitMasks(b);
    NibbleMasks(b >> 4);
    assert j == 0 || j == 1 || j == 2 || j == 3;
  }

  lemma LowNibble(b: Byte, j: nat)
    requires j < 4
    ensures ByteBit(b, 4 + j) == NibbleBit(b & 0xF, j)
  {
    BitMasks(b);
    NibbleMasks(b & 0xF);
    assert j == 0 || j == 1 || j == 2 || j == 3;
  }

  lemma FrameNibble(data: seq<Byte>, i: nat, j: nat)
    requires i < 2 * |data| && j < 4
    ensures Frame(data)[4 + 4 * i + j] == NibbleBit(NibbleOf(data, i), j)
  {
    var a := i / 2;
    if i % 2 == 0 {
      FrameBit(data, a, j);
      HighNibble(data[a], j);
      assert 4 + 4 * i + j == 4 + 8 * a + j;
    } else {
      FrameBit(data, a, 4 + j);
      LowNibble(data[a], j);
      assert 4 + 4 * i + j == 4 + 8 * a + (4 + j);
    }
  }

  lemma ValidNibbleOf(data: seq<Byte>, i: nat)
    requires ValidKey(data) && i < 2 * |data|
    ensures ValidNibble(NibbleOf(data, i))
  {
    assert ValidByte(data[i / 2]);
  }

  /** A valid nibble has one zero, and is known by where that is. */
  lemma OneZero(nibble: Byte, j: nat)
    requires ValidNibble(nibble) && j < 4 && !NibbleBit(nibble, j)
    ensures forall k: nat | k < 4 && k != j :: NibbleBit(nibble, k)
    ensures nibble == if j == 0 then 0x7 else if j == 1 then 0xB else if j == 2 then 0xD else 0xE
  {
    NibbleMasks(nibble);
    assert j == 0 || j == 1 || j == 2 || j == 3;
    forall k: nat | k < 4 && k != j ensures NibbleBit(nibble, k) {
      assert k == 0 || k == 1 || k == 2 || k == 3;
    }
  }

  /** On the line: a one, two zeros and a one from the `m`-th bit of the repeated frame on. */
  predicate Hazard(data: seq<Byte>, m: nat) {
    && Cyclic(Frame(data), m) && !Cyclic(Frame(data), m + 1)
    && !Cyclic(Frame(data), m + 2) && Cyclic(Frame(data), m + 3)
  }

  /** Within the data of a valid key such a run of bits lies across an E and a 7. */
  lemma HazardInData(data: seq<Byte>, m: nat)
    requires ValidKey(data) && 4 <= m && m + 2 < |Frame(data)|
    requires Frame(data)[m] && !Frame(data)[m + 1] && !Frame(data)[m + 2]
    ensures Ambiguous(data)
  {
    var i, j := (m + 1 - 4) / 4, (m + 1 - 4) % 4;
    assert m + 1 == 4 + 4 * i + j;
    FrameNibble(data, i, j);
    ValidNibbleOf(data, i);
    OneZero(NibbleOf(data, i), j);
    if j < 3 {
      FrameNibble(data, i, j + 1);
    } else {
      FrameNibble(data, i + 1, 0);
      ValidNibbleOf(data, i + 1);
      OneZero(NibbleOf(data, i + 1), 0);
    }
  }

  lemma HazardIsAmbiguous(data: seq<Byte>, k: nat)
    requires ValidKey(data) && Hazard(data, k)
    ensures Ambiguous(data)
  {
    var frame := Frame(data);
    var n, m := |frame|, k % |frame|;
    AddMod(k, 1, n);
    AddMod(k, 2, n);
    AddMod(k, 3, n);
    FrameStart(data);
    if m >= 4 && m + 2 < n {
      HazardInData(data, m);
    } else if m == 3 && n > 4 {
      FrameNibble(data, 0, 0);
      FrameNibble(data, 0, 1);
      ValidNibbleOf(data, 0);
      OneZero(NibbleOf(data, 0), 0);
    }
  }

  lemma CyclicHere(frame: seq<bool>, m: nat)
    requires m < |frame|
    ensures Cyclic(frame, m) == frame[m]
  {
    UniqueMod(m, 0, m, |frame|);
  }

  lemma HazardHere(data: seq<Byte>, m: nat)
    requires m + 4 <= |Frame(data)|
    requires Frame(data)[m] && !Frame(data)[m + 1] && !Frame(data)[m + 2] && Frame(data)[m + 3]
    ensures Hazard(data, m)
  {
    CyclicHere(Frame(data), m);
    CyclicHere(Frame(data), m + 1);
    CyclicHere(Frame(data), m + 2);
    CyclicHere(Frame(data), m + 3);
  }

  lemma HazardOfNibbles(data: seq<Byte>, i: nat)
    requires i + 1 < 2 * |data| && NibbleOf(data, i) == 0xE && NibbleOf(data, i + 1) == 0x7
    ensures
      var m := 4 + 4 * i + 2;
      Frame(data)[m] && !Frame(data)[m + 1] && !Frame(data)[m + 2] && Frame(data)[m + 3]
  {
    FrameNibble(data, i, 2);
    FrameNibble(data, i, 3);
    FrameNibble(data, i + 1, 0);
    FrameNibble(data, i + 1, 1);
    NibbleMasks(0xE);
    NibbleMasks(0x7);
  }

  lemma AmbiguousIsHazard(data: seq<Byte>) returns (m: nat)
    requires Ambiguous(data)
    ensures 4 <= m && m + 4 <= |Frame(data)| && Hazard(data, m)
    ensures Frame(data)[m] && !Frame(data)[m + 1] && !Frame(data)[m + 2] && Frame(data)[m + 3]
  {
    var i: nat :| i + 1 < 2 * |data| && NibbleOf(data, i) == 0xE && NibbleOf(data, i + 1) == 0x7;
    m := 4 + 4 * i + 2;
    HazardOfNibbles(data, i);
    HazardHere(data, m);
  }

  /** What a buffer looks like from the parser's side. */
  ghost predicate NearRotation(raw: seq<bool>, data: seq<Byte>, k: nat) {
    && raw != [] && (raw[0] == !Cyclic(Frame(data), k) || raw[0])
    && forall j: nat | 1 <= j < |raw| :: raw[j] == !Cyclic(Frame(data), k + j)
  }

  lemma NearRotationOf(data: seq<Byte>, times: nat, raw: seq<bool>, k: nat)
    requires NearWindow(raw, Repeat(Frame(data), times), k)
    ensures NearRotation(raw, data, k)
  {
    RepeatIsCyclic(Frame(data), times, k);
    forall j: nat | 1 <= j < |raw| ensures raw[j] == !Cyclic(Frame(data), k + j) {
      RepeatIsCyclic(Frame(data), times, k + j);
    }
  }

  lemma NearRotationParses(data: seq<Byte>, raw: seq<bool>, k: nat)
    requires ValidKey(data) && !Ambiguous(data) && NearRotation(raw, data, k) && |raw| >= 2 * |Frame(data)|
    ensures Parse(raw, |data|) == Outcome(NoError, data)
  {
    var right := raw[0 := !Cyclic(Frame(data), k)];
    assert IsWindow(data, right, k);
    if raw[0] == right[0] {
      assert raw == right;
      WindowParses(data, raw, k);
    } else {
      FlippedParses(data, raw, right, k);
    }
  }

  /** A one taken for a zero makes no start nibble of an unambiguous key, so the parser looks past it. */
  lemma FlippedParses(data: seq<Byte>, raw: seq<bool>, right: seq<bool>, k: nat)
    requires ValidKey(data) && !Ambiguous(data) && IsWindow(data, right, k)
    requires !right[0] && raw == right[0 := true]
    ensures Parse(raw, |data|) == Outcome(NoError, data)
  {
    var p := First(right, START_NIBBLE, 0);
    FirstIsEarly(data, right, k);
    FirstIsFrameStart(data, right, k, p);
    FrameOccurs(data, right, k, p);
    assert right[p + 0] == START_NIBBLE[0];
    NoStartAtFlip(data, raw, right, k);
    forall q: nat | 0 < q < p ensures !OccursAt(raw, START_NIBBLE, q) {
      OccursAfter(raw, right, q);
    }
    OccursAfter(raw, right, p);
    FirstIsUnique(raw, START_NIBBLE, p);
    assert raw[p..p + 4 + 8 * |data|] == right[p..p + 4 + 8 * |data|];
    ParseIsComplete(raw, data, p);
  }

  lemma OccursAfter(raw: seq<bool>, right: seq<bool>, q: nat)
    requires right != [] && raw == right[0 := true] && q > 0
    ensures OccursAt(raw, START_NIBBLE, q) <==> OccursAt(right, START_NIBBLE, q)
  {
    if q + 4 <= |raw| {
      assert raw[q + 0] == right[q + 0] && raw[q + 1] == right[q + 1];
      assert raw[q + 2] == right[q + 2] && raw[q + 3] == right[q + 3];
    }
  }

  lemma NoStartAtFlip(data: seq<Byte>, raw: seq<bool>, right: seq<bool>, k: nat)
    requires ValidKey(data) && !Ambiguous(data) && IsWindow(data, right, k)
    requires !right[0] && raw == right[0 := true]
    ensures !OccursAt(raw, START_NIBBLE, 0)
  {
    if OccursAt(raw, START_NIBBLE, 0) {
      assert raw[0 + 1] == START_NIBBLE[1] && raw[0 + 2] == START_NIBBLE[2] && raw[0 + 3] == START_NIBBLE[3];
      assert right[0] == !Cyclic(Frame(data), k + 0) && right[1] == !Cyclic(Frame(data), k + 1);
      assert right[2] == !Cyclic(Frame(data), k + 2) && right[3] == !Cyclic(Frame(data), k + 3);
      HazardIsAmbiguous(data, k);
    }
  }

  /** With the flip at a hazard the parser starts on it, and what it reads is not the key. */
  lemma FlipAtHazardFails(data: seq<Byte>, raw: seq<bool>, m: nat)
    requires ValidKey(data) && NearRotation(raw, data, m) && raw[0] && Hazard(data, m)
    requires 4 <= m && m + 4 <= |Frame(data)| <= |raw|
    ensures Parse(raw, |data|) != Outcome(NoError, data)
  {
    assert OccursAt(raw, START_NIBBLE, 0);
    FirstIsUnique(raw, START_NIBBLE, 0);
    if Parse(raw, |data|) == Outcome(NoError, data) {
      ParseIsSound(raw, |data|, data);
      FalseFrameHasStart(data, raw, m);
    }
  }

  /** A whole frame read from the hazard on would hold the true start nibble in its data. */
  lemma FalseFrameHasStart(data: seq<Byte>, raw: seq<bool>, m: nat)
    requires ValidKey(data) && NearRotation(raw, data, m) && 4 <= m && m + 4 <= |Frame(data)|
    ensures !Matches(raw, 0, data)
  {
    if Matches(raw, 0, data) {
      var i := |Frame(data)| - m;
      FrameStart(data);
      FalseBit(data, raw, m, i, 0);
      FalseBit(data, raw, m, i, 1);
      FalseBit(data, raw, m, i, 2);
      FalseBit(data, raw, m, i, 3);
      StartOnlyAtFrames(data, i);
      UniqueMod(i, 0, i, |Frame(data)|);
    }
  }

  lemma FalseBit(data: seq<Byte>, raw: seq<bool>, m: nat, i: nat, d: nat)
    requires NearRotation(raw, data, m) && 4 <= m && m + i == |Frame(data)| && 4 <= i && Matches(raw, 0, data) && d < 4
    ensures Cyclic(Frame(data), i + d) == Frame(data)[d]
  {
    var frame := Frame(data);
    var n, j := |frame|, i + d;
    assert raw[0..n][j] == raw[j] == Complement(frame)[j];
    assert raw[j] == !Cyclic(frame, m + j) && m + j == n + d;
    AddMod(n, d, n);
    CyclicHere(frame, j);
  }

  /** What the reader makes of a transmission that it begins to read `at` microseconds after its start. */
  function Reads(data: seq<Byte>, times: nat, at: nat, gaps: seq<nat>, size: nat): Outcome {
    Parse(Captured(Sample(Pulses(Repeat(Frame(data), times)), at, gaps), size), |data|)
  }

  lemma UnambiguousSurvives(data: seq<Byte>, times: nat, at: nat, gaps: seq<nat>, size: nat)
    requires ValidKey(data) && !Ambiguous(data) && size >= 2 * |Frame(data)| && Lasts(gaps, size)
    requires |Frame(data)| + size < |Repeat(Frame(data), times)| && at < TimeOf(Frame(data))
    ensures Reads(data, times, at, gaps, size) == Outcome(NoError, data)
  {
    var sent := Repeat(Frame(data), times);
    var taken := BufferOfSample(Pulses(sent), at, gaps, size);
    assert sent[..|Frame(data)|] == Frame(data);
    var k := StartAnywhere(sent, |Frame(data)|, at, taken, size);
    var raw := Seen(Pulses(sent), at, taken, false, 0)[..size];
    NearRotationOf(data, times, raw, k);
    NearRotationParses(data, raw, k);
  }

  lemma AmbiguousFails(data: seq<Byte>, times: nat, gaps: seq<nat>, size: nat) returns (at: nat)
    requires ValidKey(data) && Ambiguous(data) && size >= 2 * |Frame(data)| && Lasts(gaps, size)
    requires |Frame(data)| + size < |Repeat(Frame(data), times)|
    ensures at < TimeOf(Frame(data)) && Reads(data, times, at, gaps, size) != Outcome(NoError, data)
  {
    var m := AmbiguousIsHazard(data);
    at := TimeOf(Frame(data)[..m]) + LATE;
    TimeOfPrefix(Frame(data), m);
    var raw := BufferAtHazard(data, times, m, at, gaps, size);
    FlipAtHazardFails(data, raw, m);
  }

  lemma BufferAtHazard(data: seq<Byte>, times: nat, m: nat, at: nat, gaps: seq<nat>, size: nat)
    returns (raw: seq<bool>)
    requires size >= 2 * |Frame(data)| && Lasts(gaps, size) && m < |Frame(data)| && Frame(data)[m]
    requires |Frame(data)| + size < |Repeat(Frame(data), times)| && at == TimeOf(Frame(data)[..m]) + LATE
    ensures |raw| == size && NearRotation(raw, data, m) && raw[0]
    ensures Reads(data, times, at, gaps, size) == Parse(raw, |data|)
  {
    var sent, frame := Repeat(Frame(data), times), Frame(data);
    assert sent[..|frame|] == frame && sent[..m] == frame[..m] && sent[m] == frame[m];
    var taken := BufferOfSample(Pulses(sent), at, gaps, size);
    StartInOne(sent, m, at, taken, size);
    raw := Seen(Pulses(sent), at, taken, false, 0)[..size];
    NearRotationOf(data, times, raw, m);
  }

  lemma {:induction false} TimeOfPrefix(bits: seq<bool>, m: nat)
    requires m < |bits|
    ensures TimeOf(bits[..m]) + BitTime(bits[m]) <= TimeOf(bits)
  {
    if m != 0 {
      TimeOfPrefix(bits[1..], m - 1);
      assert bits[..m][1..] == bits[1..][..m - 1];
    }
  }

  /**
   The transmission of a valid key, read at intervals of at most 25 us, is read back from whatever instant of it
   the reader begins, within a bit as well as between two, exactly when no nibble E of the key is followed by a
   nibble 7. With one, a capture that begins late in the last one of the E takes it for a zero, and the parser
   takes that and the next three bits for the start nibble.
   */
  lemma SurvivesEveryStart(data: seq<Byte>, times: nat, gaps: seq<nat>, size: nat)
    requires ValidKey(data) && size >= 2 * |Frame(data)| && Lasts(gaps, size)
    requires |Frame(data)| + size < |Repeat(Frame(data), times)|
    ensures
      (forall at: nat | at < TimeOf(Frame(data)) :: Reads(data, times, at, gaps, size) == Outcome(NoError, data)) <==>
      !Ambiguous(data)
  {
    if Ambiguous(data) {
      var at := AmbiguousFails(data, times, gaps, size);
    } else {
      forall at: nat | at < TimeOf(Frame(data)) ensures Reads(data, times, at, gaps, size) == Outcome(NoError, data) {
        UnambiguousSurvives(data, times, at, gaps, size);
      }
    }
  }

  /** A whole read by the reader, which captures 72 bits, on a line of two levels. */
  function ReadsLine(data: seq<Byte>, times: nat, at: nat, gaps: seq<nat>, low: Level, high: Level): Outcome
    requires low <= high
  {
    var line := TwoLevels(Sample(Pulses(Repeat(Frame(data), times)), at, gaps), low, high);
    Parse(Captured(Digital(line, Threshold(low, high)), CAPTURE_SIZE), |data|)
  }

  /** The same for keys of up to four bytes, when the levels are at least two steps apart. */
  lemma WholeReadSurvives(data: seq<Byte>, times: nat, gaps: seq<nat>, low: Level, high: Level)
    requires ValidKey(data) && |data| <= 4 && Lasts(gaps, CAPTURE_SIZE) && low + 2 <= high
    requires |Frame(data)| + CAPTURE_SIZE < |Repeat(Frame(data), times)|
    ensures
      (forall at: nat | at < TimeOf(Frame(data)) ::
        ReadsLine(data, times, at, gaps, low, high) == Outcome(NoError, data)) <==>
      !Ambiguous(data)
  {
    SurvivesEveryStart(data, times, gaps, CAPTURE_SIZE);
    forall at: nat ensures ReadsLine(data, times, at, gaps, low, high) == Reads(data, times, at, gaps, CAPTURE_SIZE) {
      ToldApart(Sample(Pulses(Repeat(Frame(data), times)), at, gaps), low, high);
    }
  }

  // ----- How often the line must be read

  /** With no gap longer than `longest` every bit is captured right. */
  ghost predicate Suffices(longest: nat) {
    forall bits, gaps | Steady(gaps, longest) && Sum(gaps) >= TIME_PER_BIT * |bits| ::
      Complement(bits) <= Seen(Pulses(bits), 0, gaps, false, 0)
  }

  /** A zero is read at 0, 26, 52, 70, 95, 119 and 145 us: its 50 us are taken for 75, which is a one's. */
  const SPARSE: seq<nat> := [26, 26, 18, 25, 24, 26]

  const MORE: seq<nat> := [26, 26, 26, 26, 26, 26]

  lemma OneReading(p: Pulse, rest: seq<Pulse>, at: nat, gap: nat, left: seq<nat>, high: bool, width: nat)
    requires at < p.us && (high ==> p.high)
    ensures
      Seen([p] + rest, at, [gap] + left, high, width) ==
      Seen([p] + rest, at + gap, left, p.high, if p.high then (if high then width else 0) + gap else 0)
  {
    ReadingHere([p] + rest, at, [gap] + left, high, width);
    assert ([gap] + left)[1..] == left;
  }

  lemma PulseOver(p: Pulse, rest: seq<Pulse>, at: nat, gaps: seq<nat>, high: bool, width: nat)
    requires at >= p.us
    ensures Seen([p] + rest, at, gaps, high, width) == Seen(rest, at - p.us, gaps, high, width)
  {
    LaterPulse([p] + rest, at, gaps, high, width);
    assert ([p] + rest)[1..] == rest;
  }

  lemma SparseLows(rest: seq<Pulse>, left: seq<nat>)
    ensures Seen([Pulse(false, ZERO_LOW)] + rest, 0, [26] + ([26] + ([18] + left)), false, 0) ==
            Seen(rest, 0, left, false, 0)
  {
    var low := Pulse(false, ZERO_LOW);
    OneReading(low, rest, 0, 26, [26] + ([18] + left), false, 0);
    OneReading(low, rest, 26, 26, [18] + left, false, 0);
    OneReading(low, rest, 52, 18, left, false, 0);
    PulseOver(low, rest, 70, left, false, 0);
  }

  lemma SparseHighs(rest: seq<Pulse>, left: seq<nat>)
    ensures Seen([Pulse(true, ZERO_HIGH)] + rest, 0, [25] + ([24] + ([26] + left)), false, 0) ==
            Seen(rest, 25, left, true, 75)
  {
    var high := Pulse(true, ZERO_HIGH);
    OneReading(high, rest, 0, 25, [24] + ([26] + left), false, 0);
    OneReading(high, rest, 25, 24, [26] + left, true, 25);
    OneReading(high, rest, 49, 26, left, true, 49);
    PulseOver(high, rest, 75, left, true, 75);
  }

  lemma SparseReadings(more: seq<nat>)
    requires more != []
    ensures
      Seen(Pulses([false]), 0, SPARSE + more, false, 0) ==
      [false] + Seen([Pulse(false, ZERO_LOW)], 25, more, false, 0)
  {
    var end := [Pulse(false, ZERO_LOW)];
    var high := [Pulse(true, ZERO_HIGH)] + end;
    PulsesOfBit(false, []);
    assert Pulses([false]) == [Pulse(false, ZERO_LOW)] + high;
    var left := [25] + ([24] + ([26] + more));
    assert SPARSE + more == [26] + ([26] + ([18] + left));
    SparseLows(high, left);
    SparseHighs(end, more);
    FallingEdge(ZERO_LOW, [], 25, more, 75);
    assert end + [] == end;
  }

  lemma SparseMisjudges(longest: nat)
    requires longest > LONGEST_GAP
    ensures !Suffices(longest)
  {
    var gaps := SPARSE + MORE;
    SumOfSparse();
    SparseReadings(MORE);
    assert Steady(gaps, longest);
    assert Complement([false])[0] && !Seen(Pulses([false]), 0, gaps, false, 0)[0];
  }

  /** 25 us is exactly how far apart the readings may be. */
  lemma LongestGap(longest: nat)
    ensures Suffices(longest) <==> longest <= LONGEST_GAP
  {
    if longest <= LONGEST_GAP {
      forall bits, gaps | Steady(gaps, longest) && Sum(gaps) >= TIME_PER_BIT * |bits|
        ensures Complement(bits) <= Seen(Pulses(bits), 0, gaps, false, 0)
      {
        assert bits[..|bits|] == bits;
        BitsSampled(bits, |bits|, 0, gaps);
      }
    } else {
      SparseMisjudges(longest);
    }
  }

  lemma {:induction false} SumConcat(a: seq<nat>, b: seq<nat>)
    ensures Sum(a + b) == Sum(a) + Sum(b)
    decreases |a|
  {
    if a == [] {
      assert a + b == b;
    } else {
      SumConcat(a[1..], b);
      assert (a + b)[1..] == a[1..] + b;
    }
  }

  lemma SumOfOne(gap: nat, gaps: seq<nat>)
    ensures Sum([gap] + gaps) == gap + Sum(gaps)
  {
    assert ([gap] + gaps)[1..] == gaps;
  }

  lemma SumOfThree(a: nat, b: nat, c: nat)
    ensures Sum([a, b, c]) == a + b + c
  {
    SumOfOne(c, []);
    SumOfOne(b, [c]);
    SumOfOne(a, [b, c]);
    assert [a] + [b, c] == [a, b, c] && [b] + [c] == [b, c] && [c] + [] == [c];
  }

  lemma SumOfSparse()
    ensures Sum(SPARSE + MORE) == 301
  {
    var a: seq<nat>, b: seq<nat>, c: seq<nat> := [26, 26, 18], [25, 24, 26], [26, 26, 26];
    SumOfThree(26, 26, 18);
    SumOfThree(25, 24, 26);
    SumOfThree(26, 26, 26);
    SumConcat(a, b);
    SumConcat(c, c);
    assert SPARSE == a + b && MORE == c + c;
    SumConcat(SPARSE, MORE);
  }
}
