/**
 What each outcome of the Cyfral parser (lib/cyfral/cyfral_reader.h) says about the captured bits, and what
 the caller's buffer holds then.
 */
module CyfralOutcomes {
  import opened CyfralCode
  import opened CyfralReader
  import opened CyfralRoundTrip

  // ----- Digital levels

  /** The threshold is a quarter of the way up from the lowest level to the highest, as near as halving twice gets. */
  lemma ThresholdIsAQuarterUp(lineMin: Level, lineMax: Level)
    requires lineMin <= lineMax
    ensures -1 <= 4 * (Threshold(lineMin, lineMax) - lineMin) - (lineMax - lineMin) <= 2
  {
  }

  /**
   The line reads high exactly when some reading was above the threshold and none since has been below it;
   readings on the threshold change nothing.
   */
  lemma {:induction false} HighSinceLastRise(line: seq<Reading>, threshold: nat, i: nat)
    requires i < |line|
    ensures IsHigh(line, threshold, i) <==>
            exists j :: 0 <= j <= i && line[j].level > threshold && NoFall(line, threshold, j, i)
  {
    if line[i].level > threshold {
      assert NoFall(line, threshold, i, i);
    } else if line[i].level == threshold && i > 0 {
      HighSinceLastRise(line, threshold, i - 1);
      if IsHigh(line, threshold, i - 1) {
        var j :| 0 <= j <= i - 1 && line[j].level > threshold && NoFall(line, threshold, j, i - 1);
        assert NoFall(line, threshold, j, i);
      }
      if j :| 0 <= j <= i && line[j].level > threshold && NoFall(line, threshold, j, i) {
        assert j != i && NoFall(line, threshold, j, i - 1);
      }
    }
  }

  ghost predicate NoFall(line: seq<Reading>, threshold: nat, j: nat, i: nat)
    requires j <= i < |line|
  {
    forall k | j <= k <= i :: line[k].level >= threshold
  }

  // ----- The time limit and the buffer

  /** A capture of `size` bits lasts 280 us for each: a bit whose falling edge comes later is not seen. */
  lemma TimeLimitIsExact(size: nat, us: nat)
    requires size > 0
    ensures Captured([Pulse(false, us), Pulse(true, 1), Pulse(false, 1)], size) ==
            if us + 1 < 280 * size then [true] + Cleared(size - 1) else Cleared(size)
  {
    var limit := TIME_PER_BIT * size;
    var low, high, fall := Pulse(false, us), Pulse(true, 1), Pulse(false, 1);
    var wave := [low, high, fall];
    assert wave[1..] == [high, fall] && wave[1..][1..] == [fall] && [fall][1..] == [];
    assert Within([fall], us + 1, limit) == if us + 1 < limit then [fall] else [];
    assert Within(wave[1..], us, limit) == if us < limit then [high] + Within([fall], us + 1, limit) else [];
    if us + 1 < limit {
      assert Within(wave, 0, limit) == wave;
      assert Capture([fall], true, 1) == [true] + Capture([], false, 0);
      assert Capture(wave[1..], false, 0) == Capture([fall], true, 1);
    } else if us < limit {
      assert Within(wave, 0, limit) == [low, high] && [low, high][1..] == [high] && [high][1..] == [];
      assert Capture([high], false, 0) == Capture([], true, 1);
      assert Capture([low, high], false, 0) == Capture([high], false, 0);
    } else {
      assert Within(wave, 0, limit) == [low] && [low][1..] == [];
      assert Capture([low], false, 0) == Capture([], false, 0);
    }
  }

  /** The reader's buffer holds two frames exactly when the key has at most four bytes, and is filled by four. */
  lemma BufferHoldsTwoFrames(data: seq<Byte>)
    ensures 2 * |Frame(data)| <= CAPTURE_SIZE <==> |data| <= 4
    ensures 2 * |Frame(data)| == CAPTURE_SIZE <==> |data| == 4
  {
  }

  // ----- Nibbles as captured

  function One(bit: bool): nat {
    if bit then 1 else 0
  }

  /** A nibble of a key has exactly one zero among its four bits, so exactly one captured bit is set. */
  predicate OneSet(raw: seq<bool>, q: nat)
    requires q + 4 <= |raw|
  {
    One(raw[q]) + One(raw[q + 1]) + One(raw[q + 2]) + One(raw[q + 3]) == 1
  }

  lemma GoodIsOneSet(raw: seq<bool>, p: nat, i: nat)
    requires p + 4 * i + 4 <= |raw|
    ensures GoodNibble(raw, p, i) <==> OneSet(raw, p + 4 * i)
  {
    var q := p + 4 * i;
    NibbleByBits(raw[q], raw[q + 1], raw[q + 2], raw[q + 3], NibbleAt(raw, q));
  }

  lemma NibbleByBits(a: bool, b: bool, c: bool, d: bool, n: Byte)
    requires n == (if !a then 8 else 0) | (if !b then 4 else 0) | (if !c then 2 else 0) | (if !d then 1 else 0)
    ensures ValidNibble(n) <==> One(a) + One(b) + One(c) + One(d) == 1
  {
  }

  // ----- The four outcomes

  /** The frame's data has room behind a start nibble at `p`, and a bit more. */
  predicate HasRoom(raw: seq<bool>, p: nat, count: nat) {
    p + 4 + 8 * count < |raw|
  }

  /** Nibble `i` behind a start nibble at `p`. */
  predicate ValidAt(raw: seq<bool>, p: nat, i: nat)
    requires p + 4 + 4 * i + 4 <= |raw|
  {
    OneSet(raw, p + 4 + 4 * i)
  }

  lemma FirstOccurrence(raw: seq<bool>, p: nat)
    requires OccursAt(raw, START_NIBBLE, p) && forall q: nat | q < p :: !OccursAt(raw, START_NIBBLE, q)
    ensures p + 4 <= |raw| && First(raw, START_NIBBLE, 0) == p
  {
    FirstIsUnique(raw, START_NIBBLE, p);
  }

  lemma AllGood(raw: seq<bool>, p: nat, n: nat)
    requires p + 4 + 4 * n <= |raw|
    ensures GoodNibbles(raw, p + 4, n) == n <==> forall i: nat | i < n :: ValidAt(raw, p, i)
  {
    forall i: nat | i < n ensures GoodNibble(raw, p + 4, i) <==> ValidAt(raw, p, i) {
      GoodIsOneSet(raw, p + 4, i);
    }
    var good := GoodNibbles(raw, p + 4, n);
    if good < n {
      assert !ValidAt(raw, p, good);
    }
  }

  /** A missing start nibble is reported exactly when none occurs anywhere in the capture. */
  lemma NoStartNibbleMeans(raw: seq<bool>, count: nat)
    ensures Parse(raw, count).error == NoStartNibble <==> forall p: nat :: !OccursAt(raw, START_NIBBLE, p)
  {
    var start := First(raw, START_NIBBLE, 0);
    forall p: nat | OccursAt(raw, START_NIBBLE, p) ensures start < |raw| {
    }
  }

  /**
   With the first start nibble at `p`, the other codes say exactly what they should: it is too near the end, a
   nibble behind it is one that no key has, or neither.
   */
  lemma OutcomeAtStart(raw: seq<bool>, count: nat, p: nat)
    requires OccursAt(raw, START_NIBBLE, p) && forall q: nat | q < p :: !OccursAt(raw, START_NIBBLE, q)
    ensures var error := Parse(raw, count).error;
      && (error == RawDataSizeError <==> !HasRoom(raw, p, count))
      && (error == UnknownNibbleValue <==>
          HasRoom(raw, p, count) && exists i: nat | i < 2 * count :: !ValidAt(raw, p, i))
      && (error == NoError <==>
          HasRoom(raw, p, count) && forall i: nat | i < 2 * count :: ValidAt(raw, p, i))
  {
    FirstOccurrence(raw, p);
    if HasRoom(raw, p, count) {
      AllGood(raw, p, 2 * count);
    }
  }

  // ----- The buffer

  lemma StoredBit(raw: seq<bool>, q: nat, high: bool, low: bool, b: Byte, m: nat)
    requires q + 8 <= |raw| && m < 8
    requires b == (if high then NibbleAt(raw, q) << 4 else 0) | (if low then NibbleAt(raw, q + 4) else 0)
    ensures ByteBit(b, m) <==> (if m < 4 then high else low) && !raw[q + m]
  {
    BitMasks(b);
    assert m == 0 || m == 1 || m == 2 || m == 3 || m == 4 || m == 5 || m == 6 || m == 7;
  }

  /**
   Bit `k` of byte `j` is the complement of the captured bit it comes from as long as every nibble up to its
   own is valid, and zero from the first invalid nibble on.
   */
  lemma BufferBit(raw: seq<bool>, count: nat, p: nat, j: nat, k: nat)
    requires OccursAt(raw, START_NIBBLE, p) && forall q: nat | q < p :: !OccursAt(raw, START_NIBBLE, q)
    requires HasRoom(raw, p, count) && j < count && k < 8
    ensures ByteBit(Parse(raw, count).data[j], k) <==>
            !raw[p + 4 + 8 * j + k] && forall i: nat | i <= 2 * j + k / 4 :: ValidAt(raw, p, i)
  {
    FirstOccurrence(raw, p);
    var good := GoodNibbles(raw, p + 4, 2 * count);
    assert Parse(raw, count).data[j] == StoredByte(raw, p + 4, good, j);
    StoredByteBit(raw, p + 4, good, j, k, 2 * count);
    ValidUpTo(raw, p, 2 * j + k / 4, 2 * count);
  }

  lemma ValidUpTo(raw: seq<bool>, p: nat, last: nat, n: nat)
    requires last < n && p + 4 + 4 * n <= |raw|
    ensures last < GoodNibbles(raw, p + 4, n) <==> forall i: nat | i <= last :: ValidAt(raw, p, i)
  {
    AllGood(raw, p, last + 1);
    GoodUpTo(raw, p + 4, last + 1, n);
  }

  lemma StoredByteBit(raw: seq<bool>, p: nat, good: nat, j: nat, k: nat, n: nat)
    requires good <= n && p + 4 * n <= |raw| && 2 * j + 1 < n && k < 8
    ensures ByteBit(StoredByte(raw, p, good, j), k) <==> 2 * j + k / 4 < good && !raw[p + 8 * j + k]
  {
    StoredBit(raw, p + 8 * j, 2 * j < good, 2 * j + 1 < good, StoredByte(raw, p, good, j), k);
  }

  lemma {:induction false} GoodUpTo(raw: seq<bool>, p: nat, n: nat, more: nat)
    requires n <= more && p + 4 * more <= |raw|
    ensures GoodNibbles(raw, p, n) == n <==> n <= GoodNibbles(raw, p, more)
    decreases more
  {
    if n < more {
      GoodUpTo(raw, p, n, more - 1);
    }
  }

  /** Without a start nibble, or without room behind it, the buffer is all zeros. */
  lemma BufferCleared(raw: seq<bool>, count: nat)
    requires Parse(raw, count).error == NoStartNibble || Parse(raw, count).error == RawDataSizeError
    ensures Parse(raw, count).data == seq(count, _ => 0 as Byte)
  {
  }
}
