/**
 The Cyfral reader (lib/cyfral/cyfral_reader.h): the capture loop over what the converter reads, the search
 for the start nibble with backtracking, and the parser that rebuilds the key bytes in the caller's buffer.
 */
module CyfralReader {
  import opened CyfralCode

  datatype Error = NoError | UnableToDetect | RawDataSizeError | UnknownNibbleValue | NoStartNibble

  // ----- Search

  predicate OccursAt(haystack: seq<bool>, needle: seq<bool>, p: nat) {
    p + |needle| <= |haystack| && forall i | 0 <= i < |needle| :: haystack[p + i] == needle[i]
  }

  /** `p` is the first occurrence, or the size of the haystack when there is none. */
  ghost predicate IsFirst(haystack: seq<bool>, needle: seq<bool>, p: nat) {
    && (OccursAt(haystack, needle, p) || p == |haystack|)
    && forall q: nat | q < p :: !OccursAt(haystack, needle, q)
  }

  method SearchArrayInArray(haystack: seq<bool>, needle: seq<bool>) returns (p: nat)
    ensures needle != [] ==> IsFirst(haystack, needle, p)
    ensures needle == [] ==> p == 0
  {
    var haystackIndex, needleIndex := 0, 0;
    while haystackIndex < |haystack| && needleIndex < |needle|
      invariant 0 <= needleIndex <= haystackIndex <= |haystack|
      invariant needleIndex < |needle| || (needle == [] && haystackIndex == 0)
      invariant forall i | 0 <= i < needleIndex :: haystack[haystackIndex - needleIndex + i] == needle[i]
      invariant forall q: nat | q < haystackIndex - needleIndex :: !OccursAt(haystack, needle, q)
      decreases |haystack| - (haystackIndex - needleIndex), |haystack| - haystackIndex
    {
      if haystack[haystackIndex] == needle[needleIndex] {
        haystackIndex, needleIndex := haystackIndex + 1, needleIndex + 1;
        if needleIndex == |needle| {
          return haystackIndex - |needle|;
        }
      } else {
        ghost var start := haystackIndex - needleIndex;
        assert !OccursAt(haystack, needle, start);
        haystackIndex, needleIndex := haystackIndex - needleIndex + 1, 0;
      }
    }
    p := haystackIndex;
  }

  function First(haystack: seq<bool>, needle: seq<bool>, from: nat): (p: nat)
    requires from <= |haystack|
    ensures from <= p <= |haystack|
    ensures OccursAt(haystack, needle, p) || p == |haystack|
    ensures forall q: nat | from <= q < p :: !OccursAt(haystack, needle, q)
    decreases |haystack| - from
  {
    if from == |haystack| || OccursAt(haystack, needle, from) then from else First(haystack, needle, from + 1)
  }

  lemma FirstIsUnique(haystack: seq<bool>, needle: seq<bool>, p: nat)
    requires needle != [] && IsFirst(haystack, needle, p)
    ensures p == First(haystack, needle, 0)
  {
    var q := First(haystack, needle, 0);
    assert OccursAt(haystack, needle, p) ==> p < |haystack|;
    assert OccursAt(haystack, needle, q) ==> q < |haystack|;
  }

  // ----- Parse

  const START_NIBBLE := [true, true, true, false]

  function NibbleAt(raw: seq<bool>, p: nat): Byte
    requires p + 4 <= |raw|
  {
    (if !raw[p] then 8 else 0) | (if !raw[p + 1] then 4 else 0) |
    (if !raw[p + 2] then 2 else 0) | (if !raw[p + 3] then 1 else 0)
  }

  predicate ValidNibble(nibble: Byte) {
    nibble == 0x7 || nibble == 0xB || nibble == 0xD || nibble == 0xE
  }

  /** The `i`-th nibble from `p` on is valid. */
  predicate GoodNibble(raw: seq<bool>, p: nat, i: nat)
    requires p + 4 * i + 4 <= |raw|
  {
    ValidNibble(NibbleAt(raw, p + 4 * i))
  }

  /** How many of the `n` nibbles from `p` on are valid before the first that is not. */
  function GoodNibbles(raw: seq<bool>, p: nat, n: nat): (good: nat)
    requires p + 4 * n <= |raw|
    ensures good <= n
    ensures forall i: nat | i < good :: GoodNibble(raw, p, i)
    ensures good < n ==> !GoodNibble(raw, p, good)
  {
    if n == 0 then 0
    else
      var good := GoodNibbles(raw, p, n - 1);
      if good == n - 1 && GoodNibble(raw, p, n - 1) then n else good
  }

  /** The byte at `j` when the first `good` nibbles have been stored, high nibble first. */
  function StoredByte(raw: seq<bool>, p: nat, good: nat, j: nat): Byte
    requires p + 4 * good <= |raw|
  {
    (if 2 * j < good then NibbleAt(raw, p + 8 * j) << 4 else 0) |
    (if 2 * j + 1 < good then NibbleAt(raw, p + 8 * j + 4) else 0)
  }

  function Stored(raw: seq<bool>, p: nat, good: nat, count: nat): (data: seq<Byte>)
    requires p + 4 * good <= |raw|
    ensures |data| == count
  {
    seq(count, j requires 0 <= j < count => StoredByte(raw, p, good, j))
  }

  /** What a parse reports and leaves in the buffer. */
  datatype Outcome = Outcome(error: Error, data: seq<Byte>)

  function Parse(raw: seq<bool>, count: nat): (r: Outcome)
    ensures |r.data| == count
  {
    var start := First(raw, START_NIBBLE, 0);
    if start == |raw| then Outcome(NoStartNibble, Stored(raw, start, 0, count))
    else if start + 4 + 8 * count >= |raw| then Outcome(RawDataSizeError, Stored(raw, start, 0, count))
    else
      var good := GoodNibbles(raw, start + 4, 2 * count);
      Outcome(if good == 2 * count then NoError else UnknownNibbleValue, Stored(raw, start + 4, good, count))
  }

  function Cleared(n: nat): seq<bool> {
    seq(n, _ => false)
  }

  // ----- Levels

  /** What the converter reads, of 12 bits. */
  type Level = x: nat | x < 4096

  /** One turn of the capture loop: the level read, and the time until the next reading. */
  datatype Reading = Reading(level: Level, us: nat)

  /** The edge thresholds; the source computes the same value for both. */
  function Threshold(lineMin: Level, lineMax: Level): nat
    requires lineMin <= lineMax
  {
    var diff := lineMax - lineMin;
    lineMin + diff / 2 - diff / 4
  }

  /** Above the threshold the line is high, below it low; on it, it is what it was, and low before the first. */
  predicate IsHigh(line: seq<Reading>, threshold: nat, i: nat)
    requires i < |line|
  {
    line[i].level > threshold || (line[i].level == threshold && i > 0 && IsHigh(line, threshold, i - 1))
  }

  function Digital(line: seq<Reading>, threshold: nat): seq<Pulse> {
    seq(|line|, i requires 0 <= i < |line| => Pulse(IsHigh(line, threshold, i), line[i].us))
  }

  /** The line that a driver makes which knows two levels only. */
  function TwoLevels(wave: seq<Pulse>, low: Level, high: Level): seq<Reading> {
    seq(|wave|, i requires 0 <= i < |wave| => Reading(if wave[i].high then high else low, wave[i].us))
  }

  lemma ToldApart(wave: seq<Pulse>, low: Level, high: Level)
    requires low + 2 <= high
    ensures Digital(TwoLevels(wave, low, high), Threshold(low, high)) == wave
  {
  }

  /** Such a line is told apart, whatever is sent, exactly when its levels are at least two steps apart. */
  lemma LevelsAreToldApart(low: Level, high: Level)
    requires low < high
    ensures (forall wave :: Digital(TwoLevels(wave, low, high), Threshold(low, high)) == wave) <==> low + 2 <= high
  {
    if low + 2 <= high {
      forall wave ensures Digital(TwoLevels(wave, low, high), Threshold(low, high)) == wave {
        ToldApart(wave, low, high);
      }
    } else {
      var wave := [Pulse(true, 1), Pulse(false, 1)];
      var line := TwoLevels(wave, low, high);
      assert line[0].level == high && line[1].level == low == Threshold(low, high);
      assert IsHigh(line, low, 0) && IsHigh(line, low, 1);
      assert Digital(line, low)[1] != wave[1];
    }
  }

  ghost predicate IsRange(samples: seq<Level>, low: Level, high: Level) {
    low in samples && high in samples && forall x | x in samples :: low <= x <= high
  }

  // ----- Capture

  const CAPTURE_SIZE := 72
  const LINE_IDLE := 2000

  /** The locals of the capture loop, and the bits stored so far. */
  datatype Progress = Progress(high: bool, start: nat, now: nat, bits: seq<bool>)

  /** A rising edge starts a measurement, the falling edge that follows decides a bit. */
  function Turn(c: Progress, r: Reading, threshold: nat): Progress {
    var high := r.level > threshold || (r.level == threshold && c.high);
    Progress(
      high,
      if high && !c.high then c.now else c.start,
      c.now + r.us,
      if !high && c.high then c.bits + [c.now - c.start < TIME_THRESHOLD] else c.bits)
  }

  /** After `n` turns. */
  function Scan(line: seq<Reading>, threshold: nat, n: nat): (c: Progress)
    requires n <= |line|
    ensures c.start <= c.now
  {
    if n == 0 then Progress(false, 0, 0, []) else Turn(Scan(line, threshold, n - 1), line[n - 1], threshold)
  }

  lemma {:induction false} ScanIsHigh(line: seq<Reading>, threshold: nat, n: nat)
    requires n < |line|
    ensures Scan(line, threshold, n + 1).high == IsHigh(line, threshold, n)
  {
    if n > 0 {
      ScanIsHigh(line, threshold, n - 1);
    }
  }

  /** What the readings from the `n`-th on will add. */
  function Ahead(line: seq<Reading>, threshold: nat, n: nat, limit: nat): seq<bool>
    requires n <= |line|
  {
    var c := Scan(line, threshold, n);
    Capture(Within(Digital(line, threshold)[n..], c.now, limit), c.high, if c.high then c.now - c.start else 0)
  }

  lemma AheadNext(line: seq<Reading>, threshold: nat, n: nat, limit: nat)
    requires n < |line| && Scan(line, threshold, n).now < limit
    ensures
      Scan(line, threshold, n).bits + Ahead(line, threshold, n, limit) ==
      Scan(line, threshold, n + 1).bits + Ahead(line, threshold, n + 1, limit)
  {
    var c, wave := Scan(line, threshold, n), Digital(line, threshold);
    ScanIsHigh(line, threshold, n);
    var seen := Within(wave[n..], c.now, limit);
    assert wave[n..][1..] == wave[n + 1..];
    assert seen[0] == wave[n] && seen[1..] == Within(wave[n + 1..], c.now + wave[n].us, limit);
  }

  /** The time was not up at any of the first `n` turns. */
  predicate InTime(line: seq<Reading>, threshold: nat, n: nat, limit: nat)
    requires n <= |line|
  {
    n == 0 || (InTime(line, threshold, n - 1, limit) && Scan(line, threshold, n - 1).now < limit)
  }

  lemma {:induction false} ScanIsCapture(line: seq<Reading>, threshold: nat, n: nat, limit: nat)
    requires n <= |line| && InTime(line, threshold, n, limit)
    ensures Capture(Within(Digital(line, threshold), 0, limit), false, 0) ==
            Scan(line, threshold, n).bits + Ahead(line, threshold, n, limit)
  {
    if n == 0 {
      assert Digital(line, threshold)[0..] == Digital(line, threshold);
    } else {
      ScanIsCapture(line, threshold, n - 1, limit);
      AheadNext(line, threshold, n - 1, limit);
    }
  }

  /** The reader's buffer of `size` bits after a capture. */
  function Captured(wave: seq<Pulse>, size: nat): seq<bool> {
    var bits := Capture(Within(wave, 0, TIME_PER_BIT * size), false, 0);
    if size <= |bits| then bits[..size] else bits + Cleared(size - |bits|)
  }

  lemma CaptureEnds(line: seq<Reading>, threshold: nat, size: nat, n: nat)
    requires n <= |line| && InTime(line, threshold, n, TIME_PER_BIT * size)
    requires var c := Scan(line, threshold, n);
      |c.bits| <= size && (n == |line| || |c.bits| == size || c.now >= TIME_PER_BIT * size)
    ensures var bits := Scan(line, threshold, n).bits;
      bits + Cleared(size - |bits|) == Captured(Digital(line, threshold), size)
  {
    ScanIsCapture(line, threshold, n, TIME_PER_BIT * size);
  }

  lemma BitStored(captured: seq<bool>, bit: bool, room: nat)
    requires room > 0
    ensures (captured + Cleared(room))[|captured| := bit] == captured + [bit] + Cleared(room - 1)
  {
  }

  class Reader {
    var error: Error

    constructor ()
      ensures error == NoError
    {
      error := NoError;
    }

    /** The calibration: the lowest and the highest of the samples. */
    method GetLineMinmax(samples: seq<Level>) returns (low: Level, high: Level)
      requires samples != []
      ensures IsRange(samples, low, high)
    {
      var min: nat, max: nat := 0xFFFF_FFFF, 0;
      var i := 0;
      while i < |samples|
        invariant 0 <= i <= |samples|
        invariant if i == 0 then min == 0xFFFF_FFFF else min in samples
        invariant max == 0 || max in samples
        invariant forall j | 0 <= j < i :: min <= samples[j] <= max
      {
        if samples[i] < min {
          min := samples[i];
        }
        if samples[i] > max {
          max := samples[i];
        }
        i := i + 1;
      }
      assert min <= samples[0] <= max;
      low, high := min, max;
    }

    method Clear(data: array<bool>)
      modifies data
      ensures data[..] == Cleared(data.Length)
    {
      forall i | 0 <= i < data.Length {
        data[i] := false;
      }
    }

    /** Stores a captured bit in the first place that is still clear. */
    method StoreBit(data: array<bool>, capturePosition: nat, bit: bool, ghost captured: seq<bool>)
      requires capturePosition == |captured| < data.Length
      requires data[..] == captured + Cleared(data.Length - |captured|)
      modifies data
      ensures data[..] == captured + [bit] + Cleared(data.Length - |captured| - 1)
    {
      BitStored(captured, bit, data.Length - |captured|);
      data[capturePosition] := bit;
    }

    method Thresholds(lineMin: Level, lineMax: Level) returns (low: nat, high: nat)
      requires lineMin <= lineMax
      ensures low == high == Threshold(lineMin, lineMax)
    {
      var diff := lineMax - lineMin;
      var mid := lineMin + diff / 2;
      low := mid - diff / 4;
      high := mid - diff / 4;
    }

    /** A capture into a cleared buffer; it stops when the buffer is full or when the time for so many bits is up. */
    method CaptureData(line: seq<Reading>, data: array<bool>, lineMin: Level, lineMax: Level)
      requires lineMin <= lineMax
      modifies data
      ensures data[..] == Captured(Digital(line, Threshold(lineMin, lineMax)), data.Length)
    {
      var lowThreshold, highThreshold := Thresholds(lineMin, lineMax);
      Clear(data);
      ghost var n := CaptureLoop(line, data, lowThreshold, highThreshold);
      CaptureEnds(line, highThreshold, data.Length, n);
    }

    /** The loop: a rising edge starts a measurement, the falling edge that follows decides the bit. */
    method CaptureLoop(line: seq<Reading>, data: array<bool>, lowThreshold: nat, highThreshold: nat)
      returns (ghost n: nat)
      requires data[..] == Cleared(data.Length) && lowThreshold == highThreshold
      modifies data
      ensures n <= |line| && InTime(line, highThreshold, n, TIME_PER_BIT * data.Length)
      ensures
        var c := Scan(line, highThreshold, n);
        && |c.bits| <= data.Length && data[..] == c.bits + Cleared(data.Length - |c.bits|)
        && (n == |line| || |c.bits| == data.Length || c.now >= TIME_PER_BIT * data.Length)
    {
      var lastInputValue := false;
      var captureMaxTime: nat := TIME_PER_BIT * data.Length;
      var time: nat, start: nat := 0, 0;
      var capturePosition := 0;
      ghost var captured: seq<bool> := [];
      var i := 0;
      while i < |line| && capturePosition < data.Length && time < captureMaxTime
        invariant 0 <= i <= |line| && start <= time && capturePosition == |captured| <= data.Length
        invariant Progress(lastInputValue, start, time, captured) == Scan(line, highThreshold, i)
        invariant InTime(line, highThreshold, i, captureMaxTime)
        invariant data[..] == captured + Cleared(data.Length - |captured|)
        decreases |line| - i
      {
        var inputValue := line[i].level;
        if inputValue > highThreshold && !lastInputValue {
          lastInputValue := true;
          start := time;
        }
        if inputValue < lowThreshold && lastInputValue {
          lastInputValue := false;
          var bit := time - start < TIME_THRESHOLD;
          StoreBit(data, capturePosition, bit, captured);
          captured := captured + [bit];
          capturePosition := capturePosition + 1;
        }
        time := time + line[i].us;
        assert Progress(lastInputValue, start, time, captured) ==
               Turn(Scan(line, highThreshold, i), line[i], highThreshold);
        i := i + 1;
      }
      n := i;
    }

    /**
     A whole read: calibrate, capture 72 bits whatever the key's size is, parse. A line that idles high has no
     key on it.
     */
    method Read(samples: seq<Level>, line: seq<Reading>, data: array<Byte>, count: nat) returns (result: bool)
      requires samples != [] && count <= data.Length
      modifies this, data
      ensures data[count..] == old(data[count..])
      ensures result <==> error == NoError
      ensures forall low: Level, high: Level | IsRange(samples, low, high) ::
        if high > 2000 then error == UnableToDetect && data[..] == old(data[..])
        else Outcome(error, data[..count]) == Parse(Captured(Digital(line, Threshold(low, high)), CAPTURE_SIZE), count)
    {
      error := NoError;
      var lineMin, lineMax := GetLineMinmax(samples);
      assert forall low: Level, high: Level | IsRange(samples, low, high) :: low == lineMin && high == lineMax;
      if lineMax > LINE_IDLE {
        error := UnableToDetect;
        return false;
      }
      var raw := new bool[CAPTURE_SIZE];
      CaptureData(line, raw, lineMin, lineMax);
      result := ParseData(raw[..], data, count);
    }

    method ParseData(raw: seq<bool>, data: array<Byte>, count: nat) returns (ok: bool)
      requires count <= data.Length
      modifies this, data
      ensures Outcome(error, data[..count]) == Parse(raw, count)
      ensures ok <==> error == NoError
      ensures data[count..] == old(data[count..])
    {
      var startPosition := SearchArrayInArray(raw, START_NIBBLE);
      FirstIsUnique(raw, START_NIBBLE, startPosition);

      forall i | 0 <= i < count {
        data[i] := 0;
      }

      if startPosition < |raw| {
        startPosition := startPosition + 4;
        var endPosition := startPosition + count * 2 * 4;
        if endPosition >= |raw| {
          error := RawDataSizeError;
          assert data[..count] == Stored(raw, startPosition - 4, 0, count);
          return false;
        }
        ok := StoreNibbles(raw, startPosition, data, count);
        return;
      }
      error := NoStartNibble;
      assert data[..count] == Stored(raw, startPosition, 0, count);
      return false;
    }

    method StoreNibble(data: array<Byte>, dataPosition: nat, nibble: Byte, first: bool)
      requires dataPosition < data.Length
      modifies data
      ensures data[..] == old(data[..])[dataPosition := OrNibble(old(data[dataPosition]), nibble, first)]
    {
      if first {
        data[dataPosition] := data[dataPosition] | (nibble << 4);
      } else {
        data[dataPosition] := data[dataPosition] | nibble;
      }
    }

    /** The loop of the parser, on a cleared buffer. */
    method StoreNibbles(raw: seq<bool>, start: nat, data: array<Byte>, count: nat) returns (ok: bool)
      requires count <= data.Length && start + 8 * count <= |raw|
      requires forall j | 0 <= j < count :: data[j] == 0
      modifies this, data
      ensures var good := GoodNibbles(raw, start, 2 * count);
        && ok == (good == 2 * count)
        && error == (if ok then NoError else UnknownNibbleValue)
        && data[..count] == Stored(raw, start, good, count)
      ensures data[count..] == old(data[count..])
    {
      var firstNibble := true;
      var dataPosition := 0;
      var startPosition := start;
      ghost var good := 0;
      ghost var stored := Stored(raw, start, 0, count);
      while dataPosition < count
        invariant 0 <= dataPosition <= count
        invariant good == 2 * dataPosition + (if firstNibble then 0 else 1) <= 2 * count
        invariant startPosition == start + 4 * good
        invariant GoodNibbles(raw, start, good) == good
        invariant data[..count] == stored == Stored(raw, start, good, count)
        invariant data[count..] == old(data[count..])
        decreases 2 * count - good
      {
        var nibbleValue := NibbleAt(raw, startPosition);
        if !ValidNibble(nibbleValue) {
          GoodNibblesStop(raw, start, good, 2 * count);
          error := UnknownNibbleValue;
          return false;
        }
        GoodNibblesNext(raw, start, good);
        stored := StoredNext(raw, start, good, count, dataPosition, firstNibble, nibbleValue, stored);
        StoreNibble(data, dataPosition, nibbleValue, firstNibble);
        good := good + 1;
        firstNibble := !firstNibble;
        if firstNibble {
          dataPosition := dataPosition + 1;
        }
        startPosition := startPosition + 4;
      }
      error := NoError;
      return true;
    }
  }

  function OrNibble(b: Byte, nibble: Byte, first: bool): Byte {
    if first then b | (nibble << 4) else b | nibble
  }

  /** Storing one more nibble changes only the byte it belongs to. */
  lemma StoredNext(
      raw: seq<bool>, p: nat, good: nat, count: nat, j: nat, first: bool, nibble: Byte, stored: seq<Byte>)
    returns (next: seq<Byte>)
    requires p + 4 * good + 4 <= |raw| && j < count && good == 2 * j + if first then 0 else 1
    requires nibble == NibbleAt(raw, p + 4 * good) && stored == Stored(raw, p, good, count)
    ensures next == stored[j := OrNibble(stored[j], nibble, first)] == Stored(raw, p, good + 1, count)
  {
    next := stored[j := OrNibble(stored[j], nibble, first)];
  }

  lemma GoodNibblesNext(raw: seq<bool>, p: nat, good: nat)
    requires p + 4 * good + 4 <= |raw| && GoodNibbles(raw, p, good) == good && GoodNibble(raw, p, good)
    ensures GoodNibbles(raw, p, good + 1) == good + 1
  {
  }

  lemma GoodNibblesStop(raw: seq<bool>, p: nat, good: nat, n: nat)
    requires good < n && p + 4 * n <= |raw|
    requires GoodNibbles(raw, p, good) == good && !GoodNibble(raw, p, good)
    ensures GoodNibbles(raw, p, n) == good
  {
  }
}
