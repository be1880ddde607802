/**
 What the Cyfral parser accepts, and that a key sent by the emulator is read back from
 any point of the repeated transmission: the start nibble is found only where a frame starts.
 */
module CyfralRoundTrip {
  import opened CyfralCode
  import opened CyfralReader

  predicate ValidByte(b: Byte) {
    ValidNibble(b >> 4) && ValidNibble(b & 0xF)
  }

  ghost predicate ValidKey(data: seq<Byte>) {
    forall j | 0 <= j < |data| :: ValidByte(data[j])
  }

  // ----- Bits of a frame

  lemma BitMasks(b: Byte)
    ensures ByteBit(b, 0) == (b & 0x80 != 0) && ByteBit(b, 1) == (b & 0x40 != 0)
    ensures ByteBit(b, 2) == (b & 0x20 != 0) && ByteBit(b, 3) == (b & 0x10 != 0)
    ensures ByteBit(b, 4) == (b & 0x08 != 0) && ByteBit(b, 5) == (b & 0x04 != 0)
    ensures ByteBit(b, 6) == (b & 0x02 != 0) && ByteBit(b, 7) == (b & 0x01 != 0)
  {
  }

  lemma {:induction false} DataBit(data: seq<Byte>, a: nat, i: nat)
    requires a < |data| && i < 8
    ensures DataBits(data)[8 * a + i] == ByteBit(data[a], i)
  {
    if a != 0 {
      DataBit(data[1..], a - 1, i);
      assert DataBits(data)[8 * a + i] == DataBits(data[1..])[8 * (a - 1) + i];
    }
  }

  lemma FrameBit(data: seq<Byte>, a: nat, i: nat)
    requires a < |data| && i < 8
    ensures Frame(data)[4 + 8 * a + i] == ByteBit(data[a], i)
  {
    DataBit(data, a, i);
  }

  lemma FrameStart(data: seq<Byte>)
    ensures !Frame(data)[0] && !Frame(data)[1] && !Frame(data)[2] && Frame(data)[3]
  {
    var nibble: Byte := 1;
    assert NibbleBit(nibble, 0) == (nibble & 8 != 0);
    assert NibbleBit(nibble, 1) == (nibble & 4 != 0);
    assert NibbleBit(nibble, 2) == (nibble & 2 != 0);
    assert NibbleBit(nibble, 3) == (nibble & 1 != 0);
  }

  // ----- What the parser accepts

  ghost predicate ByteHolds(raw: seq<bool>, q: nat, b: Byte)
    requires q + 8 <= |raw|
  {
    forall i: nat | i < 8 :: raw[q + i] == !ByteBit(b, i)
  }

  /** Eight captured bits read as two nibbles give the byte whose complement they are. */
  lemma ByteRead(raw: seq<bool>, q: nat, b: Byte)
    requires q + 8 <= |raw|
    ensures ByteHolds(raw, q, b) <==> b == (NibbleAt(raw, q) << 4) | NibbleAt(raw, q + 4)
    ensures ByteHolds(raw, q, b) ==> NibbleAt(raw, q) == b >> 4 && NibbleAt(raw, q + 4) == b & 0xF
  {
    BitMasks(b);
    var hi, lo := NibbleAt(raw, q), NibbleAt(raw, q + 4);
    var c := (hi << 4) | lo;
    NibblesToBits(raw, q, c);
    if ByteHolds(raw, q, b) {
      SameBits(b, c);
    }
  }

  lemma NibblesToBits(raw: seq<bool>, q: nat, c: Byte)
    requires q + 8 <= |raw| && c == (NibbleAt(raw, q) << 4) | NibbleAt(raw, q + 4)
    ensures ByteHolds(raw, q, c)
    ensures NibbleAt(raw, q) == c >> 4 && NibbleAt(raw, q + 4) == c & 0xF
  {
    BitMasks(c);
    forall i: nat | i < 8 ensures raw[q + i] == !ByteBit(c, i) {
      assert i == 0 || i == 1 || i == 2 || i == 3 || i == 4 || i == 5 || i == 6 || i == 7;
    }
  }

  lemma SameBits(b: Byte, c: Byte)
    requires forall i: nat | i < 8 :: ByteBit(b, i) == ByteBit(c, i)
    ensures b == c
  {
    BitMasks(b);
    BitMasks(c);
  }

  ghost predicate Matches(raw: seq<bool>, p: nat, data: seq<Byte>) {
    p + 4 + 8 * |data| <= |raw| && raw[p..p + 4 + 8 * |data|] == Complement(Frame(data))
  }

  lemma MatchHoldsBytes(raw: seq<bool>, p: nat, data: seq<Byte>)
    requires Matches(raw, p, data)
    ensures OccursAt(raw, START_NIBBLE, p) && forall a: nat | a < |data| :: ByteHolds(raw, p + 4 + 8 * a, data[a])
  {
    var n, frame := 4 + 8 * |data|, Frame(data);
    FrameStart(data);
    assert forall m | 0 <= m < n :: raw[p + m] == raw[p..p + n][m] == !frame[m];
    forall a: nat, i: nat | a < |data| && i < 8 ensures raw[p + 4 + 8 * a + i] == !ByteBit(data[a], i) {
      FrameBit(data, a, i);
      assert raw[p + (4 + 8 * a + i)] == !frame[4 + 8 * a + i];
    }
  }

  lemma BytesMatchAt(raw: seq<bool>, p: nat, data: seq<Byte>, m: nat)
    requires 4 <= m < 4 + 8 * |data| && p + 4 + 8 * |data| <= |raw|
    requires forall a: nat | a < |data| :: ByteHolds(raw, p + 4 + 8 * a, data[a])
    ensures raw[p + m] == !Frame(data)[m]
  {
    var a, i := (m - 4) / 8, (m - 4) % 8;
    FrameBit(data, a, i);
    assert m == 4 + 8 * a + i && ByteHolds(raw, p + 4 + 8 * a, data[a]);
    assert raw[p + 4 + 8 * a + i] == !ByteBit(data[a], i);
  }

  /** A stretch of the capture is a complemented frame iff it starts right and holds every byte. */
  lemma MatchesBytewise(raw: seq<bool>, p: nat, data: seq<Byte>)
    requires p + 4 + 8 * |data| <= |raw|
    ensures Matches(raw, p, data) <==>
            OccursAt(raw, START_NIBBLE, p) && forall a: nat | a < |data| :: ByteHolds(raw, p + 4 + 8 * a, data[a])
  {
    var n, frame := 4 + 8 * |data|, Frame(data);
    if Matches(raw, p, data) {
      MatchHoldsBytes(raw, p, data);
    }
    if OccursAt(raw, START_NIBBLE, p) && forall a: nat | a < |data| :: ByteHolds(raw, p + 4 + 8 * a, data[a]) {
      FrameStart(data);
      forall m | 0 <= m < n ensures raw[p + m] == !frame[m] {
        if m >= 4 {
          BytesMatchAt(raw, p, data, m);
        } else {
          assert raw[p + m] == START_NIBBLE[m] == !frame[m];
        }
      }
      assert raw[p..p + n] == Complement(frame);
    }
  }

  /** A successful parse gives valid bytes whose complemented frame is the capture at the start found. */
  lemma ParseIsSound(raw: seq<bool>, count: nat, data: seq<Byte>)
    requires Parse(raw, count) == Outcome(NoError, data)
    ensures |data| == count && ValidKey(data)
    ensures var p := First(raw, START_NIBBLE, 0); p + 4 + 8 * count < |raw| && Matches(raw, p, data)
  {
    var p := First(raw, START_NIBBLE, 0);
    NoErrorStores(raw, count, p);
    StoredMatches(raw, p, data);
  }

  lemma NoErrorStores(raw: seq<bool>, count: nat, p: nat)
    requires Parse(raw, count).error == NoError && p == First(raw, START_NIBBLE, 0)
    ensures p < |raw| && p + 4 + 8 * count < |raw|
    ensures GoodNibbles(raw, p + 4, 2 * count) == 2 * count
    ensures Parse(raw, count).data == Stored(raw, p + 4, 2 * count, count)
  {
    if p + 4 + 8 * count < |raw| {
      var good := GoodNibbles(raw, p + 4, 2 * count);
      assert Parse(raw, count).error == if good == 2 * count then NoError else UnknownNibbleValue;
    }
  }

  lemma StoredMatches(raw: seq<bool>, p: nat, data: seq<Byte>)
    requires p + 4 + 8 * |data| < |raw| && OccursAt(raw, START_NIBBLE, p)
    requires GoodNibbles(raw, p + 4, 2 * |data|) == 2 * |data|
    requires data == Stored(raw, p + 4, 2 * |data|, |data|)
    ensures ValidKey(data) && Matches(raw, p, data)
  {
    FullyStored(raw, p, data);
    MatchesBytewise(raw, p, data);
  }

  lemma ParseIsComplete(raw: seq<bool>, data: seq<Byte>, p: nat)
    requires p == First(raw, START_NIBBLE, 0) && p + 4 + 8 * |data| < |raw|
    requires ValidKey(data) && Matches(raw, p, data)
    ensures Parse(raw, |data|) == Outcome(NoError, data)
  {
    MatchesBytewise(raw, p, data);
    var good := GoodNibbles(raw, p + 4, 2 * |data|);
    if good == 2 * |data| {
      FullyStored(raw, p, data);
    } else {
      BadNibbleRejects(raw, p, data, good);
      assert false;
    }
  }

  /**
   Parser soundness and completeness. The parse succeeds with `data` exactly when, at the first start
   nibble, the capture is the complement of the frame of `data`, all nibbles of `data` are valid and at
   least one captured bit follows the frame.
   */
  lemma ParseAccepts(raw: seq<bool>, count: nat, data: seq<Byte>)
    ensures
      var p := First(raw, START_NIBBLE, 0);
      Parse(raw, count) == Outcome(NoError, data) <==>
      |data| == count && ValidKey(data) && p + 4 + 8 * count < |raw| && Matches(raw, p, data)
  {
    var p := First(raw, START_NIBBLE, 0);
    if Parse(raw, count) == Outcome(NoError, data) {
      ParseIsSound(raw, count, data);
    }
    if |data| == count && ValidKey(data) && p + 4 + 8 * count < |raw| && Matches(raw, p, data) {
      ParseIsComplete(raw, data, p);
    }
  }

  /** An invalid nibble in the capture is not part of any valid key. */
  lemma BadNibbleRejects(raw: seq<bool>, p: nat, data: seq<Byte>, good: nat)
    requires p + 4 + 8 * |data| <= |raw| && good < 2 * |data|
    requires !GoodNibble(raw, p + 4, good)
    ensures !ValidByte(data[good / 2]) || !ByteHolds(raw, p + 4 + 8 * (good / 2), data[good / 2])
  {
    var a := good / 2;
    ByteRead(raw, p + 4 + 8 * a, data[a]);
    assert 4 * good == 8 * a || 4 * good == 8 * a + 4;
  }

  /** With all nibbles valid, the stored bytes are `data` iff the capture holds `data`. */
  lemma FullyStored(raw: seq<bool>, p: nat, data: seq<Byte>)
    requires p + 4 + 8 * |data| <= |raw|
    requires GoodNibbles(raw, p + 4, 2 * |data|) == 2 * |data|
    ensures Stored(raw, p + 4, 2 * |data|, |data|) == data <==>
            forall a: nat | a < |data| :: ByteHolds(raw, p + 4 + 8 * a, data[a])
    ensures Stored(raw, p + 4, 2 * |data|, |data|) == data ==> ValidKey(data)
  {
    var n := |data|;
    var out := Stored(raw, p + 4, 2 * n, n);
    forall a: nat | a < n
      ensures out[a] == data[a] <==> ByteHolds(raw, p + 4 + 8 * a, data[a])
      ensures out[a] == data[a] ==> ValidByte(data[a])
    {
      ByteRead(raw, p + 4 + 8 * a, data[a]);
      assert GoodNibble(raw, p + 4, 2 * a) && GoodNibble(raw, p + 4, 2 * a + 1);
    }
  }

  // ----- Where the start nibble occurs

  /** The endless repetition of a frame. */
  function Cyclic(frame: seq<bool>, i: nat): bool
    requires frame != []
  {
    frame[i % |frame|]
  }

  lemma AddMod(i: nat, d: nat, n: nat)
    requires d < n
    ensures (i + d) % n == if i % n + d < n then i % n + d else i % n + d - n
  {
    var k := i / n;
    assert i == n * k + i % n;
    if i % n + d < n {
      UniqueMod(i + d, k, i % n + d, n);
    } else {
      assert i + d == n * (k + 1) + (i % n + d - n);
      UniqueMod(i + d, k + 1, i % n + d - n, n);
    }
  }

  lemma UniqueMod(x: nat, k: nat, r: nat, n: nat)
    requires r < n && x == n * k + r
    ensures x % n == r
  {
    var e := x / n - k;
    assert n * e == r - x % n;
    assert e > 0 ==> n * e >= n;
    assert e < 0 ==> n * e + n <= 0;
  }

  lemma ModMinus(i: nat, n: nat)
    requires 0 < n <= i
    ensures (i - n) % n == i % n
  {
    var q, r := (i - n) / n, (i - n) % n;
    assert i - n == n * q + r;
    assert n * (q + 1) == n * q + n;
    UniqueMod(i, q + 1, r, n);
  }

  lemma {:induction false} RepeatIsCyclic(frame: seq<bool>, times: nat, i: nat)
    requires frame != [] && i < |Repeat(frame, times)|
    ensures Repeat(frame, times)[i] == Cyclic(frame, i)
  {
    if i >= |frame| {
      RepeatIsCyclic(frame, times - 1, i - |frame|);
      ModMinus(i, |frame|);
    }
  }

  /** No nibble of a valid byte has two zero bits. */
  lemma OneZeroPerNibble(b: Byte, i: nat, j: nat)
    requires ValidByte(b) && i < j < 8 && (j < 4 || 4 <= i)
    ensures ByteBit(b, i) || ByteBit(b, j)
  {
    BitMasks(b);
    assert i == 0 || i == 1 || i == 2 || i == 4 || i == 5 || i == 6;
    assert j == 1 || j == 2 || j == 3 || j == 5 || j == 6 || j == 7;
  }

  lemma OneZeroInFrame(data: seq<Byte>, a: nat, i: nat)
    requires ValidKey(data) && a < |data| && i < 7 && i != 3
    ensures Frame(data)[4 + 8 * a + i] || Frame(data)[4 + 8 * a + i + 1]
  {
    FrameBit(data, a, i);
    FrameBit(data, a, i + 1);
    OneZeroPerNibble(data[a], i, i + 1);
  }

  /** Inside the data, two zero bits in a row end in the last bit of a nibble. */
  lemma NoStartInData(data: seq<Byte>, m: nat)
    requires ValidKey(data) && 4 <= m < 4 + 8 * |data|
    requires !Frame(data)[m]
    requires m + 1 < 4 + 8 * |data| ==> !Frame(data)[m + 1]
    requires m + 2 < 4 + 8 * |data| ==> !Frame(data)[m + 2]
    ensures m + 1 == 4 + 8 * |data|
  {
    var a, i := (m - 4) / 8, (m - 4) % 8;
    assert m == 4 + 8 * a + i;
    if i == 3 {
      OneZeroInFrame(data, a, 4);
    } else if i < 7 {
      OneZeroInFrame(data, a, i);
    } else if a + 1 < |data| {
      OneZeroInFrame(data, a + 1, 0);
    }
  }

  /** Self-synchronisation: the start pattern occurs only where a frame starts. */
  lemma StartOnlyAtFrames(data: seq<Byte>, i: nat)
    requires ValidKey(data)
    requires !Cyclic(Frame(data), i) && !Cyclic(Frame(data), i + 1)
    requires !Cyclic(Frame(data), i + 2) && Cyclic(Frame(data), i + 3)
    ensures i % |Frame(data)| == 0
  {
    var n := |Frame(data)|;
    AddMod(i, 1, n);
    AddMod(i, 2, n);
    AddMod(i, 3, n);
    FrameStart(data);
    if i % n >= 4 {
      NoStartInData(data, i % n);
    }
  }

  /** Captured bits of the repeated frame, from bit `k` on. */
  ghost predicate Rotated(data: seq<Byte>, raw: seq<bool>, k: nat) {
    forall j: nat | j < |raw| :: raw[j] == !Cyclic(Frame(data), k + j)
  }

  ghost predicate IsWindow(data: seq<Byte>, raw: seq<bool>, k: nat) {
    |raw| >= 2 * |Frame(data)| && Rotated(data, raw, k)
  }

  /** Two frames of captured bits or more: the first start nibble comes before the second frame's length. */
  lemma FirstIsEarly(data: seq<Byte>, raw: seq<bool>, k: nat)
    requires IsWindow(data, raw, k)
    ensures First(raw, START_NIBBLE, 0) < |Frame(data)|
  {
    var n := |Frame(data)|;
    var p0 := if k % n == 0 then 0 else n - k % n;
    AddMod(k, p0, n);
    FrameOccurs(data, raw, k, p0);
  }

  lemma FirstIsFrameStart(data: seq<Byte>, raw: seq<bool>, k: nat, p: nat)
    requires ValidKey(data) && Rotated(data, raw, k) && OccursAt(raw, START_NIBBLE, p)
    ensures (k + p) % |Frame(data)| == 0
  {
    assert raw[p + 0] == START_NIBBLE[0] && raw[p + 1] == START_NIBBLE[1];
    assert raw[p + 2] == START_NIBBLE[2] && raw[p + 3] == START_NIBBLE[3];
    StartOnlyAtFrames(data, k + p);
  }

  lemma WindowParses(data: seq<Byte>, raw: seq<bool>, k: nat)
    requires ValidKey(data) && IsWindow(data, raw, k)
    ensures Parse(raw, |data|) == Outcome(NoError, data)
  {
    var p := First(raw, START_NIBBLE, 0);
    FirstIsEarly(data, raw, k);
    FirstIsFrameStart(data, raw, k, p);
    FrameOccurs(data, raw, k, p);
    ParseIsComplete(raw, data, p);
  }

  lemma FrameOccurs(data: seq<Byte>, raw: seq<bool>, k: nat, p: nat)
    requires IsWindow(data, raw, k) && p < |Frame(data)| && (k + p) % |Frame(data)| == 0
    ensures Matches(raw, p, data) && OccursAt(raw, START_NIBBLE, p)
  {
    var frame := Frame(data);
    var n := |frame|;
    forall m: nat | m < n ensures raw[p + m] == !frame[m] {
      AddMod(k + p, m, n);
      assert raw[p + m] == !Cyclic(frame, k + (p + m));
      assert k + (p + m) == (k + p) + m;
    }
    assert raw[p..p + n] == Complement(frame);
    MatchesBytewise(raw, p, data);
  }

  lemma WindowOfRepeat(frame: seq<bool>, times: nat, k: nat, raw: seq<bool>)
    requires frame != [] && k + |raw| <= |Repeat(frame, times)|
    requires raw == Complement(Repeat(frame, times))[k..k + |raw|]
    ensures forall j: nat | j < |raw| :: raw[j] == !Cyclic(frame, k + j)
  {
    forall j: nat | j < |raw| ensures raw[j] == !Cyclic(frame, k + j) {
      RepeatIsCyclic(frame, times, k + j);
    }
  }

  /** `size` captured bits of the repeated frame, from bit `k` on. */
  function Window(data: seq<Byte>, times: nat, k: nat, size: nat): seq<bool>
    requires k + size <= |Repeat(Frame(data), times)|
  {
    Complement(Repeat(Frame(data), times)[k..k + size])
  }

  lemma WindowAt(data: seq<Byte>, times: nat, k: nat, size: nat)
    requires k + size <= |Repeat(Frame(data), times)|
    ensures Rotated(data, Window(data, times, k, size), k)
  {
    forall j: nat | j < size ensures Window(data, times, k, size)[j] == !Cyclic(Frame(data), k + j) {
      RepeatIsCyclic(Frame(data), times, k + j);
    }
  }

  /**
   Round trip at any rotation: `2 * (8n + 4)` captured bits of the repeated frame or more, from any bit on,
   parse to exactly the `n` bytes that were sent.
   */
  lemma KeySurvives(data: seq<Byte>, times: nat, k: nat, size: nat)
    requires ValidKey(data) && size >= 2 * |Frame(data)| && k + size <= |Repeat(Frame(data), times)|
    ensures Parse(Window(data, times, k, size), |data|) == Outcome(NoError, data)
  {
    WindowAt(data, times, k, size);
    WindowParses(data, Window(data, times, k, size), k);
  }

  lemma NoRoomForFrame(data: seq<Byte>, raw: seq<bool>, p: nat)
    requires ValidKey(data) && Rotated(data, raw, 1) && |raw| < 2 * |Frame(data)|
    requires OccursAt(raw, START_NIBBLE, p)
    ensures p + |Frame(data)| >= |raw|
  {
    var n := |Frame(data)|;
    FirstIsFrameStart(data, raw, 1, p);
    if 1 + p < n {
      UniqueMod(1 + p, 0, 1 + p, n);
    }
  }

  /** One bit after a frame start, fewer bits than two frames do not hold a whole frame and a bit beyond it. */
  lemma ShortWindowFails(data: seq<Byte>, raw: seq<bool>)
    requires ValidKey(data) && Rotated(data, raw, 1) && |raw| < 2 * |Frame(data)|
    ensures Parse(raw, |data|) != Outcome(NoError, data)
  {
    if Parse(raw, |data|) == Outcome(NoError, data) {
      ParseIsSound(raw, |data|, data);
      NoRoomForFrame(data, raw, First(raw, START_NIBBLE, 0));
    }
  }

  /** The capture size that the parser needs, exactly: every rotation parses iff two frames fit. */
  lemma TwoFramesAreNeeded(data: seq<Byte>, times: nat, size: nat)
    requires ValidKey(data) && |Frame(data)| + size <= |Repeat(Frame(data), times)|
    ensures
      (forall k: nat | k < |Frame(data)| :: Parse(Window(data, times, k, size), |data|) == Outcome(NoError, data)) <==>
      size >= 2 * |Frame(data)|
  {
    if size >= 2 * |Frame(data)| {
      forall k: nat | k < |Frame(data)|
        ensures Parse(Window(data, times, k, size), |data|) == Outcome(NoError, data)
      {
        KeySurvives(data, times, k, size);
      }
    } else {
      WindowAt(data, times, 1, size);
      ShortWindowFails(data, Window(data, times, 1, size));
    }
  }

  /**
   The same through the waveform: send, drop any number of bits, capture within the reader's time limit, parse.
   */
  lemma KeySurvivesOnTheWire(data: seq<Byte>, times: nat, k: nat, size: nat, captured: seq<bool>)
    requires ValidKey(data) && size >= 2 * |Frame(data)| && k + size <= |Repeat(Frame(data), times)|
    requires captured == Capture(Within(Pulses(Repeat(Frame(data), times)[k..]), 0, TIME_PER_BIT * size), false, 0)
    ensures size <= |captured| && Parse(captured[..size], |data|) == Outcome(NoError, data)
  {
    var sent := Repeat(Frame(data), times);
    CapturedInTime(sent[k..], size, 0, TIME_PER_BIT * size);
    assert sent[k..][..size] == sent[k..k + size];
    assert captured[..size] == Window(data, times, k, size);
    KeySurvives(data, times, k, size);
  }
}
