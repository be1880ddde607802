/**
 FNV-1a, 32 bits (lib/fnv1a-hash/fnv1a-hash.c). Words are numbers below 2^32 and the product, taken in
 64 bits, is truncated to 32.
 */
module Fnv1a {

  const TWO_32 := 0x1_0000_0000
  const FNV_1A_INIT := 2166136261
  const PRIME := 16777619
  const PRIME_INVERSE := 899433627

  type Byte = x: nat | x < 256
  type Word = x: nat | x < 0x1_0000_0000

  function Power2(k: nat): (p: nat)
    ensures p > 0
  {
    if k == 0 then 1 else 2 * Power2(k - 1)
  }

  /** Exclusive or of the low `width` bits. */
  function Xor(a: nat, b: nat, width: nat): (r: nat)
    ensures r < Power2(width)
    decreases width
  {
    if width == 0 then 0 else 2 * Xor(a / 2, b / 2, width - 1) + (a + b) % 2
  }

  lemma {:induction false} XorCommutes(a: nat, b: nat, width: nat)
    ensures Xor(a, b, width) == Xor(b, a, width)
  {
    if width != 0 {
      XorCommutes(a / 2, b / 2, width - 1);
    }
  }

  lemma {:induction false} XorTwice(a: nat, b: nat, width: nat)
    requires a < Power2(width)
    ensures Xor(Xor(a, b, width), b, width) == a
  {
    if width != 0 {
      XorTwice(a / 2, b / 2, width - 1);
      var high := Xor(a / 2, b / 2, width - 1);
      var once := Xor(a, b, width);
      assert once / 2 == high && once % 2 == (a + b) % 2;
      LowBit(a, b, once);
    }
  }

  lemma LowBit(a: nat, b: nat, once: nat)
    requires once % 2 == (a + b) % 2
    ensures (once + b) % 2 == a % 2
  {
  }

  lemma PowersOfTwo()
    ensures Power2(32) == TWO_32
  {
    assert Power2(8) == 256;
    assert Power2(16) == 65536;
    assert Power2(24) == 16777216;
  }

  /** `hash ^ b`. */
  function XorByte(hash: Word, b: Byte): Word {
    PowersOfTwo();
    Xor(hash, b, 32)
  }

  function Mix(hash: Word, b: Byte): Word {
    (XorByte(hash, b) * PRIME) % TWO_32
  }

  function Hash(buffer: seq<Byte>, hash: Word): Word {
    if buffer == [] then hash else Mix(Hash(buffer[..|buffer| - 1], hash), buffer[|buffer| - 1])
  }

  method BufferHash(buffer: array<Byte>, length: nat, seed: Word) returns (hash: Word)
    requires length <= buffer.Length
    ensures hash == Hash(buffer[..length], seed)
  {
    hash := seed;
    var i := 0;
    while i < length
      invariant 0 <= i <= length
      invariant hash == Hash(buffer[..i], seed)
    {
      assert buffer[..i + 1][..i] == buffer[..i];
      hash := (XorByte(hash, buffer[i]) * PRIME) % TWO_32;
      i := i + 1;
    }
  }

  /** Hashing in chunks equals hashing the whole. */
  lemma {:induction false} HashConcat(a: seq<Byte>, b: seq<Byte>, hash: Word)
    ensures Hash(a + b, hash) == Hash(b, Hash(a, hash))
  {
    if b == [] {
      assert a + b == a;
    } else {
      assert (a + b)[..|a + b| - 1] == a + b[..|b| - 1];
      HashConcat(a, b[..|b| - 1], hash);
    }
  }

  // ----- Each step can be undone

  lemma DropMultiple(x: Word, k: int)
    ensures (x + TWO_32 * k) % TWO_32 == x
  {
  }

  /** 16777619 is odd, so multiplying by it can be undone modulo 2^32. */
  lemma InverseUndoesPrime(x: Word)
    ensures ((x * PRIME) % TWO_32 * PRIME_INVERSE) % TWO_32 == x
  {
    var carried := (x * PRIME) / TWO_32;
    var product := (x * PRIME) % TWO_32;
    var k := x * 3513497 - carried * PRIME_INVERSE;
    assert product * PRIME_INVERSE == x + TWO_32 * k by {
      assert product == x * PRIME - TWO_32 * carried;
    }
    DropMultiple(x, k);
  }

  function Unmix(hash: Word, b: Byte): Word {
    XorByte((hash * PRIME_INVERSE) % TWO_32, b)
  }

  lemma UnmixUndoesMix(hash: Word, b: Byte)
    ensures Unmix(Mix(hash, b), b) == hash
  {
    PowersOfTwo();
    InverseUndoesPrime(XorByte(hash, b));
    XorTwice(hash, b, 32);
  }

  lemma MixInjective(x: Word, y: Word, b: Byte)
    requires Mix(x, b) == Mix(y, b)
    ensures x == y
  {
    UnmixUndoesMix(x, b);
    UnmixUndoesMix(y, b);
  }

  lemma MixSeparatesBytes(x: Word, a: Byte, b: Byte)
    requires Mix(x, a) == Mix(x, b)
    ensures a == b
  {
    PowersOfTwo();
    InverseUndoesPrime(XorByte(x, a));
    InverseUndoesPrime(XorByte(x, b));
    XorCommutes(x, a, 32);
    XorCommutes(x, b, 32);
    XorTwice(a, x, 32);
    XorTwice(b, x, 32);
  }

  /** Different states stay different under the same bytes. */
  lemma {:induction false} HashInjectiveInSeed(buffer: seq<Byte>, x: Word, y: Word)
    requires Hash(buffer, x) == Hash(buffer, y)
    ensures x == y
  {
    if buffer != [] {
      var n := |buffer| - 1;
      MixInjective(Hash(buffer[..n], x), Hash(buffer[..n], y), buffer[n]);
      HashInjectiveInSeed(buffer[..n], x, y);
    }
  }

  /** Two buffers of the same length that differ in exactly one byte never hash alike from one seed. */
  lemma OneByteApartNeverCollide(a: seq<Byte>, b: seq<Byte>, i: nat, seed: Word)
    requires |a| == |b| && i < |a| && a[i] != b[i]
    requires forall j | 0 <= j < |a| && j != i :: a[j] == b[j]
    ensures Hash(a, seed) != Hash(b, seed)
  {
    var prefix, suffix := a[..i], a[i + 1..];
    assert a == prefix + [a[i]] + suffix && b == prefix + [b[i]] + suffix;
    HashConcat(prefix + [a[i]], suffix, seed);
    HashConcat(prefix + [b[i]], suffix, seed);
    HashConcat(prefix, [a[i]], seed);
    HashConcat(prefix, [b[i]], seed);
    var h := Hash(prefix, seed);
    assert Hash([a[i]], h) == Mix(h, a[i]) && Hash([b[i]], h) == Mix(h, b[i]);
    if Hash(a, seed) == Hash(b, seed) {
      HashInjectiveInSeed(suffix, Mix(h, a[i]), Mix(h, b[i]));
      MixSeparatesBytes(h, a[i], b[i]);
      assert false;
    }
  }

  lemma {:induction false} XorZero(a: nat, width: nat)
    requires a < Power2(width)
    ensures Xor(a, 0, width) == a
  {
    if width != 0 {
      XorZero(a / 2, width - 1);
    }
  }

  /** The published test vectors for the empty string and "a". */
  lemma TestVectors()
    ensures Hash([], FNV_1A_INIT) == 0x811C9DC5
    ensures Hash([0x61], FNV_1A_INIT) == 0xE40C292C
  {
    PowersOfTwo();
    assert Power2(25) == 33554432;
    XorZero(16922939, 25);
    assert Xor(33845879, 1, 26) == 33845878;
    assert Xor(67691758, 3, 27) == 67691757;
    assert Xor(135383516, 6, 28) == 135383514;
    assert Xor(270767032, 12, 29) == 270767028;
    assert Xor(541534065, 24, 30) == 541534057;
    assert Xor(1083068130, 48, 31) == 1083068114;
    assert Xor(2166136261, 97, 32) == 2166136228;
    assert Hash([0x61], FNV_1A_INIT) == Mix(FNV_1A_INIT, 0x61);
  }

  // ----- The exclusive or, bit for bit

  function Bit(a: nat, i: nat): nat {
    if i == 0 then a % 2 else Bit(a / 2, i - 1)
  }

  lemma SumBit(a: nat, b: nat)
    ensures (a + b) % 2 == (a % 2 + b % 2) % 2
  {
  }

  lemma XorHalf(a: nat, b: nat, width: nat)
    requires width > 0
    ensures Xor(a, b, width) / 2 == Xor(a / 2, b / 2, width - 1) && Xor(a, b, width) % 2 == (a + b) % 2
  {
  }

  lemma {:induction false} XorBit(a: nat, b: nat, width: nat, i: nat)
    requires i < width
    ensures Bit(Xor(a, b, width), i) == (Bit(a, i) + Bit(b, i)) % 2
    decreases i
  {
    XorHalf(a, b, width);
    if i == 0 {
      SumBit(a, b);
    } else {
      XorBit(a / 2, b / 2, width - 1, i - 1);
    }
  }

  lemma {:induction false} NoHighBits(a: nat, width: nat, i: nat)
    requires a < Power2(width) && i >= width
    ensures Bit(a, i) == 0
  {
    if width != 0 {
      NoHighBits(a / 2, width - 1, i - 1);
    } else if i > 0 {
      NoHighBits(0, 0, i - 1);
    }
  }

  lemma {:induction false} BitIsBinary(a: nat, i: nat)
    ensures Bit(a, i) == 0 || Bit(a, i) == 1
  {
    if i > 0 {
      BitIsBinary(a / 2, i - 1);
    }
  }

  lemma HighBitsOfByte(b: Byte, i: nat)
    requires i >= 8
    ensures Bit(b, i) == 0
  {
    assert Power2(8) == 256;
    NoHighBits(b, 8, i);
  }

  lemma FlippedBit(a: nat, b: nat, width: nat, i: nat)
    requires i < width
    ensures Bit(Xor(a, b, width), i) == if Bit(b, i) == 1 then 1 - Bit(a, i) else Bit(a, i)
  {
    XorBit(a, b, width, i);
    BitIsBinary(a, i);
    BitIsBinary(b, i);
  }

  /** A byte is taken without a sign: it flips exactly the low bits of the hash that are set in it. */
  lemma XorByteBits(hash: Word, b: Byte, i: nat)
    requires i < 32
    ensures Bit(XorByte(hash, b), i) == if i < 8 && Bit(b, i) == 1 then 1 - Bit(hash, i) else Bit(hash, i)
  {
    FlippedBit(hash, b, 32, i);
    if i >= 8 {
      HighBitsOfByte(b, i);
    }
  }
}
