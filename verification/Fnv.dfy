/** 32-bit FNV-1a, the checksum of packets, chunks and files. */
module Fnv {
  import opened Common

  const OFFSET: U32 := 2166136261
  const PRIME: nat := 16777619
  const PRIME_INVERSE: nat := 899433627

  /** Bitwise exclusive or of the low `bits` bits. */
  function Xor(a: nat, b: nat, bits: nat): nat {
    if bits == 0 then 0 else 2 * Xor(a / 2, b / 2, bits - 1) + (a + b) % 2
  }

  function Pow2(n: nat): (p: nat)
    ensures p > 0
  {
    if n == 0 then 1 else 2 * Pow2(n - 1)
  }

  lemma {:induction false} XorBound(a: nat, b: nat, bits: nat)
    ensures Xor(a, b, bits) < Pow2(bits)
  {
    if bits > 0 { XorBound(a / 2, b / 2, bits - 1); }
  }

  /** Exclusive or with the same operand undoes itself. */
  lemma {:induction false} XorUndo(a: nat, b: nat, bits: nat)
    requires a < Pow2(bits)
    ensures Xor(Xor(a, b, bits), b, bits) == a
  {
    if bits > 0 {
      XorUndo(a / 2, b / 2, bits - 1);
      var high, low := Xor(a / 2, b / 2, bits - 1), (a + b) % 2;
      var x := 2 * high + low;
      assert x / 2 == high && x % 2 == low;
      ParityUndo(a, b, x);
    }
  }

  lemma ParityUndo(a: nat, b: nat, x: nat)
    requires x % 2 == (a + b) % 2
    ensures (x + b) % 2 == a % 2
  {
    assert x + b == a + 2 * (b + (x / 2 - (a + b) / 2));
  }

  lemma {:induction false} XorCommutes(a: nat, b: nat, bits: nat)
    ensures Xor(a, b, bits) == Xor(b, a, bits)
  {
    if bits > 0 { XorCommutes(a / 2, b / 2, bits - 1); }
  }

  lemma Pow2Of8()
    ensures Pow2(8) == 256
  {
    assert Pow2(8) == 16 * Pow2(4) by { assert Pow2(6) == 2 * Pow2(5); }
  }

  /** `hash ^= byte`: only the low byte changes. */
  function Mix(hash: U32, b: Byte): (r: U32) {
    XorBound(hash % 256, b, 8);
    Pow2Of8();
    assert hash / 256 < 16777216;
    hash / 256 * 256 + Xor(hash % 256, b, 8)
  }

  /** `hash *= prime`, modulo 2^32. */
  function Times(hash: U32): (r: U32) { hash * PRIME % U32_SIZE }

  function Step(hash: U32, b: Byte): U32 { Times(Mix(hash, b)) }

  /** The running checksum after feeding `data` to `seed`. */
  function Update(data: Bytes, seed: U32): U32 {
    if data == [] then seed else Step(Update(data[..|data| - 1], seed), data[|data| - 1])
  }

  function Checksum(data: Bytes): U32 { Update(data, OFFSET) }

  /** The checksum loop. */
  method UpdateChecksum(data: Bytes, seed: U32) returns (hash: U32)
    ensures hash == Update(data, seed)
  {
    hash := seed;
    for i := 0 to |data|
      invariant hash == Update(data[..i], seed)
    {
      assert data[..i + 1][..i] == data[..i];
      hash := Times(Mix(hash, data[i]));
    }
    assert data[..|data|] == data;
  }

  /** Feeding two pieces in turn is feeding their concatenation. */
  lemma {:induction false} UpdateConcat(a: Bytes, b: Bytes, seed: U32)
    ensures Update(a + b, seed) == Update(b, Update(a, seed))
  {
    if b == [] {
      assert a + b == a;
    } else {
      UpdateConcat(a, b[..|b| - 1], seed);
      assert (a + b)[..|a + b| - 1] == a + b[..|b| - 1];
    }
  }

  // ----- Every step is injective -----

  lemma MixUndo(hash: U32, b: Byte)
    ensures Mix(Mix(hash, b), b) == hash
  {
    Pow2Of8();
    XorBound(hash % 256, b, 8);
    XorUndo(hash % 256, b, 8);
    var x := Mix(hash, b);
    assert x / 256 == hash / 256 && x % 256 == Xor(hash % 256, b, 8);
  }

  /** The multiplier is invertible modulo 2^32. */
  lemma TimesUndo(hash: U32)
    ensures Times(hash) * PRIME_INVERSE % U32_SIZE == hash
  {
    var q := hash * PRIME / U32_SIZE;
    assert Times(hash) == hash * PRIME - q * U32_SIZE;
    assert PRIME * PRIME_INVERSE == 1 + 3513497 * U32_SIZE;
    WordOf(Times(hash) * PRIME_INVERSE, hash, hash * 3513497 - q * PRIME_INVERSE);
  }

  lemma WordOf(v: int, r: U32, z: int)
    requires v == r + z * U32_SIZE
    ensures v % U32_SIZE == r
  {
  }

  lemma StepInjectiveInHash(x: U32, y: U32, b: Byte)
    requires Step(x, b) == Step(y, b)
    ensures x == y
  {
    TimesUndo(Mix(x, b));
    TimesUndo(Mix(y, b));
    MixUndo(x, b);
    MixUndo(y, b);
  }

  lemma XorInjective(h: Byte, a: Byte, b: Byte)
    requires Xor(h, a, 8) == Xor(h, b, 8)
    ensures a == b
  {
    Pow2Of8();
    XorCommutes(h, a, 8);
    XorCommutes(h, b, 8);
    XorUndo(a, h, 8);
    XorUndo(b, h, 8);
  }

  lemma StepInjectiveInByte(x: U32, a: Byte, b: Byte)
    requires Step(x, a) == Step(x, b)
    ensures a == b
  {
    TimesUndo(Mix(x, a));
    TimesUndo(Mix(x, b));
    XorInjective(x % 256, a, b);
  }

  lemma {:induction false} UpdateInjectiveInSeed(data: Bytes, x: U32, y: U32)
    requires x != y
    ensures Update(data, x) != Update(data, y)
  {
    if data != [] {
      var front, last := data[..|data| - 1], data[|data| - 1];
      UpdateInjectiveInSeed(front, x, y);
      if Step(Update(front, x), last) == Step(Update(front, y), last) {
        StepInjectiveInHash(Update(front, x), Update(front, y), last);
      }
    }
  }

  /** FNV-1a detects every single-byte substitution. */
  lemma SubstitutionDetected(data: Bytes, i: nat, b: Byte, seed: U32)
    requires i < |data| && data[i] != b
    ensures Update(data[i := b], seed) != Update(data, seed)
  {
    var front, back := data[..i], data[i + 1..];
    var s := Update(front, seed);
    assert data == (front + [data[i]]) + back && data[i := b] == (front + [b]) + back;
    UpdateConcat(front + [data[i]], back, seed);
    UpdateConcat(front + [b], back, seed);
    assert (front + [data[i]])[..i] == front && (front + [b])[..i] == front;
    if Step(s, data[i]) == Step(s, b) { StepInjectiveInByte(s, data[i], b); }
    UpdateInjectiveInSeed(back, Step(s, data[i]), Step(s, b));
  }

  // ----- The low sixteen bits are a checksum of their own -----

  lemma LowMix(x: U32, b: Byte)
    ensures Mix(x, b) % U16_SIZE == Mix(x % U16_SIZE, b)
  {
    Pow2Of8();
    var l, h, q := x % 256, x / 256 % 256, x / 256 / 256;
    XorBound(l, b, 8);
    assert x == q * 65536 + h * 256 + l;
    LowBytes(q, h, l);
    LowBytes(q, h, Xor(l, b, 8));
  }

  lemma LowBytes(q: nat, h: Byte, l: Byte)
    ensures (q * 65536 + h * 256 + l) % U16_SIZE == h * 256 + l && (q * 65536 + h * 256 + l) / 256 == q * 256 + h
    ensures (h * 256 + l) / 256 == h && (h * 256 + l) % 256 == l
  {
  }

  lemma LowTimesInjective(x: U32, y: U32)
    requires Times(x) % U16_SIZE == Times(y) % U16_SIZE
    ensures x % U16_SIZE == y % U16_SIZE
  {
    TimesUndo(x);
    TimesUndo(y);
    LowProduct(Times(x), x);
    LowProduct(Times(y), y);
  }

  lemma LowProduct(t: nat, x: U32)
    requires t * PRIME_INVERSE % U32_SIZE == x
    ensures (t % U16_SIZE) * PRIME_INVERSE % U16_SIZE == x % U16_SIZE
  {
    var a, r, q := t / U16_SIZE, t % U16_SIZE, t * PRIME_INVERSE / U32_SIZE;
    assert t == a * U16_SIZE + r;
    assert t * PRIME_INVERSE == a * PRIME_INVERSE * U16_SIZE + r * PRIME_INVERSE;
    assert t * PRIME_INVERSE == q * U32_SIZE + x;
    RemainderOf(r * PRIME_INVERSE, x % U16_SIZE, x / U16_SIZE + q * U16_SIZE - a * PRIME_INVERSE);
  }

  lemma RemainderOf(v: int, r: U16, z: int)
    requires v == r + z * U16_SIZE
    ensures v % U16_SIZE == r
  {
  }

  lemma LowStepInHash(x: U32, y: U32, b: Byte)
    requires Step(x, b) % U16_SIZE == Step(y, b) % U16_SIZE
    ensures x % U16_SIZE == y % U16_SIZE
  {
    LowTimesInjective(Mix(x, b), Mix(y, b));
    LowMix(x, b);
    LowMix(y, b);
    MixUndo(x % U16_SIZE, b);
    MixUndo(y % U16_SIZE, b);
  }

  lemma LowStepInByte(x: U32, a: Byte, b: Byte)
    requires Step(x, a) % U16_SIZE == Step(x, b) % U16_SIZE
    ensures a == b
  {
    LowTimesInjective(Mix(x, a), Mix(x, b));
    LowMix(x, a);
    LowMix(x, b);
    assert Step(x % U16_SIZE, a) == Step(x % U16_SIZE, b);
    StepInjectiveInByte(x % U16_SIZE, a, b);
  }

  lemma {:induction false} LowUpdateInSeed(data: Bytes, x: U32, y: U32)
    requires x % U16_SIZE != y % U16_SIZE
    ensures Update(data, x) % U16_SIZE != Update(data, y) % U16_SIZE
  {
    if data != [] {
      var front, last := data[..|data| - 1], data[|data| - 1];
      LowUpdateInSeed(front, x, y);
      if Step(Update(front, x), last) % U16_SIZE == Step(Update(front, y), last) % U16_SIZE {
        LowStepInHash(Update(front, x), Update(front, y), last);
      }
    }
  }

  /** Even truncated to sixteen bits FNV-1a detects every single-byte substitution. */
  lemma LowSubstitutionDetected(data: Bytes, i: nat, b: Byte, seed: U32)
    requires i < |data| && data[i] != b
    ensures Update(data[i := b], seed) % U16_SIZE != Update(data, seed) % U16_SIZE
  {
    var front, back := data[..i], data[i + 1..];
    var s := Update(front, seed);
    assert data == (front + [data[i]]) + back && data[i := b] == (front + [b]) + back;
    UpdateConcat(front + [data[i]], back, seed);
    UpdateConcat(front + [b], back, seed);
    assert (front + [data[i]])[..i] == front && (front + [b])[..i] == front;
    if Step(s, data[i]) % U16_SIZE == Step(s, b) % U16_SIZE { LowStepInByte(s, data[i], b); }
    LowUpdateInSeed(back, Step(s, data[i]), Step(s, b));
  }

  // ----- Known checksums -----

  lemma KnownXor()
    ensures Xor(197, 97, 8) == 164
  {
    assert Xor(6, 3, 3) == 5 && Xor(24, 12, 5) == 20;
  }

  lemma OneByte(b: Byte)
    ensures Checksum([]) == OFFSET && Checksum([b]) == Step(OFFSET, b)
  {
    assert [b][..0] == [];
    assert Update([b], OFFSET) == Step(Update([], OFFSET), b);
  }

  lemma MixOf(hash: U32, high: nat, low: nat, b: Byte, x: nat)
    requires hash == 256 * high + low && low < 256 && Xor(low, b, 8) == x
    ensures Mix(hash, b) == 256 * high + x
  {
    assert hash / 256 == high && hash % 256 == low;
  }

  lemma KnownProduct(hash: U32)
    requires hash == 2166136228
    ensures Times(hash) == 0xE40C292C
  {
    assert hash * PRIME == 8461672 * U32_SIZE + 0xE40C292C;
  }

  /** The published values for no input and for the letter a. */
  lemma KnownChecksums(a: Byte)
    requires a == 97
    ensures Checksum([]) == 0x811C9DC5 && Checksum([a]) == 0xE40C292C
  {
    OneByte(a);
    var hash: U32 := OFFSET;
    assert Mix(hash, a) == 2166136228 by {
      KnownXor();
      MixOf(hash, 8461469, 197, a, 164);
    }
    KnownProduct(Mix(hash, a));
  }
}
