/** Fixed-width little-endian integers on the wire (znet/z_wire_le.h), for every width. */
module WireLe {
  import opened Common

  function Pow256(n: nat): (p: nat)
    ensures p > 0
  {
    if n == 0 then 1 else 256 * Pow256(n - 1)
  }

  lemma Widths()
    ensures Pow256(2) == U16_SIZE && Pow256(4) == U32_SIZE && Pow256(8) == U64_SIZE
  {
    assert Pow256(2) == 256 * Pow256(1) && Pow256(1) == 256;
    assert Pow256(4) == 256 * Pow256(3) && Pow256(3) == 256 * Pow256(2);
    assert Pow256(8) == 256 * Pow256(7) && Pow256(7) == 256 * Pow256(6) && Pow256(6) == 256 * Pow256(5)
           && Pow256(5) == 256 * Pow256(4);
  }

  /** The low `n` bytes of `v`, least significant first. */
  function Store(v: nat, n: nat): (b: Bytes)
    ensures |b| == n
  {
    if n == 0 then [] else [v % 256] + Store(v / 256, n - 1)
  }

  function Load(b: Bytes): nat {
    if b == [] then 0 else b[0] + 256 * Load(b[1..])
  }

  lemma {:induction false} LoadStore(v: nat, n: nat)
    requires v < Pow256(n)
    ensures Load(Store(v, n)) == v
  {
    if n > 0 {
      LoadStore(v / 256, n - 1);
      assert Store(v, n)[1..] == Store(v / 256, n - 1);
    }
  }

  lemma {:induction false} StoreLoad(b: Bytes)
    ensures Load(b) < Pow256(|b|) && Store(Load(b), |b|) == b
  {
    if b != [] {
      StoreLoad(b[1..]);
      assert Load(b) % 256 == b[0] && Load(b) / 256 == Load(b[1..]);
    }
  }

  // ----- Host byte order -----

  datatype Host = LittleEndian | BigEndian

  function Reversed(b: Bytes): (r: Bytes)
    ensures |r| == |b|
  {
    seq(|b|, i requires 0 <= i < |b| => b[|b| - 1 - i])
  }

  /** The bytes memcpy reads from an `n`-byte integer. */
  function InMemory(host: Host, v: nat, n: nat): Bytes {
    if host.LittleEndian? then Store(v, n) else Reversed(Store(v, n))
  }

  function FromMemory(host: Host, b: Bytes): nat {
    if host.LittleEndian? then Load(b) else Load(Reversed(b))
  }

  /** Byte `i` of `v`. */
  function Digit(v: nat, i: nat): Byte { if i == 0 then v % 256 else Digit(v / 256, i - 1) }

  /** Byte `i` of `v` in its place, the other bits masked off. */
  function Mask(v: nat, i: nat): nat { Left(Digit(v, i), i) }

  /** Shifts by whole bytes. */
  function Left(x: nat, n: nat): nat { x * Pow256(n) }
  function Right(x: nat, n: nat): nat {
    NotNegative(x, Pow256(n));
    x / Pow256(n)
  }

  lemma NotNegative(x: nat, d: nat)
    requires d > 0
    ensures x / d >= 0
  {
    var q := x / d;
    assert x == q * d + x % d;
    assert q < 0 ==> q * d + d <= 0;
  }

  /** The parts below have no bit in common, so joining them is adding them. */
  function ByteSwap16(v: U16): nat { Left(v, 1) % U16_SIZE + Right(v, 1) }

  function ByteSwap32(v: U32): nat {
    Left(Mask(v, 0), 3) + Left(Mask(v, 1), 1) + Right(Mask(v, 2), 1) + Right(Mask(v, 3), 3)
  }

  function ByteSwap64(v: U64): nat {
    Left(Mask(v, 0), 7) + Left(Mask(v, 1), 5) + Left(Mask(v, 2), 3) + Left(Mask(v, 3), 1)
    + Right(Mask(v, 4), 1) + Right(Mask(v, 5), 3) + Right(Mask(v, 6), 5) + Right(Mask(v, 7), 7)
  }

  lemma LeftNext(x: nat, n: nat)
    ensures Left(x, n + 1) == 256 * Left(x, n)
  {
    var p := Pow256(n);
    assert Pow256(n + 1) == 256 * p;
    Times256(x, p);
  }

  lemma Times256(x: nat, p: nat)
    ensures x * (256 * p) == 256 * (x * p)
  {
  }

  /** A byte shifted from place `i` to place `j`. */
  lemma {:induction false} MovedLeft(x: nat, i: nat, j: nat)
    requires i <= j
    ensures Left(Left(x, i), j - i) == Left(x, j)
    decreases j
  {
    if i < j {
      MovedLeft(x, i, j - 1);
      LeftNext(Left(x, i), j - 1 - i);
      LeftNext(x, j - 1);
    }
  }

  lemma MovedRight(x: nat, i: nat, j: nat)
    requires j <= i
    ensures Right(Left(x, i), i - j) == Left(x, j)
  {
    MovedLeft(x, j, i);
    ShiftBack(Left(x, j), i - j);
  }

  lemma ShiftBack(z: nat, n: nat)
    ensures Right(Left(z, n), n) == z
  {
    Cancel(z, Pow256(n));
  }

  lemma Cancel(x: nat, y: nat)
    requires y > 0
    ensures x * y / y == x
  {
    var q := x * y / y;
    assert x * y == q * y + x * y % y;
    assert q < x ==> (q + 1) * y <= x * y;
    assert q > x ==> (x + 1) * y <= q * y;
  }

  /** Byte `i` as stored. */
  lemma {:induction false} ByteAt(v: nat, n: nat, i: nat)
    requires i < n
    ensures Store(v, n)[i] == Digit(v, i)
  {
    if i > 0 { ByteAt(v / 256, n - 1, i - 1); }
  }

  /** The bytes from `i` on, last first, as a number: byte `i` is worth 256 to the power `n - 1 - i`. */
  function Backwards(v: nat, n: nat, i: nat): nat
    requires i <= n
    decreases n - i
  {
    if i == n then 0 else Left(Digit(v, i), n - 1 - i) + Backwards(v, n, i + 1)
  }

  lemma {:induction false} LoadBackwards(v: nat, n: nat, i: nat)
    requires i <= n
    ensures Load(Reversed(Store(v, n)[i..])) == Backwards(v, n, i)
    decreases n - i
  {
    if i < n {
      var b := Store(v, n);
      LoadBackwards(v, n, i + 1);
      assert Reversed(b[i..]) == Reversed(b[i + 1..]) + [b[i]];
      LoadAppend(Reversed(b[i + 1..]), b[i]);
      ByteAt(v, n, i);
    }
  }

  lemma {:induction false} LoadAppend(b: Bytes, x: Byte)
    ensures Load(b + [x]) == Load(b) + Left(x, |b|)
  {
    if b != [] {
      var c := b + [x];
      assert c[0] == b[0] && c[1..] == b[1..] + [x];
      LoadAppend(b[1..], x);
      LeftNext(x, |b| - 1);
    }
  }

  predicate SwapWidth(n: nat) { n == 2 || n == 4 || n == 8 }

  function ByteSwap(v: nat, n: nat): nat
    requires SwapWidth(n) && v < Pow256(n)
  {
    Widths();
    if n == 2 then ByteSwap16(v) else if n == 4 then ByteSwap32(v) else ByteSwap64(v)
  }

  lemma Swap16(v: U16)
    ensures ByteSwap16(v) == Backwards(v, 2, 0)
  {
    assert Pow256(1) == 256 && Pow256(0) == 1;
    assert Digit(v, 1) == v / 256 % 256 == v / 256;
    assert Backwards(v, 2, 2) == 0 && Backwards(v, 2, 1) == Digit(v, 1);
    assert v * 256 == v / 256 * U16_SIZE + v % 256 * 256;
  }

  lemma Swap32(v: U32)
    ensures ByteSwap32(v) == Backwards(v, 4, 0)
  {
    MovedLeft(Digit(v, 0), 0, 3);
    MovedLeft(Digit(v, 1), 1, 2);
    MovedRight(Digit(v, 2), 2, 1);
    MovedRight(Digit(v, 3), 3, 0);
    FourBackwards(v, 4, 0);
    assert Backwards(v, 4, 4) == 0;
  }

  lemma FourBackwards(v: nat, n: nat, i: nat)
    requires i + 4 <= n
    ensures Backwards(v, n, i)
              == Left(Digit(v, i), n - 1 - i) + Left(Digit(v, i + 1), n - 2 - i)
                 + Left(Digit(v, i + 2), n - 3 - i) + Left(Digit(v, i + 3), n - 4 - i) + Backwards(v, n, i + 4)
  {
    assert Backwards(v, n, i + 1) == Left(Digit(v, i + 1), n - 2 - i) + Backwards(v, n, i + 2);
    assert Backwards(v, n, i + 3) == Left(Digit(v, i + 3), n - 4 - i) + Backwards(v, n, i + 4);
  }

  lemma Swap64(v: U64)
    ensures ByteSwap64(v) == Backwards(v, 8, 0)
  {
    MovedLeft(Digit(v, 0), 0, 7);
    MovedLeft(Digit(v, 1), 1, 6);
    MovedLeft(Digit(v, 2), 2, 5);
    MovedLeft(Digit(v, 3), 3, 4);
    MovedRight(Digit(v, 4), 4, 3);
    MovedRight(Digit(v, 5), 5, 2);
    MovedRight(Digit(v, 6), 6, 1);
    MovedRight(Digit(v, 7), 7, 0);
    FourBackwards(v, 8, 0);
    FourBackwards(v, 8, 4);
    assert Backwards(v, 8, 8) == 0;
  }

  /** The shifts and masks reverse the bytes. */
  lemma SwapReverses(v: nat, n: nat)
    requires SwapWidth(n) && v < Pow256(n)
    ensures Store(ByteSwap(v, n), n) == Reversed(Store(v, n)) && ByteSwap(v, n) < Pow256(n)
  {
    Widths();
    var b := Store(v, n);
    LoadBackwards(v, n, 0);
    assert b[0..] == b;
    StoreLoad(Reversed(b));
    if n == 2 { Swap16(v); } else if n == 4 { Swap32(v); } else { Swap64(v); }
  }

  function HostToLe(host: Host, v: nat, n: nat): nat
    requires SwapWidth(n) && v < Pow256(n)
  {
    if host.LittleEndian? then v else ByteSwap(v, n)
  }

  /** StoreU16/32/64 and LoadU16/32/64 put and get the same bytes on every host. */
  lemma HostIndependent(host: Host, v: nat, n: nat)
    requires SwapWidth(n) && v < Pow256(n)
    ensures InMemory(host, HostToLe(host, v, n), n) == Store(v, n)
    ensures FromMemory(host, Store(v, n)) < Pow256(n) && HostToLe(host, FromMemory(host, Store(v, n)), n) == v
  {
    LoadStore(v, n);
    if host.BigEndian? {
      var b := Store(v, n);
      assert Reversed(Reversed(b)) == b;
      SwapReverses(v, n);
      StoreLoad(Reversed(b));
      var r := Load(Reversed(b));
      SwapReverses(r, n);
      LoadStore(ByteSwap(r, n), n);
    }
  }

  // ----- Reading through a cursor -----

  /** ReadU16/32/64: the value at the cursor and the cursor after it, or failure at the end. */
  function Read(data: Bytes, cursor: nat, n: nat): (r: Option<(nat, nat)>)
    ensures r.Some? <==> cursor + n <= |data|
    ensures r.Some? ==> r.value.1 == cursor + n && Store(r.value.0, n) == data[cursor..cursor + n]
                        && r.value.0 < Pow256(n)
  {
    if cursor + n > |data| then None
    else
      StoreLoad(data[cursor..cursor + n]);
      Some((Load(data[cursor..cursor + n]), cursor + n))
  }
}
