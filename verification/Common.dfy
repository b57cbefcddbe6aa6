/** Shared value types. */
module Common {

  datatype Option<+T> = None | Some(value: T)

  /** An octet on the wire. */
  type Byte = x: int | 0 <= x < 256

  type Bytes = seq<Byte>

  const U16_SIZE: nat := 0x1_0000
  const U32_SIZE: nat := 0x1_0000_0000
  const U64_SIZE: nat := 0x1_0000_0000_0000_0000

  type U16 = x: int | 0 <= x < U16_SIZE
  type U32 = x: int | 0 <= x < U32_SIZE
  type U64 = x: int | 0 <= x < U64_SIZE

  /** Types of messages. */
  const ACKNOWLEDGEMENT: U16 := 1
  const FILE_TRANSFER: U16 := 19

  /** System messages travel on Control, user messages on Data. */
  datatype Channel = Control | Data

  /** The name of a packet alive in a program. */
  type PacketId = nat

  predicate Distinct(s: seq<nat>) {
    forall i, j | 0 <= i < j < |s| :: s[i] != s[j]
  }

  /** There is always an unused number, for a new address. */
  lemma {:induction false} Bound(used: set<nat>) returns (a: nat)
    ensures forall x | x in used :: x < a
  {
    if used == {} {
      a := 0;
    } else {
      var x :| x in used;
      var rest := Bound(used - {x});
      a := if x >= rest then x + 1 else rest;
      forall y | y in used ensures y < a { assert y == x || y in used - {x}; }
    }
  }

  /** A prefix is a shorter prefix and what follows it. */
  lemma SplitPrefix(d: Bytes, i: nat, j: nat)
    requires i <= j <= |d|
    ensures d[..j] == d[..i] + d[i..j]
  {
  }

  function Zeros(n: nat): (d: Bytes)
    ensures |d| == n
  {
    seq(n, _ => 0)
  }

  function Min(a: int, b: int): int { if a <= b then a else b }
}
