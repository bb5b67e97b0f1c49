/**
 Bytes and the fixed-width numbers made of them.
 */
module Bytes {

  type Byte = b: nat | b < 256

  const LIMIT32: nat := 0x1_0000_0000

  /** A little-endian 4-byte number. */
  function Le32(n: nat): (r: seq<Byte>)
    requires n < LIMIT32
    ensures |r| == 4
  {
    [n % 256, n / 256 % 256, n / 65536 % 256, n / 16777216]
  }

  function Read32(b: seq<Byte>): (n: nat)
    requires |b| == 4
    ensures n < LIMIT32
  {
    var b0: nat, b1: nat, b2: nat, b3: nat := b[0], b[1], b[2], b[3];
    b0 + 256 * b1 + 65536 * b2 + 16777216 * b3
  }

  lemma Le32RoundTrip(n: nat)
    requires n < LIMIT32
    ensures Read32(Le32(n)) == n
  {
    var q := n / 256;
    var p := q / 256;
    assert n == 256 * q + n % 256 && q == 256 * p + q % 256 && p == 256 * (p / 256) + p % 256;
    assert n / 65536 == p && n / 16777216 == p / 256;
  }

  function Le16(n: nat): (r: seq<Byte>)
    requires n < 65536
    ensures |r| == 2
  {
    [n % 256, n / 256]
  }

  function Read16(b: seq<Byte>): (n: nat)
    requires |b| == 2
    ensures n < 65536
  {
    var b0: nat, b1: nat := b[0], b[1];
    b0 + 256 * b1
  }

  /** The same in network order. */
  function Be32(n: nat): (r: seq<Byte>)
    requires n < LIMIT32
    ensures |r| == 4
  {
    var l := Le32(n);
    [l[3], l[2], l[1], l[0]]
  }

  function ReadBe32(b: seq<Byte>): (n: nat)
    requires |b| == 4
    ensures n < LIMIT32
  {
    Read32([b[3], b[2], b[1], b[0]])
  }

  lemma Be32RoundTrip(n: nat)
    requires n < LIMIT32
    ensures ReadBe32(Be32(n)) == n
  {
    Le32RoundTrip(n);
    var b := Be32(n);
    assert [b[3], b[2], b[1], b[0]] == Le32(n);
  }

  function Be16(n: nat): (r: seq<Byte>)
    requires n < 65536
    ensures |r| == 2
  {
    [n / 256, n % 256]
  }

  function ReadBe16(b: seq<Byte>): (n: nat)
    requires |b| == 2
    ensures n < 65536
  {
    Read16([b[1], b[0]])
  }

  lemma Be16RoundTrip(n: nat)
    requires n < 65536
    ensures ReadBe16(Be16(n)) == n
  {
  }
}
