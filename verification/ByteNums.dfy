/** Bytes as the numbers from 0 to 255 that their bits spell. */
module ByteNums {
  type byte = bv8

  function Bit(one: bool): nat {
    if one then 1 else 0
  }

  /** The number that four bits spell, highest first. */
  function Nibble(b3: bool, b2: bool, b1: bool, b0: bool): (n: nat)
    ensures n < 16
  {
    8 * Bit(b3) + 4 * Bit(b2) + 2 * Bit(b1) + Bit(b0)
  }

  function Flag(one: bool, mask: byte): byte {
    if one then mask else 0
  }

  function Num(b: byte): (n: nat)
    ensures n < 256
  {
    16 * Nibble(b & 0x80 != 0, b & 0x40 != 0, b & 0x20 != 0, b & 0x10 != 0)
    + Nibble(b & 0x08 != 0, b & 0x04 != 0, b & 0x02 != 0, b & 0x01 != 0)
  }

  /** Bit `k` is the parity of `n` halved `k` times. */
  function ToByte(n: nat): byte
    requires n < 256
  {
    var n1 := n / 2;
    var n2 := n1 / 2;
    var n3 := n2 / 2;
    var n4 := n3 / 2;
    var n5 := n4 / 2;
    var n6 := n5 / 2;
    var n7 := n6 / 2;
    FromBits(n7 % 2 == 1, n6 % 2 == 1, n5 % 2 == 1, n4 % 2 == 1, n3 % 2 == 1, n2 % 2 == 1, n1 % 2 == 1, n % 2 == 1)
  }

  function FromBits(b7: bool, b6: bool, b5: bool, b4: bool, b3: bool, b2: bool, b1: bool, b0: bool): byte {
    Flag(b7, 0x80) | Flag(b6, 0x40) | Flag(b5, 0x20) | Flag(b4, 0x10)
    | Flag(b3, 0x08) | Flag(b2, 0x04) | Flag(b1, 0x02) | Flag(b0, 0x01)
  }

  lemma BitsBack(b7: bool, b6: bool, b5: bool, b4: bool, b3: bool, b2: bool, b1: bool, b0: bool)
    ensures var b := FromBits(b7, b6, b5, b4, b3, b2, b1, b0);
      && (b & 0x80 != 0) == b7 && (b & 0x40 != 0) == b6 && (b & 0x20 != 0) == b5 && (b & 0x10 != 0) == b4
      && (b & 0x08 != 0) == b3 && (b & 0x04 != 0) == b2 && (b & 0x02 != 0) == b1 && (b & 0x01 != 0) == b0
  {
  }

  lemma NumOfBits(b7: bool, b6: bool, b5: bool, b4: bool, b3: bool, b2: bool, b1: bool, b0: bool)
    ensures Num(FromBits(b7, b6, b5, b4, b3, b2, b1, b0)) == 16 * Nibble(b7, b6, b5, b4) + Nibble(b3, b2, b1, b0)
  {
    hide FromBits, Nibble;
    BitsBack(b7, b6, b5, b4, b3, b2, b1, b0);
  }

  lemma Halve(n: nat)
    ensures n == 2 * (n / 2) + Bit(n % 2 == 1)
  {
  }

  /** Halving four times peels four bits off. */
  lemma Peel(n: nat)
    ensures var n1 := n / 2;
      var n2 := n1 / 2;
      var n3 := n2 / 2;
      n == 16 * (n3 / 2) + Nibble(n3 % 2 == 1, n2 % 2 == 1, n1 % 2 == 1, n % 2 == 1)
  {
    hide Bit;
    Halve(n);
    Halve(n / 2);
    Halve(n / 2 / 2);
    Halve(n / 2 / 2 / 2);
  }

  lemma NumToByte(n: nat)
    requires n < 256
    ensures Num(ToByte(n)) == n
  {
    hide FromBits, Num, Nibble;
    var n1 := n / 2;
    var n2 := n1 / 2;
    var n3 := n2 / 2;
    var n4 := n3 / 2;
    var n5 := n4 / 2;
    var n6 := n5 / 2;
    var n7 := n6 / 2;
    NumOfBits(n7 % 2 == 1, n6 % 2 == 1, n5 % 2 == 1, n4 % 2 == 1, n3 % 2 == 1, n2 % 2 == 1, n1 % 2 == 1, n % 2 == 1);
    Peel(n);
    Peel(n4);
    NothingLeft(n);
  }

  lemma NothingLeft(n: nat)
    requires n < 256
    ensures n / 2 / 2 / 2 / 2 / 2 / 2 / 2 / 2 == 0
  {
    var n4 := n / 2 / 2 / 2 / 2;
    assert n4 < 16;
  }

  /** `Num` counts the byte values in their order. */
  lemma NumCounts(b: byte)
    ensures Num(0) == 0 && (b < 0xFF ==> Num(b + 1) == Num(b) + 1)
  {
  }

  lemma NumInjective(a: byte, b: byte)
    requires Num(a) == Num(b)
    ensures a == b
  {
    hide Nibble, FromBits;
    SameNibble(a & 0x80 != 0, a & 0x40 != 0, a & 0x20 != 0, a & 0x10 != 0,
               b & 0x80 != 0, b & 0x40 != 0, b & 0x20 != 0, b & 0x10 != 0);
    SameNibble(a & 0x08 != 0, a & 0x04 != 0, a & 0x02 != 0, a & 0x01 != 0,
               b & 0x08 != 0, b & 0x04 != 0, b & 0x02 != 0, b & 0x01 != 0);
    OwnBits(a);
    OwnBits(b);
  }

  lemma SameNibble(a3: bool, a2: bool, a1: bool, a0: bool, b3: bool, b2: bool, b1: bool, b0: bool)
    ensures Nibble(a3, a2, a1, a0) == Nibble(b3, b2, b1, b0) ==> a3 == b3 && a2 == b2 && a1 == b1 && a0 == b0
  {
  }

  lemma OwnBits(b: byte)
    ensures b == FromBits(b & 0x80 != 0, b & 0x40 != 0, b & 0x20 != 0, b & 0x10 != 0,
                          b & 0x08 != 0, b & 0x04 != 0, b & 0x02 != 0, b & 0x01 != 0)
  {
  }

  lemma TopBit(b: byte)
    ensures b >= 0x80 <==> Num(b) >= 128
  {
  }

  /** The first byte value that does not stand for a short length. */
  lemma Below7E(b: byte)
    ensures b < 0x7E <==> Num(b) < 126
  {
  }
}
