/** Unmasking a payload in place, four bytes at a time. */
module Unmasking {
  import opened Bytes
  import opened Frames

  /** Four bytes read as one 32-bit word, lowest byte first. */
  function Load(a: byte, b: byte, c: byte, d: byte): bv32 {
    a as bv32 | (b as bv32 << 8) | (c as bv32 << 16) | (d as bv32 << 24)
  }

  function XorWords(v: bv32, w: bv32): bv32 {
    v ^ w
  }

  function Byte0(w: bv32): byte {
    (w & 0xFF) as byte
  }

  function Byte1(w: bv32): byte {
    ((w >> 8) & 0xFF) as byte
  }

  function Byte2(w: bv32): byte {
    ((w >> 16) & 0xFF) as byte
  }

  function Byte3(w: bv32): byte {
    ((w >> 24) & 0xFF) as byte
  }

  // One 32-bit XOR is four bytewise ones.

  lemma WordXor0(a: byte, b: byte, c: byte, d: byte, m: byte, n: byte, o: byte, p: byte)
    ensures Byte0(XorWords(Load(a, b, c, d), Load(m, n, o, p))) == Xor(a, m)
  {
  }

  lemma WordXor1(a: byte, b: byte, c: byte, d: byte, m: byte, n: byte, o: byte, p: byte)
    ensures Byte1(XorWords(Load(a, b, c, d), Load(m, n, o, p))) == Xor(b, n)
  {
  }

  lemma WordXor2(a: byte, b: byte, c: byte, d: byte, m: byte, n: byte, o: byte, p: byte)
    ensures Byte2(XorWords(Load(a, b, c, d), Load(m, n, o, p))) == Xor(c, o)
  {
  }

  lemma WordXor3(a: byte, b: byte, c: byte, d: byte, m: byte, n: byte, o: byte, p: byte)
    ensures Byte3(XorWords(Load(a, b, c, d), Load(m, n, o, p))) == Xor(d, p)
  {
  }

  /** `cur` is `orig` with the `n` bytes at `p` XORed with the key. */
  ghost predicate XoredUpTo(orig: seq<byte>, cur: seq<byte>, p: nat, n: nat, mask: seq<byte>)
    requires |mask| == 4
  {
    && |cur| == |orig|
    && forall j :: 0 <= j < |orig| ==> cur[j] == if p <= j < p + n then Xor(orig[j], mask[(j - p) % 4]) else orig[j]
  }

  lemma XoredAll(orig: seq<byte>, cur: seq<byte>, p: nat, len: nat, mask: seq<byte>)
    requires |mask| == 4 && p + len <= |orig| && XoredUpTo(orig, cur, p, len, mask)
    ensures cur == orig[..p] + Masked(orig[p..p + len], mask) + orig[p + len..]
  {
    hide Xor;
  }

  lemma XoredWord(orig: seq<byte>, cur: seq<byte>, next: seq<byte>, p: nat, i: nat, mask: seq<byte>)
    requires |mask| == 4 && XoredUpTo(orig, cur, p, 4 * i, mask) && p + 4 * i + 4 <= |orig|
    requires var q := p + 4 * i;
      next == cur[q := Xor(cur[q], mask[0])][q + 1 := Xor(cur[q + 1], mask[1])]
                 [q + 2 := Xor(cur[q + 2], mask[2])][q + 3 := Xor(cur[q + 3], mask[3])]
    ensures XoredUpTo(orig, next, p, 4 * i + 4, mask)
  {
    hide Xor;
    var q := p + 4 * i;
    forall j | 0 <= j < |orig|
      ensures next[j] == if p <= j < p + (4 * i + 4) then Xor(orig[j], mask[(j - p) % 4]) else orig[j]
    {
      if q <= j < q + 4 {
        KeyPosition(i, j - q);
        assert j - p == 4 * i + (j - q) && cur[j] == orig[j];
      }
    }
  }

  lemma KeyPosition(i: nat, r: nat)
    requires r < 4
    ensures (4 * i + r) % 4 == r
  {
  }

  /** XORs the `len` bytes at `p` with the key, bytewise as section 5.3 of RFC 6455 has it, and nothing else. */
  method Unmask(buf: array<byte>, p: nat, len: nat, mask: seq<byte>)
    requires |mask| == 4 && p + len <= buf.Length
    modifies buf
    ensures buf[..] == old(buf[..p]) + Masked(old(buf[p..p + len]), mask) + old(buf[p + len..])
  {
    hide Load, XorWords, Byte0, Byte1, Byte2, Byte3, Masked, Xor;
    var m := Load(mask[0], mask[1], mask[2], mask[3]);
    for i := 0 to len / 4
      invariant XoredUpTo(old(buf[..]), buf[..], p, 4 * i, mask)
    {
      var q := p + 4 * i;
      var b0, b1, b2, b3 := buf[q], buf[q + 1], buf[q + 2], buf[q + 3];
      var w := XorWords(Load(b0, b1, b2, b3), m);
      WordXor0(b0, b1, b2, b3, mask[0], mask[1], mask[2], mask[3]);
      WordXor1(b0, b1, b2, b3, mask[0], mask[1], mask[2], mask[3]);
      WordXor2(b0, b1, b2, b3, mask[0], mask[1], mask[2], mask[3]);
      WordXor3(b0, b1, b2, b3, mask[0], mask[1], mask[2], mask[3]);
      ghost var cur := buf[..];
      buf[q], buf[q + 1], buf[q + 2], buf[q + 3] := Byte0(w), Byte1(w), Byte2(w), Byte3(w);
      assert buf[..] == cur[q := Byte0(w)][q + 1 := Byte1(w)][q + 2 := Byte2(w)][q + 3 := Byte3(w)];
      XoredWord(old(buf[..]), cur, buf[..], p, i, mask);
    }
    var offset := len / 4 * 4;
    for i := offset to offset + len % 4
      invariant XoredUpTo(old(buf[..]), buf[..], p, i, mask)
    {
      buf[p + i] := Xor(buf[p + i], mask[i % 4]);
    }
    XoredAll(old(buf[..]), buf[..], p, len, mask);
    ghost var orig := old(buf[..]);
    assert orig[..p] == old(buf[..p]) && orig[p..p + len] == old(buf[p..p + len])
        && orig[p + len..] == old(buf[p + len..]);
  }
}
