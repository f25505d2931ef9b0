/**
 * CRC-16/MODBUS, as section 6.2.2 of the MODBUS over Serial Line Specification and
 * Implementation Guide V1.02 defines it: the register starts at 0xFFFF, each byte is
 * XORed into its low half, and eight right shifts follow, each XORing in the reflected
 * polynomial 0xA001 when the bit shifted out is 1.  The driver takes this checksum from
 * the `crc16` crate (`State::<MODBUS>::calculate`); that crate is not part of this model,
 * so the checksum is defined here from the standard.
 */
module Crc {

  const Seed: bv16 := 0xFFFF
  const Polynomial: bv16 := 0xA001

  /** One shift of the register. */
  function ShiftBit(c: bv16): bv16 {
    if c & 1 == 1 then (c >> 1) ^ Polynomial else c >> 1
  }

  /** `k` shifts of the register. */
  function ShiftBits(c: bv16, k: nat): bv16
    decreases k
  {
    if k == 0 then c else ShiftBits(ShiftBit(c), k - 1)
  }

  /** The register after one data byte. */
  function Update(c: bv16, b: bv8): bv16 {
    ShiftBits(c ^ (b as bv16), 8)
  }

  /** The register after `data`, starting from `c`. */
  function CrcFrom(c: bv16, data: seq<bv8>): bv16
    decreases |data|
  {
    if data == [] then c else CrcFrom(Update(c, data[0]), data[1..])
  }

  /** CRC-16/MODBUS of `data`. */
  function Crc16(data: seq<bv8>): bv16 {
    CrcFrom(Seed, data)
  }

  /** Feeding a sequence in two parts is feeding it whole. */
  lemma {:induction false} CrcFromConcat(c: bv16, a: seq<bv8>, b: seq<bv8>)
    ensures CrcFrom(c, a + b) == CrcFrom(CrcFrom(c, a), b)
    decreases |a|
  {
    if a == [] {
      assert a + b == b;
    } else {
      assert (a + b)[1..] == a[1..] + b;
      CrcFromConcat(Update(c, a[0]), a[1..], b);
    }
  }

  /** The catalogued check value of CRC-16/MODBUS: 0x4B37 for the ASCII string "123456789". */
  lemma CheckValue()
    ensures Crc16([0x31, 0x32, 0x33, 0x34, 0x35, 0x36, 0x37, 0x38, 0x39]) == 0x4B37
  {
    var s: seq<bv8> := [0x31, 0x32, 0x33, 0x34, 0x35, 0x36, 0x37, 0x38, 0x39];
    assert Update(0xFFFF, 0x31) == 0x947E;
    assert Update(0x947E, 0x32) == 0xF595;
    assert Update(0xF595, 0x33) == 0x7A75;
    assert Update(0x7A75, 0x34) == 0x30BA;
    assert Update(0x30BA, 0x35) == 0xA471;
    assert Update(0xA471, 0x36) == 0x32E4;
    assert Update(0x32E4, 0x37) == 0x9D73;
    assert Update(0x9D73, 0x38) == 0x37DD;
    assert Update(0x37DD, 0x39) == 0x4B37;
    assert CrcFrom(0x4B37, s[9..]) == 0x4B37;
    assert CrcFrom(0x37DD, s[8..]) == 0x4B37;
    assert CrcFrom(0x9D73, s[7..]) == 0x4B37;
    assert CrcFrom(0x32E4, s[6..]) == 0x4B37;
    assert CrcFrom(0xA471, s[5..]) == 0x4B37;
    assert CrcFrom(0x30BA, s[4..]) == 0x4B37;
    assert CrcFrom(0x7A75, s[3..]) == 0x4B37;
    assert CrcFrom(0xF595, s[2..]) == 0x4B37;
    assert CrcFrom(0x947E, s[1..]) == 0x4B37;
  }

  /** A shift loses no information: the bit shifted out is the new top bit. */
  lemma ShiftBitInjective(a: bv16, b: bv16)
    requires ShiftBit(a) == ShiftBit(b)
    ensures a == b
  {
  }

  lemma {:induction false} ShiftBitsInjective(a: bv16, b: bv16, k: nat)
    requires ShiftBits(a, k) == ShiftBits(b, k)
    ensures a == b
    decreases k
  {
    if k > 0 {
      ShiftBitsInjective(ShiftBit(a), ShiftBit(b), k - 1);
      ShiftBitInjective(a, b);
    }
  }

  /** For a fixed data byte, different registers give different updated registers. */
  lemma UpdateInjective(a: bv16, b: bv16, x: bv8)
    requires a != b
    ensures Update(a, x) != Update(b, x)
  {
    if Update(a, x) == Update(b, x) {
      ShiftBitsInjective(a ^ (x as bv16), b ^ (x as bv16), 8);
      assert false;
    }
  }

  /** For a fixed register, different data bytes give different updated registers. */
  lemma UpdateSeparatesBytes(c: bv16, x: bv8, y: bv8)
    requires x != y
    ensures Update(c, x) != Update(c, y)
  {
    if Update(c, x) == Update(c, y) {
      ShiftBitsInjective(c ^ (x as bv16), c ^ (y as bv16), 8);
      assert false;
    }
  }

  /** Two registers that differ stay different after any common data. */
  lemma {:induction false} CrcFromInjective(a: bv16, b: bv16, data: seq<bv8>)
    requires a != b
    ensures CrcFrom(a, data) != CrcFrom(b, data)
    decreases |data|
  {
    if data != [] {
      UpdateInjective(a, b, data[0]);
      CrcFromInjective(Update(a, data[0]), Update(b, data[0]), data[1..]);
    }
  }

  /**
   * Error detection: two messages of the same length that differ in exactly one byte
   * (in particular, in exactly one bit) have different checksums.
   */
  lemma DetectsByteError(s: seq<bv8>, t: seq<bv8>, k: nat)
    requires |s| == |t| && k < |s|
    requires s[k] != t[k]
    requires s[..k] == t[..k] && s[k + 1..] == t[k + 1..]
    ensures Crc16(s) != Crc16(t)
  {
    var pre, post := s[..k], s[k + 1..];
    assert s == pre + ([s[k]] + post);
    assert t == pre + ([t[k]] + post);
    var c := CrcFrom(Seed, pre);
    CrcFromConcat(Seed, pre, [s[k]] + post);
    CrcFromConcat(Seed, pre, [t[k]] + post);
    assert CrcFrom(c, [s[k]] + post) == CrcFrom(Update(c, s[k]), post) by {
      assert ([s[k]] + post)[1..] == post;
    }
    assert CrcFrom(c, [t[k]] + post) == CrcFrom(Update(c, t[k]), post) by {
      assert ([t[k]] + post)[1..] == post;
    }
    UpdateSeparatesBytes(c, s[k], t[k]);
    CrcFromInjective(Update(c, s[k]), Update(c, t[k]), post);
  }
}
