/**
 * The raw register decoding of `result_convert` (src/lib.rs:108-128).  The 25-byte
 * response to "read input registers" carries ten 16-bit registers from byte 3 on, each
 * big-endian; the 32-bit quantities (current, power, energy) take two registers with
 * the LOW word first.  The source divides the integers by fixed divisors into `f32`
 * fields; floating point is not part of this model, so the fields here hold the
 * `u16` and `u32` registers and the divisors are kept as constants.
 */
module Registers {
  import opened Frame

  /** Divisors that turn the registers into volts, amperes, watts, kWh, hertz and a power factor. */
  const VoltageDivisor: nat := 10
  const CurrentDivisor: nat := 1000
  const PowerDivisor: nat := 10      // the source marks this one as possibly wrong; kept as written
  const EnergyDivisor: nat := 1000
  const FrequencyDivisor: nat := 10
  const PowerFactorDivisor: nat := 100

  /** Length of the response to a measurement read. */
  const ResponseLength: nat := 25

  /** A 16-bit register sent high byte first: `(hi as u16) << 8 | lo as u16`. */
  function U16(hi: bv8, lo: bv8): (r: bv16)
    ensures Hi(r) == hi && Lo(r) == lo
  {
    (hi as bv16 << 8) | (lo as bv16)
  }

  /** Splitting a register into its bytes and joining them again gives it back. */
  lemma U16OfBytes(x: bv16)
    ensures U16(Hi(x), Lo(x)) == x
  {
  }

  /**
   * A 32-bit value in two registers, low word first: bytes `w0 w1 w2 w3` give
   * `(w0 << 8) | w1 | (w2 << 24) | (w3 << 16)`.
   */
  function U32LowWordFirst(w0: bv8, w1: bv8, w2: bv8, w3: bv8): (r: bv32)
    ensures LowWord(r) == U16(w0, w1) && HighWord(r) == U16(w2, w3)
  {
    (w0 as bv32 << 8) | (w1 as bv32) | (w2 as bv32 << 24) | (w3 as bv32 << 16)
  }

  /** The low 16 bits of a 32-bit value. */
  function LowWord(x: bv32): bv16 {
    (x & 0xFFFF) as bv16
  }

  /** The high 16 bits of a 32-bit value. */
  function HighWord(x: bv32): bv16 {
    ((x >> 16) & 0xFFFF) as bv16
  }

  /** A 32-bit value is determined by its two words. */
  lemma WordsDetermine(x: bv32, y: bv32)
    requires LowWord(x) == LowWord(y) && HighWord(x) == HighWord(y)
    ensures x == y
  {
  }

  /** The measurement registers, before scaling. */
  datatype RawMeasurement = RawMeasurement(voltage: bv16, current: bv32, power: bv32, energy: bv32,
                                           frequency: bv16, pf: bv16, alarm: bool)

  /** The registers of a measurement response, at the offsets `result_convert` reads. */
  function Decode(buf: seq<bv8>): (m: RawMeasurement)
    requires |buf| == ResponseLength
    ensures m.alarm <==> buf[21] != 0 || buf[22] != 0
  {
    var alarm := U16(buf[21], buf[22]);
    assert alarm == 0 <==> buf[21] == 0 && buf[22] == 0 by {
      U16OfBytes(0);
    }
    RawMeasurement(
      U16(buf[3], buf[4]),
      U32LowWordFirst(buf[5], buf[6], buf[7], buf[8]),
      U32LowWordFirst(buf[9], buf[10], buf[11], buf[12]),
      U32LowWordFirst(buf[13], buf[14], buf[15], buf[16]),
      U16(buf[17], buf[18]),
      U16(buf[19], buf[20]),
      alarm != 0)
  }

  /** The two bytes of a 16-bit register, high byte first. */
  function RegisterBytes(v: bv16): (b: seq<bv8>)
    ensures |b| == 2 && U16(b[0], b[1]) == v
  {
    U16OfBytes(v);
    [Hi(v), Lo(v)]
  }

  /** The four bytes of a 32-bit value, low word first. */
  function WordSwappedBytes(v: bv32): (b: seq<bv8>)
    ensures |b| == 4
  {
    RegisterBytes(LowWord(v)) + RegisterBytes(HighWord(v))
  }

  /** Reading back the four bytes of a 32-bit value gives the value. */
  lemma WordSwappedRoundTrip(v: bv32)
    ensures var b := WordSwappedBytes(v); U32LowWordFirst(b[0], b[1], b[2], b[3]) == v
  {
    var b := WordSwappedBytes(v);
    WordsDetermine(U32LowWordFirst(b[0], b[1], b[2], b[3]), v);
  }

  /**
   * The 20 register bytes of a measurement, laid out as the sensor sends them (the alarm
   * register reads 0xFFFF when the alarm is on).
   */
  function RegisterBlock(m: RawMeasurement): (b: seq<bv8>)
    ensures |b| == 20
  {
    RegisterBytes(m.voltage) + WordSwappedBytes(m.current) + WordSwappedBytes(m.power) +
    WordSwappedBytes(m.energy) + RegisterBytes(m.frequency) + RegisterBytes(m.pf) + AlarmBytes(m.alarm)
  }

  /** The alarm register as the sensor sends it: 0xFFFF when on, 0 when off. */
  function AlarmBytes(on: bool): seq<bv8> {
    if on then [0xFF, 0xFF] else [0, 0]
  }

  /**
   * Decoding undoes the sensor's layout: in any response that carries the register block
   * of `m` at byte 3, the registers read back are the ones that were laid out.
   */
  lemma DecodeRegisterBlock(m: RawMeasurement, buf: seq<bv8>)
    requires |buf| == ResponseLength && buf[3..23] == RegisterBlock(m)
    ensures Decode(buf) == m
  {
    SliceParts(buf);
    var v, c, p, e := RegisterBytes(m.voltage), WordSwappedBytes(m.current),
                      WordSwappedBytes(m.power), WordSwappedBytes(m.energy);
    var f, q, a := RegisterBytes(m.frequency), RegisterBytes(m.pf), AlarmBytes(m.alarm);
    var v', c', p', e' := [buf[3], buf[4]], [buf[5], buf[6], buf[7], buf[8]],
                          [buf[9], buf[10], buf[11], buf[12]], [buf[13], buf[14], buf[15], buf[16]];
    var f', q', a' := [buf[17], buf[18]], [buf[19], buf[20]], [buf[21], buf[22]];
    SplitRight(v' + c' + p' + e' + f' + q', a', v + c + p + e + f + q, a);
    SplitRight(v' + c' + p' + e' + f', q', v + c + p + e + f, q);
    SplitRight(v' + c' + p' + e', f', v + c + p + e, f);
    SplitRight(v' + c' + p', e', v + c + p, e);
    SplitRight(v' + c', p', v + c, p);
    SplitRight(v', c', v, c);
    WordSwappedRoundTrip(m.current);
    WordSwappedRoundTrip(m.power);
    WordSwappedRoundTrip(m.energy);
  }

  /** A concatenation splits back into its parts when the right-hand parts have equal lengths. */
  lemma SplitRight(x: seq<bv8>, y: seq<bv8>, x': seq<bv8>, y': seq<bv8>)
    requires x + y == x' + y' && |y| == |y'|
    ensures x == x' && y == y'
  {
    assert x == (x + y)[..|x|] && x' == (x' + y')[..|x'|];
    assert y == (x + y)[|x|..] && y' == (x' + y')[|x'|..];
  }

  /** Conversely, every response's register bytes are the layout of what it decodes to. */
  lemma RegisterBlockOfDecode(buf: seq<bv8>)
    requires |buf| == ResponseLength && (buf[21] == buf[22] == 0 || buf[21] == buf[22] == 0xFF)
    ensures RegisterBlock(Decode(buf)) == buf[3..23]
  {
    DecodedParts(buf);
    SliceParts(buf);
  }

  /** The register block as the concatenation of its fields' bytes, as read from `buf`. */
  function Fields(buf: seq<bv8>): seq<bv8>
    requires |buf| == ResponseLength
  {
    [buf[3], buf[4]] + [buf[5], buf[6], buf[7], buf[8]] + [buf[9], buf[10], buf[11], buf[12]] +
    [buf[13], buf[14], buf[15], buf[16]] + [buf[17], buf[18]] + [buf[19], buf[20]] + [buf[21], buf[22]]
  }

  lemma DecodedParts(buf: seq<bv8>)
    requires |buf| == ResponseLength && (buf[21] == buf[22] == 0 || buf[21] == buf[22] == 0xFF)
    ensures RegisterBlock(Decode(buf)) == Fields(buf)
  {
    var m := Decode(buf);
    U16Bytes(buf[3], buf[4]);
    WordBytes(buf[5], buf[6], buf[7], buf[8]);
    WordBytes(buf[9], buf[10], buf[11], buf[12]);
    WordBytes(buf[13], buf[14], buf[15], buf[16]);
    U16Bytes(buf[17], buf[18]);
    U16Bytes(buf[19], buf[20]);
    assert AlarmBytes(m.alarm) == [buf[21], buf[22]];
  }

  lemma SliceParts(buf: seq<bv8>)
    requires |buf| == ResponseLength
    ensures buf[3..23] == Fields(buf)
  {
    assert buf[3..5] == [buf[3], buf[4]];
    assert buf[5..9] == [buf[5], buf[6], buf[7], buf[8]];
    assert buf[9..13] == [buf[9], buf[10], buf[11], buf[12]];
    assert buf[13..17] == [buf[13], buf[14], buf[15], buf[16]];
    assert buf[17..19] == [buf[17], buf[18]];
    assert buf[19..21] == [buf[19], buf[20]];
    assert buf[21..23] == [buf[21], buf[22]];
    Split(buf, 3, 21, 23);
    Split(buf, 3, 19, 21);
    Split(buf, 3, 17, 19);
    Split(buf, 3, 13, 17);
    Split(buf, 3, 9, 13);
    Split(buf, 3, 5, 9);
  }

  lemma Split(s: seq<bv8>, i: nat, j: nat, k: nat)
    requires i <= j <= k <= |s|
    ensures s[i..k] == s[i..j] + s[j..k]
  {
  }

  /** A 32-bit value's bytes are recovered from its value. */
  lemma WordBytes(w0: bv8, w1: bv8, w2: bv8, w3: bv8)
    ensures WordSwappedBytes(U32LowWordFirst(w0, w1, w2, w3)) == [w0, w1, w2, w3]
  {
    U16Bytes(w0, w1);
    U16Bytes(w2, w3);
  }

  /** A register's bytes are recovered from its value. */
  lemma U16Bytes(hi: bv8, lo: bv8)
    ensures RegisterBytes(U16(hi, lo)) == [hi, lo]
  {
  }

  /** The voltage bytes 0x09 0x08 read 2312, that is 231.2 V. */
  lemma VoltageExample(buf: seq<bv8>)
    requires |buf| == ResponseLength && buf[3] == 0x09 && buf[4] == 0x08
    ensures Decode(buf).voltage == 2312
  {
  }

  /**
   * The measurement being filled in: the fields of the source's `Measurement`, holding
   * the raw registers.
   */
  class Measurement {
    var voltage: bv16
    var current: bv32
    var power: bv32
    var energy: bv32
    var frequency: bv16
    var pf: bv16
    var alarm: bool

    /** `Measurement::default()`: every field zero, alarm off. */
    constructor ()
      ensures Raw() == RawMeasurement(0, 0, 0, 0, 0, 0, false)
    {
      voltage, current, power, energy, frequency, pf, alarm := 0, 0, 0, 0, 0, 0, false;
    }

    function Raw(): RawMeasurement
      reads this
    {
      RawMeasurement(voltage, current, power, energy, frequency, pf, alarm)
    }
  }

  /** `result_convert`: overwrites every field of `m` with the registers of `buf`. */
  method ResultConvert(buf: array<bv8>, m: Measurement)
    requires buf.Length == ResponseLength
    modifies m
    ensures m.Raw() == Decode(buf[..])
  {
    m.voltage := U16(buf[3], buf[4]);
    m.current := U32LowWordFirst(buf[5], buf[6], buf[7], buf[8]);
    m.power := U32LowWordFirst(buf[9], buf[10], buf[11], buf[12]);
    m.energy := U32LowWordFirst(buf[13], buf[14], buf[15], buf[16]);
    m.frequency := U16(buf[17], buf[18]);
    m.pf := U16(buf[19], buf[20]);
    m.alarm := U16(buf[21], buf[22]) != 0;
  }
}
