/**
 * The frame checksum of src/lib.rs: `crc_write` fills the last two bytes of a request
 * buffer with the CRC of the bytes before them, and `crc_check` tells whether a
 * response buffer ends with the CRC of the bytes before it.
 *
 * Both go through the host's byte order: `crc_write` applies `u16::to_be` to the CRC and
 * then writes its high byte first, `crc_check` applies `u16::from_be`.  On a little-endian
 * host (the Cortex-M target of the driver) both functions swap the two bytes, so the
 * CRC's low byte goes first, which is the MODBUS wire order (section 2.5.1.1 of the
 * MODBUS over Serial Line guide V1.02).  The host order is a parameter here, and the
 * driver uses `Host`.
 */
module Frame {
  import opened Crc

  datatype Endianness = LittleEndian | BigEndian

  /** The byte order of the driver's target. */
  const Host: Endianness := LittleEndian

  function Swap(x: bv16): bv16 {
    (x << 8) | (x >> 8)
  }

  /** `u16::to_be`: the identity on a big-endian host, a byte swap on a little-endian one. */
  function ToBe(host: Endianness, x: bv16): (r: bv16)
    ensures FromBe(host, r) == x
  {
    if host == LittleEndian then SwapTwice(x); Swap(x) else x
  }

  /** `u16::from_be`, which performs the same conversion as `to_be`. */
  function FromBe(host: Endianness, x: bv16): (r: bv16)
    ensures host == BigEndian ==> r == x
    ensures host == LittleEndian ==> Hi(r) == Lo(x) && Lo(r) == Hi(x)
  {
    if host == LittleEndian then SwapBytes(x); Swap(x) else x
  }

  /** The low byte of a 16-bit word: Rust's truncating cast `x as u8`. */
  function Lo(x: bv16): bv8 { (x & 0xFF) as bv8 }

  /** The high byte of a 16-bit word. */
  function Hi(x: bv16): bv8 { Lo(x >> 8) }

  /** The two bytes `crc_write` stores after `body`: the converted CRC, high byte first. */
  function CrcTail(host: Endianness, body: seq<bv8>): (t: seq<bv8>)
    ensures |t| == 2 && StoredAs(host, Crc16(body), t[0], t[1])
  {
    var crc := ToBe(host, Crc16(body));
    [Lo(crc >> 8), Lo(crc)]
  }

  /**
   * A MODBUS RTU frame around `body`: the body, then the CRC-16/MODBUS of the body, low
   * byte first.
   */
  function Seal(body: seq<bv8>): (f: seq<bv8>)
    ensures |f| == |body| + 2 && f[..|body|] == body
  {
    body + [Lo(Crc16(body)), Hi(Crc16(body))]
  }

  /** Swapping twice restores the word. */
  lemma SwapTwice(c: bv16)
    ensures Swap(Swap(c)) == c
  {
  }

  /** Swapping exchanges the high and low bytes. */
  lemma SwapBytes(c: bv16)
    ensures Lo(Swap(c) >> 8) == Lo(c) && Lo(Swap(c)) == Hi(c)
  {
  }

  /** On the driver's little-endian target, `crc_write` produces MODBUS wire order. */
  lemma LittleEndianTailIsWireOrder(body: seq<bv8>)
    ensures body + CrcTail(LittleEndian, body) == Seal(body)
  {
    SwapBytes(Crc16(body));
  }

  /** On a big-endian host the same code would send the CRC's high byte first. */
  lemma BigEndianTailIsSwapped(body: seq<bv8>)
    ensures CrcTail(BigEndian, body) == [Hi(Crc16(body)), Lo(Crc16(body))]
  {
  }

  /**
   * The byte comparison of `crc_check`: the CRC value `c`, converted by `from_be`, has
   * high byte `x` and low byte `y`.
   */
  predicate StoredAs(host: Endianness, c: bv16, x: bv8, y: bv8) {
    Lo(FromBe(host, c) >> 8) == x && Lo(FromBe(host, c)) == y
  }

  /** The comparison holds exactly when `x`, `y` are what `crc_write` would store for `c`. */
  lemma TailBytes(host: Endianness, c: bv16, x: bv8, y: bv8)
    ensures StoredAs(host, c, x, y) <==> [x, y] == [Lo(ToBe(host, c) >> 8), Lo(ToBe(host, c))]
  {
    SameConversion(host, c);
  }

  /** `to_be` and `from_be` are the same conversion. */
  lemma SameConversion(host: Endianness, c: bv16)
    ensures FromBe(host, c) == ToBe(host, c)
  {
  }

  /** On a little-endian host the comparison expects the CRC's low byte first. */
  lemma WireBytes(c: bv16, x: bv8, y: bv8)
    ensures StoredAs(LittleEndian, c, x, y) <==> x == Lo(c) && y == Hi(c)
  {
    SwapBytes(c);
  }

  /** A 16-bit word is determined by its two bytes. */
  lemma LoHiInjective(a: bv16, b: bv16)
    requires a != b
    ensures Lo(a) != Lo(b) || Hi(a) != Hi(b)
  {
  }

  /** A buffer is its first bytes followed by `[x, y]` exactly when it ends with `x`, `y`. */
  lemma EndsWith(buf: seq<bv8>, x: bv8, y: bv8)
    requires |buf| >= 2
    ensures buf == buf[..|buf| - 2] + [x, y] <==> buf[|buf| - 2] == x && buf[|buf| - 1] == y
  {
    if buf[|buf| - 2] == x && buf[|buf| - 1] == y {
      assert buf == buf[..|buf| - 2] + [x, y];
    }
  }

  /**
   * `crc_check`: whether the last two bytes of `buf` are what the host's conversion of
   * the CRC of the bytes before them gives.  On the driver's host that is exactly "buf is
   * a MODBUS frame".
   */
  function CrcCheck(host: Endianness, buf: seq<bv8>): (ok: bool)
    requires |buf| >= 2
    ensures ok <==> [buf[|buf| - 2], buf[|buf| - 1]] == CrcTail(host, buf[..|buf| - 2])
  {
    var n := |buf|;
    TailBytes(host, Crc16(buf[..n - 2]), buf[n - 2], buf[n - 1]);
    StoredAs(host, Crc16(buf[..n - 2]), buf[n - 2], buf[n - 1])
  }

  /** On the driver's host, `crc_check` accepts exactly the MODBUS frames. */
  lemma CheckMeansSealed(buf: seq<bv8>)
    requires |buf| >= 2
    ensures CrcCheck(Host, buf) <==> buf == Seal(buf[..|buf| - 2])
  {
    var n := |buf|;
    var c := Crc16(buf[..n - 2]);
    WireBytes(c, buf[n - 2], buf[n - 1]);
    EndsWith(buf, Lo(c), Hi(c));
  }

  /**
   * `crc_write`: overwrites the last two bytes of `buf` with the CRC of the bytes before
   * them; nothing else changes.
   */
  method CrcWrite(host: Endianness, buf: array<bv8>)
    requires buf.Length >= 2
    modifies buf
    ensures buf[..buf.Length - 2] == old(buf[..buf.Length - 2])
    ensures buf[..] == old(buf[..buf.Length - 2]) + CrcTail(host, old(buf[..buf.Length - 2]))
  {
    var n := buf.Length;
    var crc := ToBe(host, Crc16(buf[..n - 2]));
    buf[n - 2] := Lo(crc >> 8);
    buf[n - 1] := Lo(crc);
  }

  /** Whatever the host order, `crc_check` accepts what `crc_write` produced. */
  lemma CheckAcceptsWritten(host: Endianness, body: seq<bv8>)
    ensures CrcCheck(host, body + CrcTail(host, body))
  {
    var f := body + CrcTail(host, body);
    assert f[..|body|] == body;
    var c := Crc16(body);
    assert FromBe(host, c) == ToBe(host, c);
  }

  /** Every sealed frame passes the check on the driver's host. */
  lemma SealedFramePasses(body: seq<bv8>)
    ensures CrcCheck(Host, Seal(body))
  {
    assert Seal(body)[..|body|] == body;
  }

  /**
   * A sealed frame with any one byte changed, in the body or in the CRC, fails the check
   * on the driver's host.
   */
  lemma CorruptedFrameFails(body: seq<bv8>, k: nat, x: bv8)
    requires k < |body| + 2 && Seal(body)[k] != x
    ensures !CrcCheck(Host, Seal(body)[k := x])
  {
    var n := |body|;
    var c := Crc16(body);
    var g := Seal(body)[k := x];
    if k < n {
      var b' := body[k := x];
      assert g == b' + [Lo(c), Hi(c)];
      assert g[..n] == b';
      DetectsByteError(body, b', k);
      LoHiInjective(c, Crc16(b'));
      assert g != Seal(b');
    } else {
      assert g == body + [Lo(c), Hi(c)][k - n := x];
      assert g[..n] == body;
      assert g[k] != Seal(body)[k];
    }
    CheckMeansSealed(g);
  }
}
