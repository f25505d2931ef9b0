/**
 * The PZEM-004T protocol engine of src/lib.rs: the slave-address rules, the six request
 * frames, the exchange `communicate` performs over the serial port (drain the input,
 * send the request, flush, read the response) with the checks it makes on the response,
 * and the driver object whose operations are built on it.
 *
 * Each request is a MODBUS RTU frame (section 2.5.1.1 of the MODBUS over Serial Line
 * guide V1.02): slave address, function code, data, CRC.  Function codes 0x03, 0x04 and
 * 0x06 are "read holding registers", "read input registers" and "write single register"
 * (sections 6.3, 6.4 and 6.6 of the MODBUS Application Protocol Specification V1.1b3);
 * 0x42 is the sensor's own "reset energy" command.
 */
module Driver {
  import opened Wrappers
  import opened Crc
  import opened Frame
  import opened Io
  import opened Registers

  /** The general address every sensor answers to when it is alone on the bus. */
  const AddrDefault: bv8 := 0xF8
  const AddrMin: bv8 := 0x01
  const AddrMax: bv8 := 0xF7

  const CmdRead: bv8 := 0x04
  const CmdReset: bv8 := 0x42
  const CmdReadParam: bv8 := 0x03
  const CmdWriteParam: bv8 := 0x06

  const ParamThreshold: bv16 := 0x0001
  const ParamAddr: bv16 := 0x0002

  /** The number of measurement registers. */
  const RegCount: bv16 := 10

  /** What can go wrong talking to the sensor; the port's own error codes are kept. */
  datatype Error = TimedOut | CrcMismatch | PzemError | IllegalAddress | WriteError(code: int) | ReadError(code: int)

  // ----- slave addresses ----------------------------------------------------------

  /** An address the driver may talk to: a unicast address or the general address. */
  predicate Legal(a: bv8) {
    a == AddrDefault || (AddrMin <= a && a <= AddrMax)
  }

  /** An address `set_addr` may give a sensor: a unicast address. */
  predicate Assignable(a: bv8) {
    !(a < AddrMin || a > AddrMax)
  }

  /**
   * The address check of `new`: the address given, or the general address when none is,
   * must be legal.  Exactly 0x00 and 0xF9..0xFF are refused.
   */
  function NewAddress(addr: Option<bv8>): (r: Result<bv8, Error>)
    ensures r.Ok? <==> addr.UnwrapOr(0xF8) != 0x00 && addr.UnwrapOr(0xF8) <= 0xF8
    ensures r.Ok? ==> r.value == addr.UnwrapOr(0xF8) && Legal(r.value)
    ensures r.Err? ==> r.error == IllegalAddress
  {
    var a := addr.UnwrapOr(AddrDefault);
    if a != AddrDefault && (a < AddrMin || a > AddrMax) then Err(IllegalAddress) else Ok(a)
  }

  /**
   * `set_addr` refuses exactly 0x00 and 0xF8..0xFF; every address it accepts is one the
   * driver may go on talking to.
   */
  lemma AssignableAddresses(a: bv8)
    ensures Assignable(a) <==> a != 0x00 && a < 0xF8
    ensures Assignable(a) ==> Legal(a)
    ensures Legal(a) <==> Assignable(a) || a == 0xF8
  {
  }

  // ----- request frames -----------------------------------------------------------

  /** The buffer `crc_write` leaves after `body`: on the driver's host, a MODBUS frame. */
  function Request(body: seq<bv8>): (f: seq<bv8>)
    ensures f == Seal(body) && CrcCheck(Host, f)
  {
    LittleEndianTailIsWireOrder(body);
    SealedFramePasses(body);
    body + CrcTail(Host, body)
  }

  /** The request of `read`: read the ten input registers from register 0. */
  function ReadRequest(addr: bv8): (f: seq<bv8>)
    ensures |f| == 8 && f[..6] == [addr, 0x04, 0x00, 0x00, 0x00, 0x0A] && f == Seal(f[..6])
  {
    Request([addr, CmdRead, 0, 0, Hi(RegCount), Lo(RegCount)])
  }

  /** The request of `get_threshold`: read one register, the alarm threshold parameter. */
  function ThresholdRequest(addr: bv8): (f: seq<bv8>)
    ensures |f| == 8 && f[..6] == [addr, 0x03, 0x00, 0x01, 0x00, 0x01] && f == Seal(f[..6])
  {
    Request([addr, CmdReadParam, Hi(ParamThreshold), Lo(ParamThreshold), 0, 1])
  }

  /** The request of `get_addr`: read one register, the slave address parameter. */
  function AddressRequest(addr: bv8): (f: seq<bv8>)
    ensures |f| == 8 && f[..6] == [addr, 0x03, 0x00, 0x02, 0x00, 0x01] && f == Seal(f[..6])
  {
    Request([addr, CmdReadParam, Hi(ParamAddr), Lo(ParamAddr), 0, 1])
  }

  /** The request of `set_threshold`: write the threshold, high byte first, into register 1. */
  function SetThresholdRequest(addr: bv8, threshold: bv16): (f: seq<bv8>)
    ensures |f| == 8 && f[..4] == [addr, 0x06, 0x00, 0x01] && f == Seal(f[..6])
    ensures U16(f[4], f[5]) == threshold
  {
    U16OfBytes(threshold);
    Request([addr, CmdWriteParam, Hi(ParamThreshold), Lo(ParamThreshold), Hi(threshold), Lo(threshold)])
  }

  /**
   * The request of `set_addr`: sent to the current address, it writes the new address
   * into register 2, whose high byte is always 0.
   */
  function SetAddrRequest(addr: bv8, newAddr: bv8): (f: seq<bv8>)
    ensures |f| == 8 && f[..6] == [addr, 0x06, 0x00, 0x02, 0x00, newAddr] && f == Seal(f[..6])
  {
    Request([addr, CmdWriteParam, Hi(ParamAddr), Lo(ParamAddr), 0, newAddr])
  }

  /** The request of `reset_energy`: the bare command, four bytes in all. */
  function ResetRequest(addr: bv8): (f: seq<bv8>)
    ensures |f| == 4 && f[..2] == [addr, 0x42] && f == Seal(f[..2])
  {
    Request([addr, CmdReset])
  }

  /** The measurement request to the general address is the sensor's well-known frame F8 04 00 00 00 0A 64 64. */
  lemma DefaultReadFrame()
    ensures ReadRequest(0xF8) == [0xF8, 0x04, 0x00, 0x00, 0x00, 0x0A, 0x64, 0x64]
  {
    var s: seq<bv8> := [0xF8, 0x04, 0x00, 0x00, 0x00, 0x0A];
    assert Update(0xFFFF, 0xF8) == 0xC2BE;
    assert Update(0xC2BE, 0x04) == 0xB343;
    assert Update(0xB343, 0x00) == 0xF1F2;
    assert Update(0xF1F2, 0x00) == 0x8570;
    assert Update(0x8570, 0x00) == 0xE484;
    assert Update(0xE484, 0x0A) == 0x6464;
    assert CrcFrom(0x6464, s[6..]) == 0x6464;
    assert CrcFrom(0xE484, s[5..]) == 0x6464;
    assert CrcFrom(0x8570, s[4..]) == 0x6464;
    assert CrcFrom(0xF1F2, s[3..]) == 0x6464;
    assert CrcFrom(0xB343, s[2..]) == 0x6464;
    assert CrcFrom(0xC2BE, s[1..]) == 0x6464;
    assert ReadRequest(0xF8)[..6] == s;
  }

  /** The reset request to the general address is F8 42 C2 41. */
  lemma DefaultResetFrame()
    ensures ResetRequest(0xF8) == [0xF8, 0x42, 0xC2, 0x41]
  {
    var s: seq<bv8> := [0xF8, 0x42];
    assert Update(0xFFFF, 0xF8) == 0xC2BE;
    assert Update(0xC2BE, 0x42) == 0x41C2;
    assert CrcFrom(0x41C2, s[2..]) == 0x41C2;
    assert CrcFrom(0xC2BE, s[1..]) == 0x41C2;
    assert ResetRequest(0xF8)[..2] == s;
  }

  // ----- the checks of communicate ------------------------------------------------

  /** Request and response lengths `communicate` can index: the source's callers all meet this. */
  predicate Shape(req: seq<bv8>, n: nat) {
    |req| >= 2 && n >= 2 && (n == 4 ==> |req| >= 4)
  }

  /**
   * The checks `communicate` makes on a response of which `count` bytes were read
   * (`count` already truncated to a `u8`), in the source's order: a short read, the
   * echoed address and function code, the 4-byte shortcut, the CRC.
   */
  function Validate(req: seq<bv8>, resp: seq<bv8>, count: nat): (r: Result<(), Error>)
    requires Shape(req, |resp|)
    ensures r.Ok? ==> count >= |resp| % 256 && resp[..2] == req[..2] && CrcCheck(Host, resp)
    ensures r.Err? ==> r.error in {TimedOut, PzemError, CrcMismatch}
  {
    if count < |resp| % 256 then Err(TimedOut)
    else if resp[0] != req[0] || resp[1] != req[1] then Err(PzemError)
    else if |resp| == 4 && (resp[2] != req[2] || resp[3] != req[3]) then Err(CrcMismatch)
    else if !CrcCheck(Host, resp) then Err(CrcMismatch)
    else Ok(())
  }

  /**
   * For a 4-byte response to a 4-byte frame that echoes its first two bytes, comparing
   * the last two bytes with the request's is the same as checking the CRC.
   */
  lemma ShortcutAgrees(req: seq<bv8>, resp: seq<bv8>)
    requires |req| == 4 && |resp| == 4 && CrcCheck(Host, req) && resp[..2] == req[..2]
    ensures CrcCheck(Host, resp) <==> resp[2..] == req[2..]
  {
    CheckMeansSealed(req);
    CheckMeansSealed(resp);
    assert resp[..2] == req[..2];
    if resp[2..] == req[2..] {
      assert resp == resp[..2] + resp[2..] && req == req[..2] + req[2..];
    }
  }

  /**
   * The verdict of `communicate` for a well-formed request, one case at a time: a short
   * read times out; otherwise a wrong echo is a sensor error, whatever the CRC says;
   * otherwise a response that is not a MODBUS frame is a CRC mismatch; everything else
   * is accepted.
   */
  lemma ValidateVerdicts(req: seq<bv8>, resp: seq<bv8>, count: nat)
    requires Shape(req, |resp|) && |resp| < 256 && (|resp| == 4 ==> |req| == 4)
    requires CrcCheck(Host, req)
    ensures Validate(req, resp, count) == Err(TimedOut) <==> count < |resp|
    ensures Validate(req, resp, count) == Err(PzemError) <==> count >= |resp| && resp[..2] != req[..2]
    ensures Validate(req, resp, count) == Err(CrcMismatch) <==>
      count >= |resp| && resp[..2] == req[..2] && resp != Seal(resp[..|resp| - 2])
    ensures Validate(req, resp, count).Ok? <==>
      count >= |resp| && resp[..2] == req[..2] && resp == Seal(resp[..|resp| - 2])
  {
    CheckMeansSealed(resp);
    ByteCount(|resp|);
    EchoBytes(req, resp);
    if |resp| == 4 && resp[..2] == req[..2] {
      ShortcutAgrees(req, resp);
      assert resp[2..] == req[2..] <==> resp[2] == req[2] && resp[3] == req[3];
    }
  }

  /** A count below 256 survives the source's cast to `u8`. */
  lemma ByteCount(n: nat)
    requires n < 256
    ensures n % 256 == n
  {
  }

  /** The echo test of `communicate` compares the first two bytes. */
  lemma EchoBytes(req: seq<bv8>, resp: seq<bv8>)
    requires |req| >= 2 && |resp| >= 2
    ensures resp[..2] == req[..2] <==> resp[0] == req[0] && resp[1] == req[1]
  {
    if resp[0] == req[0] && resp[1] == req[1] {
      assert resp[..2] == [resp[0], resp[1]] && req[..2] == [req[0], req[1]];
    }
  }

  // ----- one exchange -------------------------------------------------------------

  /** The outcome of `communicate`: its result, the response buffer, the port and the timer after it. */
  datatype Exchange = Exchange(result: Result<(), Error>, resp: seq<bv8>, link: Link, polls: seq<bool>, started: bool)

  /** Whether the request of an exchange goes out: the drain, the write and the flush all succeed. */
  predicate Sent(link: Link, req: seq<bv8>) {
    DrainRun(link.input).failure.None? && WriteRun(link.writes, req).failure.None? &&
    FlushRun(link.flushes).0.None?
  }

  /** Whether, without a timeout, the read of an `n`-byte response comes to an end. */
  predicate ReadEnds(link: Link, req: seq<bv8>, n: nat) {
    Sent(link, req) ==> Delivers(DrainRun(link.input).input, n)
  }

  /** The read of the response, once the request went out. */
  function Response(link: Link, req: seq<bv8>, polls: seq<bool>, n: nat, timed: bool): (r: Reception)
    requires Sent(link, req) && (timed || ReadEnds(link, req, n))
    ensures |r.bytes| <= n
  {
    Receive(timed, DrainRun(link.input).input, polls, n)
  }

  /**
   * What `communicate` does: drain the input, send the request, flush, read a response
   * into a buffer holding `init`, and check it.  Each failing step ends the exchange
   * with its error and leaves the later steps undone.
   */
  function CommunicateRun(req: seq<bv8>, init: seq<bv8>, link: Link, polls: seq<bool>, timed: bool): (x: Exchange)
    requires Shape(req, |init|)
    requires timed || ReadEnds(link, req, |init|)
    ensures |x.resp| == |init|
  {
    var d := DrainRun(link.input);
    if d.failure.Some? then
      Exchange(Err(ReadError(d.failure.value)), init, link.(input := d.input), polls, false)
    else
      var w := WriteRun(link.writes, req);
      var out := link.output + req[..w.sent];
      if w.failure.Some? then
        Exchange(Err(WriteError(w.failure.value)), init, Link(d.input, w.writes, link.flushes, out), polls, false)
      else
        var (f, flushes) := FlushRun(link.flushes);
        if f.Some? then
          Exchange(Err(WriteError(f.value)), init, Link(d.input, w.writes, flushes, out), polls, false)
        else
          var rx := Receive(timed, d.input, polls, |init|);
          var resp := rx.bytes + init[|rx.bytes|..];
          var after := Link(rx.input, w.writes, flushes, out);
          if rx.failure.Some? then Exchange(Err(ReadError(rx.failure.value)), resp, after, rx.polls, timed)
          else Exchange(Validate(req, resp, |rx.bytes| % 256), resp, after, rx.polls, timed)
  }

  /**
   * Nothing is read before the request is out: an exchange whose drain, write or flush
   * fails reports that port error, leaves the buffer and the timer alone, and never
   * starts the timer.
   */
  lemma UnsentExchange(req: seq<bv8>, init: seq<bv8>, link: Link, polls: seq<bool>, timed: bool)
    requires Shape(req, |init|)
    requires timed || ReadEnds(link, req, |init|)
    ensures var x := CommunicateRun(req, init, link, polls, timed);
      !Sent(link, req) ==>
        x.result.Err? && (x.result.error.ReadError? || x.result.error.WriteError?) &&
        x.resp == init && x.polls == polls && !x.started && x.link.input == DrainRun(link.input).input
  {
  }

  /** An exchange whose request went out: the whole request is on the line, then the response is read and checked. */
  lemma SentExchange(req: seq<bv8>, init: seq<bv8>, link: Link, polls: seq<bool>, timed: bool)
    requires Shape(req, |init|)
    requires timed || ReadEnds(link, req, |init|)
    ensures Sent(link, req) ==>
      var rx := Response(link, req, polls, |init|, timed);
      var resp := rx.bytes + init[|rx.bytes|..];
      CommunicateRun(req, init, link, polls, timed) ==
        Exchange(if rx.failure.Some? then Err(ReadError(rx.failure.value))
                 else Validate(req, resp, |rx.bytes| % 256),
                 resp, Link(rx.input, WriteRun(link.writes, req).writes, FlushRun(link.flushes).1, link.output + req),
                 rx.polls, timed)
  {
    WriteRunSent(link.writes, req);
    assert req[..|req|] == req;
  }

  /**
   * An accepted exchange put the whole request on the line, drained the input before
   * reading, and filled the buffer with a MODBUS frame that echoes the request's
   * address and function code, read in order from what arrived after the drain.
   */
  lemma CommunicateAccepted(req: seq<bv8>, init: seq<bv8>, link: Link, polls: seq<bool>, timed: bool)
    requires Shape(req, |init|) && |init| < 256
    requires timed || ReadEnds(link, req, |init|)
    ensures var x := CommunicateRun(req, init, link, polls, timed);
      x.result.Ok? ==>
        Sent(link, req) && x.link.output == link.output + req &&
        x.resp == Response(link, req, polls, |init|, timed).bytes &&
        ConsumedInOrder(DrainRun(link.input).input, x.link.input, x.resp) &&
        x.resp[..2] == req[..2] && x.resp == Seal(x.resp[..|init| - 2])
  {
    UnsentExchange(req, init, link, polls, timed);
    SentExchange(req, init, link, polls, timed);
    var x := CommunicateRun(req, init, link, polls, timed);
    if x.result.Ok? {
      var d := DrainRun(link.input);
      var rx := Response(link, req, polls, |init|, timed);
      assert |rx.bytes| == |init|;
      assert x.resp == rx.bytes;
      if timed {
        TimedReadInOrder(d.input, polls, |init|);
      } else {
        UntimedReadInOrder(d.input, polls, |init|);
      }
      CheckMeansSealed(x.resp);
    }
  }

  /**
   * A timeout is reported exactly when the request went out and the read returned fewer
   * bytes than the response holds without failing; with a timer, the timer expired
   * before the last read; without one, it never happens.
   */
  lemma CommunicateTimesOut(req: seq<bv8>, init: seq<bv8>, link: Link, polls: seq<bool>, timed: bool)
    requires Shape(req, |init|) && |init| < 256
    requires timed || ReadEnds(link, req, |init|)
    ensures CommunicateRun(req, init, link, polls, timed).result == Err(TimedOut) <==>
      Sent(link, req) && Response(link, req, polls, |init|, timed).failure.None? &&
      |Response(link, req, polls, |init|, timed).bytes| < |init|
    ensures CommunicateRun(req, init, link, polls, timed).result == Err(TimedOut) ==>
      timed && var t := Response(link, req, polls, |init|, timed).trace; t != [] && t[|t| - 1] == Poll(true)
  {
    UnsentExchange(req, init, link, polls, timed);
    SentExchange(req, init, link, polls, timed);
    if Sent(link, req) {
      var d := DrainRun(link.input);
      var rx := Response(link, req, polls, |init|, timed);
      var resp := rx.bytes + init[|rx.bytes|..];
      var r := CommunicateRun(req, init, link, polls, timed).result;
      assert r == if rx.failure.Some? then Err(ReadError(rx.failure.value))
                 else Validate(req, resp, |rx.bytes| % 256);
      if timed {
        TimedReadStops(d.input, polls, |init|);
      } else {
        UntimedReadComplete(d.input, polls, |init|);
      }
      assert |rx.bytes| <= |init| && |resp| == |init|;
      assert rx.failure.None? ==> (r == Err(TimedOut) <==> |rx.bytes| < |init|);
    }
  }

  /**
   * The input is drained before anything is sent: when draining fails, the exchange
   * reports the port's read error and writes nothing.
   */
  lemma CommunicateDrainsFirst(req: seq<bv8>, init: seq<bv8>, link: Link, polls: seq<bool>, timed: bool)
    requires Shape(req, |init|)
    requires timed || ReadEnds(link, req, |init|)
    requires DrainRun(link.input).failure.Some?
    ensures var x := CommunicateRun(req, init, link, polls, timed);
      x.result == Err(ReadError(DrainRun(link.input).failure.value)) &&
      x.link.output == link.output && x.link.writes == link.writes && x.resp == init && !x.started
  {
  }

  /**
   * An exchange of a 4-byte request for a 4-byte response is accepted only when the
   * response is the request itself, byte for byte.
   */
  lemma ShortExchangeEchoes(req: seq<bv8>, init: seq<bv8>, link: Link, polls: seq<bool>, timed: bool)
    requires |req| == 4 && |init| == 4
    requires timed || ReadEnds(link, req, |init|)
    ensures var x := CommunicateRun(req, init, link, polls, timed); x.result.Ok? ==> x.resp == req
  {
    UnsentExchange(req, init, link, polls, timed);
    SentExchange(req, init, link, polls, timed);
    var x := CommunicateRun(req, init, link, polls, timed);
    if x.result.Ok? {
      var rx := Response(link, req, polls, |init|, timed);
      assert x.result == Validate(req, x.resp, |rx.bytes| % 256);
      assert x.resp[0] == req[0] && x.resp[1] == req[1] && x.resp[2] == req[2] && x.resp[3] == req[3];
    }
  }

  /**
   * An exchange over a port with nothing stale pending that then delivers `reply` (in
   * time, when there is a timer): the whole request goes out and the response buffer
   * holds exactly the reply, which is then checked.
   */
  lemma DeliveredExchange(req: seq<bv8>, reply: seq<bv8>, output: seq<bv8>, timed: bool)
    requires Shape(req, |reply|)
    ensures var link := Link([WouldBlock] + Bytes(reply), [], [], output);
      var polls := if timed then seq(|reply|, _ => false) else [];
      ReadEnds(link, req, |reply|) &&
      var x := CommunicateRun(req, Zeros(|reply|), link, polls, timed);
      x.resp == reply && x.result == Validate(req, reply, |reply| % 256) && x.link.output == output + req
  {
    var link := Link([WouldBlock] + Bytes(reply), [], [], output);
    var polls: seq<bool> := if timed then seq(|reply|, _ => false) else [];
    QuietPort(req, reply, output);
    PendingReceived(reply, polls, timed);
    var rx := Receive(timed, Bytes(reply), polls, |reply|);
    assert reply + Zeros(|reply|)[|reply|..] == reply;
    assert CommunicateRun(req, Zeros(|reply|), link, polls, timed) ==
      Exchange(Validate(req, reply, |reply| % 256), reply, Link(rx.input, [], [], output + req), rx.polls, timed);
  }

  /** A port with nothing stale pending and no write or flush trouble sends the whole request. */
  lemma QuietPort(req: seq<bv8>, reply: seq<bv8>, output: seq<bv8>)
    ensures var link := Link([WouldBlock] + Bytes(reply), [], [], output);
      Sent(link, req) && DrainRun(link.input) == Drained(None, [], Bytes(reply)) &&
      WriteRun([], req) == Transmission(None, |req|, []) && FlushRun([]) == (None, []) &&
      output + req[..WriteRun([], req).sent] == output + req
  {
    assert ([WouldBlock] + Bytes(reply))[1..] == Bytes(reply);
    WriteRunIdle(req);
    assert req[..|req|] == req;
  }

  /** Bytes already pending are received as they are, with or without a timer that does not expire. */
  lemma PendingReceived(reply: seq<bv8>, polls: seq<bool>, timed: bool)
    requires polls == if timed then seq(|reply|, _ => false) else []
    ensures Delivers(Bytes(reply), |reply|)
    ensures var rx := Receive(timed, Bytes(reply), polls, |reply|); rx.failure.None? && rx.bytes == reply
  {
    assert Bytes(reply) + [] == Bytes(reply);
    UntimedReadPending(reply, [], polls);
    if timed {
      TimedReadPending(reply, [], polls);
    }
  }

  /** The frame a sensor sends in answer to a measurement request. */
  function SensorReply(addr: bv8, m: RawMeasurement): (f: seq<bv8>)
    ensures |f| == ResponseLength && f[..3] == [addr, 0x04, 20] && f == Seal(f[..23])
  {
    Seal([addr, CmdRead, 20] + RegisterBlock(m))
  }

  /** The sensor's reply passes every check of a measurement exchange and decodes to what it carries. */
  lemma SensorReplyAccepted(addr: bv8, m: RawMeasurement)
    ensures Validate(ReadRequest(addr), SensorReply(addr, m), ResponseLength) == Ok(())
    ensures Decode(SensorReply(addr, m)) == m
  {
    var body := [addr, CmdRead, 20] + RegisterBlock(m);
    var reply := SensorReply(addr, m);
    SealedFramePasses(body);
    assert reply[0] == addr && reply[1] == CmdRead;
    assert reply[3..23] == RegisterBlock(m);
    DecodeRegisterBlock(m, reply);
  }

  /**
   * A sensor that answers a measurement request correctly is read back: when the port
   * has nothing stale pending and then delivers the sensor's frame (in time, when there
   * is a timer), the exchange is accepted and the registers decode to what was sent.
   */
  lemma SensorAnswersRead(addr: bv8, m: RawMeasurement, output: seq<bv8>, timed: bool)
    ensures var link := Link([WouldBlock] + Bytes(SensorReply(addr, m)), [], [], output);
      var polls := if timed then seq(ResponseLength, _ => false) else [];
      ReadEnds(link, ReadRequest(addr), ResponseLength) &&
      var x := CommunicateRun(ReadRequest(addr), Zeros(ResponseLength), link, polls, timed);
      x.result == Ok(()) && Decode(x.resp) == m && x.link.output == output + ReadRequest(addr)
  {
    DeliveredExchange(ReadRequest(addr), SensorReply(addr, m), output, timed);
    SensorReplyAccepted(addr, m);
  }

  /** A response buffer as the driver allocates it, zero-filled. */
  function Zeros(n: nat): (z: seq<bv8>)
    ensures |z| == n && forall i :: 0 <= i < n ==> z[i] == 0
  {
    seq(n, _ => 0)
  }

  /** The port and the timer are where the exchange `x` left them. */
  twostate predicate Settled(timeout: Option<Timeout>, x: Exchange)
    reads Timers(timeout)
  {
    PollsOf(timeout) == x.polls &&
    (timeout.Some? ==>
       timeout.value.timer.starts == old(timeout.value.timer.starts) + (if x.started then [timeout.value.duration] else []))
  }

  // ----- the driver ---------------------------------------------------------------

  /** A request buffer: the array literal `body`, two zero bytes, then `crc_write`. */
  method NewRequest(body: seq<bv8>) returns (buf: array<bv8>)
    ensures fresh(buf) && buf[..] == Request(body)
  {
    buf := new bv8[|body| + 2] (i => if 0 <= i < |body| then body[i] else 0);
    assert buf[..|body|] == body;
    CrcWrite(Host, buf);
  }

  /** A response buffer, zero-filled where the source leaves it uninitialised. */
  method NewResponse(n: nat) returns (buf: array<bv8>)
    ensures fresh(buf) && buf[..] == Zeros(n)
  {
    buf := new bv8[n] (_ => 0);
  }

  /** A sensor on a serial port, addressed by `addr`. */
  class Pzem {
    var uart: Serial
    var addr: bv8

    ghost predicate Valid()
      reads this
    {
      Legal(addr)
    }

    constructor (uart: Serial, addr: bv8)
      requires Legal(addr)
      ensures this.uart == uart && this.addr == addr && Valid()
    {
      this.uart, this.addr := uart, addr;
    }

    /**
     * `new`: a driver for the sensor at `addr`, or at the general address when none is
     * given; an illegal address is refused without touching the port.
     */
    static method New(uart: Serial, addr: Option<bv8>) returns (r: Result<Pzem, Error>)
      ensures NewAddress(addr).Err? ==> r == Err(IllegalAddress)
      ensures NewAddress(addr).Ok? ==>
        r.Ok? && fresh(r.value) && r.value.uart == uart && r.value.addr == NewAddress(addr).value && r.value.Valid()
      ensures uart.State() == old(uart.State())
    {
      var a := addr.UnwrapOr(AddrDefault);
      if a != AddrDefault && (a < AddrMin || a > AddrMax) {
        return Err(IllegalAddress);
      }
      var p := new Pzem(uart, a);
      r := Ok(p);
    }

    /** `communicate`: one exchange of `req` for a response read into `resp`. */
    method Communicate(req: seq<bv8>, resp: array<bv8>, timeout: Option<Timeout>) returns (r: Result<(), Error>)
      requires Shape(req, resp.Length)
      requires timeout.None? ==> ReadEnds(uart.State(), req, resp.Length)
      modifies uart, resp, Timers(timeout)
      ensures var x := CommunicateRun(req, old(resp[..]), old(uart.State()), old(PollsOf(timeout)), timeout.Some?);
        r == x.result && resp[..] == x.resp && uart.State() == x.link && Settled(timeout, x)
    {
      ghost var link, init, polls := uart.State(), resp[..], PollsOf(timeout);
      SentExchange(req, init, link, polls, timeout.Some?);
      var d := uart.Drain();
      if d.Err? {
        return Err(ReadError(d.error));
      }
      var w := uart.WriteBlocking(req);
      if w.Err? {
        return Err(WriteError(w.error));
      }
      var f := uart.AwaitFlush();
      if f.Some? {
        return Err(WriteError(f.value));
      }
      var count, _ := uart.ReadBlocking(timeout, resp);
      ghost var x := CommunicateRun(req, init, link, polls, timeout.Some?);
      assert resp[..] == x.resp && uart.State() == x.link && Settled(timeout, x);
      if count.Err? {
        r := Err(ReadError(count.error));
      } else if count.value < resp.Length % 256 {
        r := Err(TimedOut);
      } else if resp[0] != req[0] || resp[1] != req[1] {
        r := Err(PzemError);
      } else if resp.Length == 4 && (resp[2] != req[2] || resp[3] != req[3]) {
        r := Err(CrcMismatch);
      } else if !CrcCheck(Host, resp[..]) {
        r := Err(CrcMismatch);
      } else {
        r := Ok(());
      }
    }

    /**
     * The steps every operation takes: the request buffer from the array literal `body`
     * and `crc_write`, a fresh `n`-byte response buffer, then `communicate`.
     */
    method Transact(body: seq<bv8>, n: nat, timeout: Option<Timeout>) returns (r: Result<(), Error>, resp: array<bv8>)
      requires Shape(Request(body), n)
      requires timeout.None? ==> ReadEnds(uart.State(), Request(body), n)
      modifies uart, Timers(timeout)
      ensures fresh(resp)
      ensures var x := CommunicateRun(Request(body), Zeros(n), old(uart.State()), old(PollsOf(timeout)), timeout.Some?);
        r == x.result && resp[..] == x.resp && uart.State() == x.link && Settled(timeout, x)
    {
      var buf := NewRequest(body);
      resp := NewResponse(n);
      r := Communicate(buf[..], resp, timeout);
    }

    /**
     * `read`: asks for the ten measurement registers and, when the exchange is accepted,
     * stores them in `m`; on any error `m` is left as it was.
     */
    method Read(m: Measurement, timeout: Option<Timeout>) returns (r: Result<(), Error>)
      requires timeout.None? ==> ReadEnds(uart.State(), ReadRequest(addr), ResponseLength)
      modifies uart, m, Timers(timeout)
      ensures var x := CommunicateRun(ReadRequest(old(addr)), Zeros(ResponseLength), old(uart.State()),
                                      old(PollsOf(timeout)), timeout.Some?);
        r == x.result && uart.State() == x.link && Settled(timeout, x) &&
        m.Raw() == if r.Ok? then Decode(x.resp) else old(m.Raw())
    {
      var resp;
      r, resp := Transact([addr, CmdRead, 0, 0, Hi(RegCount), Lo(RegCount)], ResponseLength, timeout);
      if r.Err? {
        return;
      }
      ResultConvert(resp, m);
    }

    /** `get_threshold`: the alarm threshold register, in watts. */
    method GetThreshold(timeout: Option<Timeout>) returns (r: Result<bv16, Error>)
      requires timeout.None? ==> ReadEnds(uart.State(), ThresholdRequest(addr), 7)
      modifies uart, Timers(timeout)
      ensures var x := CommunicateRun(ThresholdRequest(old(addr)), Zeros(7), old(uart.State()),
                                      old(PollsOf(timeout)), timeout.Some?);
        uart.State() == x.link && Settled(timeout, x) &&
        r == if x.result.Ok? then Ok(U16(x.resp[3], x.resp[4])) else Err(x.result.error)
    {
      var c, resp := Transact([addr, CmdReadParam, Hi(ParamThreshold), Lo(ParamThreshold), 0, 1], 7, timeout);
      if c.Err? {
        return Err(c.error);
      }
      r := Ok(U16(resp[3], resp[4]));
    }

    /** `get_addr`: the slave address register the sensor reports. */
    method GetAddr(timeout: Option<Timeout>) returns (r: Result<bv16, Error>)
      requires timeout.None? ==> ReadEnds(uart.State(), AddressRequest(addr), 7)
      modifies uart, Timers(timeout)
      ensures var x := CommunicateRun(AddressRequest(old(addr)), Zeros(7), old(uart.State()),
                                      old(PollsOf(timeout)), timeout.Some?);
        uart.State() == x.link && Settled(timeout, x) &&
        r == if x.result.Ok? then Ok(U16(x.resp[3], x.resp[4])) else Err(x.result.error)
    {
      var c, resp := Transact([addr, CmdReadParam, Hi(ParamAddr), Lo(ParamAddr), 0, 1], 7, timeout);
      if c.Err? {
        return Err(c.error);
      }
      r := Ok(U16(resp[3], resp[4]));
    }

    /** `set_threshold`: writes the alarm threshold; the sensor echoes the request. */
    method SetThreshold(threshold: bv16, timeout: Option<Timeout>) returns (r: Result<(), Error>)
      requires timeout.None? ==> ReadEnds(uart.State(), SetThresholdRequest(addr, threshold), 8)
      modifies uart, Timers(timeout)
      ensures var x := CommunicateRun(SetThresholdRequest(old(addr), threshold), Zeros(8), old(uart.State()),
                                      old(PollsOf(timeout)), timeout.Some?);
        r == x.result && uart.State() == x.link && Settled(timeout, x)
    {
      var resp;
      r, resp := Transact([addr, CmdWriteParam, Hi(ParamThreshold), Lo(ParamThreshold),
                        Hi(threshold), Lo(threshold)], 8, timeout);
    }

    /**
     * `set_addr`: gives the sensor a new unicast address and, once the sensor accepted
     * it, talks to it at that address.  An address outside 0x01..0xF7 is refused before
     * any I/O; on every error the driver keeps its address.
     */
    method SetAddr(newAddr: bv8, timeout: Option<Timeout>) returns (r: Result<(), Error>)
      requires Valid()
      requires timeout.None? && Assignable(newAddr) ==> ReadEnds(uart.State(), SetAddrRequest(addr, newAddr), 8)
      modifies this`addr, uart, Timers(timeout)
      ensures Valid()
      ensures !Assignable(newAddr) ==>
        r == Err(IllegalAddress) && addr == old(addr) && unchanged(uart) && unchanged(Timers(timeout))
      ensures Assignable(newAddr) ==>
        var x := CommunicateRun(SetAddrRequest(old(addr), newAddr), Zeros(8), old(uart.State()),
                                old(PollsOf(timeout)), timeout.Some?);
        r == x.result && uart.State() == x.link && Settled(timeout, x) &&
        addr == if r.Ok? then newAddr else old(addr)
    {
      if newAddr < AddrMin || newAddr > AddrMax {
        return Err(IllegalAddress);
      }
      var resp;
      r, resp := Transact([addr, CmdWriteParam, Hi(ParamAddr), Lo(ParamAddr), 0, newAddr], 8, timeout);
      if r.Err? {
        return;
      }
      addr := newAddr;
    }

    /** `reset_energy`: clears the energy counter; the sensor echoes the 4-byte request. */
    method ResetEnergy(timeout: Option<Timeout>) returns (r: Result<(), Error>)
      requires timeout.None? ==> ReadEnds(uart.State(), ResetRequest(addr), 4)
      modifies uart, Timers(timeout)
      ensures var x := CommunicateRun(ResetRequest(old(addr)), Zeros(4), old(uart.State()),
                                      old(PollsOf(timeout)), timeout.Some?);
        r == x.result && uart.State() == x.link && Settled(timeout, x) &&
        (r.Ok? ==> x.resp == ResetRequest(old(addr)))
    {
      ShortExchangeEchoes(ResetRequest(addr), Zeros(4), uart.State(), PollsOf(timeout), timeout.Some?);
      var resp;
      r, resp := Transact([addr, CmdReset], 4, timeout);
    }

    /** `release`: hands the serial port back; the driver is not used afterwards. */
    method Release() returns (port: Serial)
      ensures port == uart
    {
      port := uart;
    }
  }
}
