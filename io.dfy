/**
 * The blocking byte transport of src/io.rs, over a serial port and a countdown timer
 * whose behaviour is scripted.
 *
 * The serial port replays finite scripts: `input` holds the outcomes of the coming
 * non-blocking `read()` calls, `writes` and `flushes` those of the coming `write()` and
 * `flush()` calls, and `output` records every byte the port accepted.  An exhausted input
 * script means that no byte is pending (`read()` would block), an exhausted write or flush
 * script that the port accepts.  The timer replays the outcomes of its `wait()` polls; an
 * exhausted poll script means that the countdown has run out.
 *
 * Each loop of the source is a method here, proved against a recursive function that
 * says what the loop computes from the scripts; the lemmas state what the source promises
 * about those functions.
 */
module Io {
  import opened Wrappers

  /** What one non-blocking `read()` returns: a byte, "would block", or a port error. */
  datatype ReadOutcome = Byte(b: bv8) | WouldBlock | ReadFailed(code: int)

  /** What one non-blocking `write()` or `flush()` returns. */
  datatype WriteOutcome = Done | Pending | WriteFailed(code: int)

  /** One step of `read_blocking`: a poll of the timer or a read attempt. */
  datatype Event = Poll(expired: bool) | Attempt(outcome: ReadOutcome)

  /** The observable state of a serial port. */
  datatype Link = Link(input: seq<ReadOutcome>, writes: seq<WriteOutcome>,
                       flushes: seq<WriteOutcome>, output: seq<bv8>)

  function NextRead(input: seq<ReadOutcome>): (ReadOutcome, seq<ReadOutcome>) {
    if input == [] then (WouldBlock, []) else (input[0], input[1..])
  }

  function NextWrite(script: seq<WriteOutcome>): (WriteOutcome, seq<WriteOutcome>) {
    if script == [] then (Done, []) else (script[0], script[1..])
  }

  function NextPoll(polls: seq<bool>): (bool, seq<bool>) {
    if polls == [] then (true, []) else (polls[0], polls[1..])
  }

  /** The bytes carried by a run of read outcomes, in arrival order. */
  function Payload(outcomes: seq<ReadOutcome>): seq<bv8>
    decreases |outcomes|
  {
    if outcomes == [] then []
    else (if outcomes[0].Byte? then [outcomes[0].b] else []) + Payload(outcomes[1..])
  }

  lemma {:induction false} PayloadConcat(a: seq<ReadOutcome>, b: seq<ReadOutcome>)
    ensures Payload(a + b) == Payload(a) + Payload(b)
    decreases |a|
  {
    if a == [] {
      assert a + b == b;
    } else {
      assert (a + b)[0] == a[0] && (a + b)[1..] == a[1..] + b;
      PayloadConcat(a[1..], b);
    }
  }

  // ----- write_blocking -----------------------------------------------------------

  /** The result of sending a buffer: the error that stopped it, if any, and how many bytes went out. */
  datatype Transmission = Transmission(failure: Option<int>, sent: nat, writes: seq<WriteOutcome>)

  /**
   * What `write_blocking` does with a write script: each byte is offered until the port
   * takes it or fails; the first failure ends the transmission.
   */
  function WriteRun(writes: seq<WriteOutcome>, buf: seq<bv8>): (t: Transmission)
    ensures t.sent <= |buf|
    decreases |writes| + |buf|
  {
    if buf == [] then Transmission(None, 0, writes)
    else
      var (o, rest) := NextWrite(writes);
      match o
      case Done => var t := WriteRun(rest, buf[1..]); t.(sent := t.sent + 1)
      case Pending => WriteRun(rest, buf)
      case WriteFailed(e) => Transmission(Some(e), 0, rest)
  }

  /** Every byte is sent on success; a failure leaves only a strict prefix sent. */
  lemma {:induction false} WriteRunSent(writes: seq<WriteOutcome>, buf: seq<bv8>)
    ensures WriteRun(writes, buf).failure.None? <==> WriteRun(writes, buf).sent == |buf|
    decreases |writes| + |buf|
  {
    if buf != [] {
      var (o, rest) := NextWrite(writes);
      match o
      case Done => WriteRunSent(rest, buf[1..]);
      case Pending => WriteRunSent(rest, buf);
      case WriteFailed(e) =>
    }
  }

  /** A port that never reports "would block" or an error takes the whole buffer at once. */
  lemma {:induction false} WriteRunReady(n: nat, buf: seq<bv8>)
    requires n >= |buf|
    ensures WriteRun(seq(n, _ => Done), buf) == Transmission(None, |buf|, seq(n - |buf|, _ => Done))
    decreases |buf|
  {
    if buf != [] {
      assert seq(n, _ => Done)[1..] == seq(n - 1, _ => Done);
      WriteRunReady(n - 1, buf[1..]);
    }
  }

  /** A port with no write outcomes scripted takes the whole buffer at once. */
  lemma {:induction false} WriteRunIdle(buf: seq<bv8>)
    ensures WriteRun([], buf) == Transmission(None, |buf|, [])
    decreases |buf|
  {
    if buf != [] {
      WriteRunIdle(buf[1..]);
    }
  }

  /** What `block!(flush())` does with a flush script. */
  function FlushRun(flushes: seq<WriteOutcome>): (r: (Option<int>, seq<WriteOutcome>))
    ensures |r.1| <= |flushes|
    decreases |flushes|
  {
    var (o, rest) := NextWrite(flushes);
    match o
    case Done => (None, rest)
    case Pending => FlushRun(rest)
    case WriteFailed(e) => (Some(e), rest)
  }

  // ----- read_blocking ------------------------------------------------------------

  /**
   * The result of a blocking read: the error that stopped it, if any, the bytes stored,
   * the scripts left over, and the polls and read attempts made, in order.
   */
  datatype Reception = Reception(failure: Option<int>, bytes: seq<bv8>, input: seq<ReadOutcome>,
                                 polls: seq<bool>, trace: seq<Event>)

  /** Whether the input script holds an outcome other than "would block". */
  predicate Answers(input: seq<ReadOutcome>)
    decreases |input|
  {
    input != [] && (input[0] == WouldBlock ==> Answers(input[1..]))
  }

  /**
   * `block!(read())`: reads until the outcome is not "would block"; the outcome, the
   * script left, and the attempts made.
   */
  function Await(input: seq<ReadOutcome>): (r: (ReadOutcome, seq<ReadOutcome>, seq<Event>))
    requires Answers(input)
    ensures !r.0.WouldBlock? && |r.1| < |input|
    decreases |input|
  {
    if input[0] == WouldBlock then
      var a := Await(input[1..]);
      (a.0, a.1, [Attempt(WouldBlock)] + a.2)
    else (input[0], input[1..], [Attempt(input[0])])
  }

  /**
   * Whether reading `need` bytes without a timeout comes to an end: the input script
   * delivers them, or fails first.  Without a timeout the source blocks for as long as
   * the port has nothing to give.
   */
  predicate Delivers(input: seq<ReadOutcome>, need: nat)
    decreases |input|
  {
    need == 0 ||
    (Answers(input) && (Await(input).0.Byte? ==> Delivers(Await(input).1, need - 1)))
  }

  /** `read_blocking` without a timeout: every byte is `block!(read())`. */
  function UntimedRead(input: seq<ReadOutcome>, polls: seq<bool>, need: nat): (r: Reception)
    requires Delivers(input, need)
    ensures |r.bytes| <= need
    decreases |input|
  {
    if need == 0 then Reception(None, [], input, polls, [])
    else
      var (o, rest, attempts) := Await(input);
      if o.Byte? then
        var r := UntimedRead(rest, polls, need - 1);
        r.(bytes := [o.b] + r.bytes, trace := attempts + r.trace)
      else Reception(Some(o.code), [], rest, polls, attempts)
  }

  /**
   * `read_blocking` with a timeout: before each read attempt the timer is polled, and
   * once it reports expiry the bytes gathered so far are the result.
   */
  function TimedRead(input: seq<ReadOutcome>, polls: seq<bool>, need: nat): (r: Reception)
    ensures |r.bytes| <= need
    decreases |polls|
  {
    if need == 0 then Reception(None, [], input, polls, [])
    else
      var (expired, polls') := NextPoll(polls);
      if expired then Reception(None, [], input, polls', [Poll(true)])
      else
        var (o, input') := NextRead(input);
        match o
        case Byte(b) =>
          var r := TimedRead(input', polls', need - 1);
          r.(bytes := [b] + r.bytes, trace := [Poll(false), Attempt(o)] + r.trace)
        case WouldBlock =>
          var r := TimedRead(input', polls', need);
          r.(trace := [Poll(false), Attempt(o)] + r.trace)
        case ReadFailed(e) => Reception(Some(e), [], input', polls', [Poll(false), Attempt(o)])
  }

  /** One poll-and-read step of a timed reception, after the poll gave `expired` and the read `o`. */
  lemma TimedStep(input: seq<ReadOutcome>, polls: seq<bool>, need: nat,
                  expired: bool, polls': seq<bool>, o: ReadOutcome, input': seq<ReadOutcome>)
    requires need > 0 && (expired, polls') == NextPoll(polls) && (o, input') == NextRead(input)
    ensures var r := TimedRead(input, polls, need);
      (expired ==> r == Reception(None, [], input, polls', [Poll(true)])) &&
      (!expired && o.Byte? ==>
         r == After([o.b], [Poll(false), Attempt(o)], TimedRead(input', polls', need - 1))) &&
      (!expired && o.WouldBlock? ==>
         r == After([], [Poll(false), Attempt(o)], TimedRead(input', polls', need))) &&
      (!expired && o.ReadFailed? ==>
         r == Reception(Some(o.code), [], input', polls', [Poll(false), Attempt(o)]))
  {
  }

  /** Storing the next byte into a buffer that holds `got` and then the rest of `orig`. */
  lemma StoreNext(a: seq<bv8>, got: seq<bv8>, orig: seq<bv8>, b: bv8)
    requires |got| < |orig| == |a| && a == got + orig[|got|..]
    ensures a[|got| := b] == (got + [b]) + orig[|got| + 1..]
  {
  }

  /** A reception preceded by bytes already stored and events already seen. */
  function After(bytes: seq<bv8>, trace: seq<Event>, r: Reception): Reception {
    r.(bytes := bytes + r.bytes, trace := trace + r.trace)
  }

  lemma AfterAfter(b1: seq<bv8>, t1: seq<Event>, b2: seq<bv8>, t2: seq<Event>, r: Reception)
    ensures After(b1, t1, After(b2, t2, r)) == After(b1 + b2, t1 + t2, r)
  {
    assert b1 + (b2 + r.bytes) == (b1 + b2) + r.bytes;
    assert t1 + (t2 + r.trace) == (t1 + t2) + r.trace;
  }

  /** Either branch of `read_blocking`. */
  function Receive(timed: bool, input: seq<ReadOutcome>, polls: seq<bool>, need: nat): (r: Reception)
    requires timed || Delivers(input, need)
    ensures |r.bytes| <= need
  {
    if timed then TimedRead(input, polls, need) else UntimedRead(input, polls, need)
  }

  /** One `block!(read())` of the branch without a timeout. */
  lemma UntimedStep(input: seq<ReadOutcome>, need: nat)
    requires need > 0 && Delivers(input, need)
    ensures Answers(input)
    ensures var (o, rest, attempts) := Await(input);
      (o.Byte? ==>
         Delivers(rest, need - 1) &&
         UntimedRead(input, [], need) == After([o.b], attempts, UntimedRead(rest, [], need - 1))) &&
      (o.ReadFailed? ==> UntimedRead(input, [], need) == Reception(Some(o.code), [], rest, [], attempts))
  {
  }

  /** `block!(read())` ends on the attempt whose outcome it returns. */
  lemma {:induction false} AwaitEndsOnOutcome(input: seq<ReadOutcome>)
    requires Answers(input)
    ensures var (o, _, attempts) := Await(input); attempts != [] && attempts[|attempts| - 1] == Attempt(o)
    decreases |input|
  {
    if input[0] == WouldBlock {
      AwaitEndsOnOutcome(input[1..]);
    }
  }

  /**
   * Without a timeout, a read that does not fail returns exactly the bytes asked for,
   * and a failing read ends on the failed attempt.
   */
  lemma {:induction false} UntimedReadComplete(input: seq<ReadOutcome>, polls: seq<bool>, need: nat)
    requires Delivers(input, need)
    ensures UntimedRead(input, polls, need).failure.None? ==> |UntimedRead(input, polls, need).bytes| == need
    ensures UntimedRead(input, polls, need).failure.Some? ==> |UntimedRead(input, polls, need).bytes| < need
    ensures UntimedRead(input, polls, need).polls == polls
    ensures var r := UntimedRead(input, polls, need);
      r.failure.Some? ==> r.trace != [] && r.trace[|r.trace| - 1] == Attempt(ReadFailed(r.failure.value))
    decreases |input|
  {
    if need > 0 {
      var (o, rest, attempts) := Await(input);
      if o.Byte? {
        UntimedReadComplete(rest, polls, need - 1);
        var r := UntimedRead(rest, polls, need - 1);
        assert r.failure.Some? ==> (attempts + r.trace)[|attempts + r.trace| - 1] == r.trace[|r.trace| - 1];
      } else {
        AwaitEndsOnOutcome(input);
      }
    }
  }

  /**
   * With a timeout, a read that returns fewer bytes than asked for without failing saw
   * the timer expire, and that expiry was the last thing it saw; a failing read ends on
   * the failed attempt.
   */
  lemma {:induction false} TimedReadStops(input: seq<ReadOutcome>, polls: seq<bool>, need: nat)
    ensures var r := TimedRead(input, polls, need);
      r.failure.None? && |r.bytes| < need ==> r.trace != [] && r.trace[|r.trace| - 1] == Poll(true)
    ensures var r := TimedRead(input, polls, need);
      r.failure.Some? ==> r.trace != [] && r.trace[|r.trace| - 1] == Attempt(ReadFailed(r.failure.value))
    decreases |polls|
  {
    if need > 0 {
      var (expired, polls') := NextPoll(polls);
      if !expired {
        var (o, input') := NextRead(input);
        match o
        case Byte(_) => TimedReadStops(input', polls', need - 1);
        case WouldBlock => TimedReadStops(input', polls', need);
        case ReadFailed(_) =>
      }
    }
  }

  /**
   * Every read attempt comes right after a poll that reported "not expired", and a poll
   * that reports expiry is the last event: no read happens after it.
   */
  ghost predicate PolledBeforeEachRead(trace: seq<Event>) {
    (forall j :: 0 <= j < |trace| && trace[j].Attempt? ==> 0 < j && trace[j - 1] == Poll(false)) &&
    (forall j :: 0 <= j < |trace| && trace[j] == Poll(true) ==> j == |trace| - 1)
  }

  lemma {:induction false} TimedReadPollsFirst(input: seq<ReadOutcome>, polls: seq<bool>, need: nat)
    ensures PolledBeforeEachRead(TimedRead(input, polls, need).trace)
    decreases |polls|
  {
    if need > 0 {
      var (expired, polls') := NextPoll(polls);
      if !expired {
        var (o, input') := NextRead(input);
        match o
        case Byte(_) =>
          TimedReadPollsFirst(input', polls', need - 1);
          PrefixKeepsPolling(o, TimedRead(input', polls', need - 1).trace);
        case WouldBlock =>
          TimedReadPollsFirst(input', polls', need);
          PrefixKeepsPolling(o, TimedRead(input', polls', need).trace);
        case ReadFailed(_) =>
      }
    }
  }

  lemma PrefixKeepsPolling(o: ReadOutcome, rest: seq<Event>)
    requires PolledBeforeEachRead(rest)
    ensures PolledBeforeEachRead([Poll(false), Attempt(o)] + rest)
  {
    var t := [Poll(false), Attempt(o)] + rest;
    forall j | 0 <= j < |t| && t[j].Attempt?
      ensures 0 < j && t[j - 1] == Poll(false)
    {
      if j >= 2 { assert t[j] == rest[j - 2]; }
    }
    forall j | 0 <= j < |t| && t[j] == Poll(true)
      ensures j == |t| - 1
    {
      assert j >= 2 && t[j] == rest[j - 2];
    }
  }

  /** What a run of read outcomes leaves of the script it was taken from. */
  ghost predicate ConsumedInOrder(input: seq<ReadOutcome>, rest: seq<ReadOutcome>, bytes: seq<bv8>) {
    |rest| <= |input| && rest == input[|input| - |rest|..] && Payload(input[..|input| - |rest|]) == bytes
  }

  lemma AwaitInOrder(input: seq<ReadOutcome>)
    requires Answers(input)
    ensures var (o, rest, _) := Await(input);
      ConsumedInOrder(input, rest, if o.Byte? then [o.b] else [])
    decreases |input|
  {
    var (o, rest, _) := Await(input);
    var k := |input| - |rest|;
    if input[0] == WouldBlock {
      AwaitInOrder(input[1..]);
      assert input[..k] == [input[0]] + input[1..][..|input| - 1 - |rest|];
    } else {
      assert input[..k] == [input[0]];
    }
  }

  lemma ConsumedTwice(input: seq<ReadOutcome>, mid: seq<ReadOutcome>, rest: seq<ReadOutcome>, a: seq<bv8>, b: seq<bv8>)
    requires ConsumedInOrder(input, mid, a) && ConsumedInOrder(mid, rest, b)
    ensures ConsumedInOrder(input, rest, a + b)
  {
    var i, j := |input| - |mid|, |mid| - |rest|;
    assert input[..i + j] == input[..i] + mid[..j];
    PayloadConcat(input[..i], mid[..j]);
  }

  /**
   * Both branches store the bytes in arrival order: the input consumed is a prefix of
   * the script, its payload is exactly the bytes stored, and the rest of the script is
   * left for later.
   */
  lemma {:induction false} UntimedReadInOrder(input: seq<ReadOutcome>, polls: seq<bool>, need: nat)
    requires Delivers(input, need)
    ensures var r := UntimedRead(input, polls, need); ConsumedInOrder(input, r.input, r.bytes)
    decreases |input|
  {
    var r := UntimedRead(input, polls, need);
    if need == 0 {
      assert input[..0] == [];
    } else {
      AwaitInOrder(input);
      var (o, rest, _) := Await(input);
      if o.Byte? {
        UntimedReadInOrder(rest, polls, need - 1);
        ConsumedTwice(input, rest, r.input, [o.b], UntimedRead(rest, polls, need - 1).bytes);
      }
    }
  }

  lemma {:induction false} TimedReadInOrder(input: seq<ReadOutcome>, polls: seq<bool>, need: nat)
    ensures var r := TimedRead(input, polls, need); ConsumedInOrder(input, r.input, r.bytes)
    decreases |polls|
  {
    var r := TimedRead(input, polls, need);
    var (expired, polls') := NextPoll(polls);
    if need == 0 || expired {
      assert input[..0] == [];
    } else {
      var (o, input') := NextRead(input);
      var bytes := if o.Byte? then [o.b] else [];
      assert ConsumedInOrder(input, input', bytes) by {
        if input == [] {
          assert input[..0] == [];
        } else {
          assert input[..1] == [input[0]];
        }
      }
      if !o.ReadFailed? {
        var need' := if o.Byte? then need - 1 else need;
        TimedReadInOrder(input', polls', need');
        ConsumedTwice(input, input', r.input, bytes, TimedRead(input', polls', need').bytes);
      }
    }
  }

  /** The input script of a port that holds the bytes `s`, ready to be read. */
  function Bytes(s: seq<bv8>): (o: seq<ReadOutcome>)
    ensures |o| == |s| && Payload(o) == s
    decreases |s|
  {
    if s == [] then [] else [Byte(s[0])] + Bytes(s[1..])
  }

  /** Without a timeout, bytes that are already pending are read back as they are. */
  lemma {:induction false} UntimedReadPending(s: seq<bv8>, rest: seq<ReadOutcome>, polls: seq<bool>)
    ensures Delivers(Bytes(s) + rest, |s|)
    ensures var r := UntimedRead(Bytes(s) + rest, polls, |s|);
      r.failure.None? && r.bytes == s && r.input == rest && r.polls == polls
    decreases |s|
  {
    if s != [] {
      var input := Bytes(s) + rest;
      assert input[0] == Byte(s[0]) && input[1..] == Bytes(s[1..]) + rest;
      UntimedReadPending(s[1..], rest, polls);
      assert [s[0]] + s[1..] == s;
    }
  }

  /**
   * With a timeout, pending bytes are read back as they are when the timer does not
   * expire before the last of them.
   */
  lemma {:induction false} TimedReadPending(s: seq<bv8>, rest: seq<ReadOutcome>, polls: seq<bool>)
    requires |polls| >= |s| && forall j :: 0 <= j < |s| ==> !polls[j]
    ensures var r := TimedRead(Bytes(s) + rest, polls, |s|);
      r.failure.None? && r.bytes == s && r.input == rest && r.polls == polls[|s|..]
    decreases |s|
  {
    if s != [] {
      var input := Bytes(s) + rest;
      assert input[0] == Byte(s[0]) && input[1..] == Bytes(s[1..]) + rest;
      TimedReadPending(s[1..], rest, polls[1..]);
      assert [s[0]] + s[1..] == s;
      assert polls[1..][|s| - 1..] == polls[|s|..];
    }
  }

  /** A read attempt that would block stores nothing and leaves the count where it was. */
  lemma WouldBlockRetries(input: seq<ReadOutcome>, polls: seq<bool>, need: nat)
    requires need > 0
    ensures var r := TimedRead([WouldBlock] + input, [false] + polls, need);
      var s := TimedRead(input, polls, need);
      r.bytes == s.bytes && r.failure == s.failure && r.input == s.input && r.polls == s.polls
  {
    assert ([WouldBlock] + input)[1..] == input;
    assert ([false] + polls)[1..] == polls;
  }

  // ----- drain --------------------------------------------------------------------

  /** The result of `drain`: the error that stopped it, if any, the bytes thrown away, the script left. */
  datatype Drained = Drained(failure: Option<int>, discarded: seq<bv8>, input: seq<ReadOutcome>)

  /** What `drain` does with an input script: read until the port would block. */
  function DrainRun(input: seq<ReadOutcome>): (d: Drained)
    ensures |d.discarded| + |d.input| <= |input|
    ensures input != [] ==> |d.input| < |input|
    decreases |input|
  {
    var (o, rest) := NextRead(input);
    match o
    case WouldBlock => Drained(None, [], rest)
    case ReadFailed(e) => Drained(Some(e), [], rest)
    case Byte(b) => var d := DrainRun(rest); d.(discarded := [b] + d.discarded)
  }

  /**
   * `drain` discards exactly the bytes pending before the first "would block" (or the
   * first error, which it reports), and consumes nothing after that outcome.
   */
  lemma {:induction false} DrainStopsAtFirstGap(input: seq<ReadOutcome>)
    ensures var d := DrainRun(input); var k := |d.discarded|;
      k <= |input| &&
      (forall j :: 0 <= j < k ==> input[j] == Byte(d.discarded[j])) &&
      (k == |input| ==> d.failure.None? && d.input == []) &&
      (k < |input| ==> d.input == input[k + 1..] &&
                       (d.failure.None? <==> input[k] == WouldBlock) &&
                       (d.failure.Some? ==> input[k] == ReadFailed(d.failure.value)))
    decreases |input|
  {
    if input != [] && input[0].Byte? {
      DrainStopsAtFirstGap(input[1..]);
    }
  }

  // ----- the two external devices -------------------------------------------------

  /** A countdown timer: `start` records the duration, `wait` replays the poll script. */
  class CountDown {
    var polls: seq<bool>
    var starts: seq<nat>

    constructor (polls: seq<bool>)
      ensures this.polls == polls && starts == []
    {
      this.polls := polls;
      starts := [];
    }

    method Start(duration: nat)
      modifies this`starts
      ensures starts == old(starts) + [duration]
    {
      starts := starts + [duration];
    }

    /** Polls the countdown: `true` once it has run out. */
    method Wait() returns (expired: bool)
      modifies this`polls
      ensures (expired, polls) == NextPoll(old(polls))
    {
      expired := polls == [] || polls[0];
      polls := if polls == [] then [] else polls[1..];
    }
  }

  /** The optional timeout argument: a timer and the duration to start it with. */
  datatype Timeout = Timeout(timer: CountDown, duration: nat)

  function Timers(timeout: Option<Timeout>): set<object> {
    if timeout.Some? then {timeout.value.timer} else {}
  }

  function PollsOf(timeout: Option<Timeout>): seq<bool>
    reads Timers(timeout)
  {
    if timeout.Some? then timeout.value.timer.polls else []
  }

  /** A serial port that replays scripted outcomes and records what it accepted. */
  class Serial {
    var input: seq<ReadOutcome>
    var writes: seq<WriteOutcome>
    var flushes: seq<WriteOutcome>
    var output: seq<bv8>

    constructor (input: seq<ReadOutcome>, writes: seq<WriteOutcome>, flushes: seq<WriteOutcome>)
      ensures State() == Link(input, writes, flushes, [])
    {
      this.input, this.writes, this.flushes := input, writes, flushes;
      output := [];
    }

    function State(): Link
      reads this
    {
      Link(input, writes, flushes, output)
    }

    /** One non-blocking `read()`. */
    method Read() returns (o: ReadOutcome)
      modifies this`input
      ensures (o, input) == NextRead(old(input))
    {
      o, input := NextRead(input).0, NextRead(input).1;
    }

    /** One non-blocking `write()`: an accepted byte goes on the line. */
    method Write(b: bv8) returns (o: WriteOutcome)
      modifies this`writes, this`output
      ensures (o, writes) == NextWrite(old(writes))
      ensures output == old(output) + (if o == Done then [b] else [])
    {
      o, writes := NextWrite(writes).0, NextWrite(writes).1;
      if o == Done {
        output := output + [b];
      }
    }

    /** One non-blocking `flush()`. */
    method Flush() returns (o: WriteOutcome)
      modifies this`flushes
      ensures (o, flushes) == NextWrite(old(flushes))
    {
      o, flushes := NextWrite(flushes).0, NextWrite(flushes).1;
    }

    /** `block!(flush())`: flushes until the port does not report "would block". */
    method AwaitFlush() returns (r: Option<int>)
      modifies this`flushes
      ensures (r, flushes) == FlushRun(old(flushes))
    {
      var o := Flush();
      while o.Pending?
        invariant o.Pending? ==> FlushRun(old(flushes)) == FlushRun(flushes)
        invariant !o.Pending? ==>
          FlushRun(old(flushes)) == (if o.WriteFailed? then Some(o.code) else None, flushes)
        decreases |flushes|, if o.Pending? then 1 else 0
      {
        o := Flush();
      }
      r := if o.WriteFailed? then Some(o.code) else None;
    }

    /**
     * `write_blocking` (src/io.rs:11-17): sends `buf` byte by byte, retrying a byte while
     * the port would block; the first error ends it.
     */
    method WriteBlocking(buf: seq<bv8>) returns (r: Result<(), int>)
      modifies this`writes, this`output
      ensures var t := WriteRun(old(writes), buf);
        writes == t.writes && output == old(output) + buf[..t.sent] &&
        r == if t.failure.Some? then Err(t.failure.value) else Ok(())
      ensures r.Ok? ==> output == old(output) + buf
      ensures r.Err? ==> exists k :: 0 <= k < |buf| && output == old(output) + buf[..k]
    {
      ghost var run := WriteRun(writes, buf);
      WriteRunSent(writes, buf);
      for i := 0 to |buf|
        invariant output == old(output) + buf[..i]
        invariant var t := WriteRun(writes, buf[i..]);
          run.failure == t.failure && run.writes == t.writes && run.sent == i + t.sent
      {
        assert buf[i..][1..] == buf[i + 1..];
        var o := Write(buf[i]);
        while o.Pending?
          invariant o.Pending? ==> output == old(output) + buf[..i]
          invariant o.Pending? ==> var t := WriteRun(writes, buf[i..]);
            run.failure == t.failure && run.writes == t.writes && run.sent == i + t.sent
          invariant o.Done? ==> output == old(output) + buf[..i + 1]
          invariant o.Done? ==> var t := WriteRun(writes, buf[i + 1..]);
            run.failure == t.failure && run.writes == t.writes && run.sent == i + 1 + t.sent
          invariant o.WriteFailed? ==> output == old(output) + buf[..i]
          invariant o.WriteFailed? ==> run == Transmission(Some(o.code), i, writes)
          decreases |writes|, if o.Pending? then 1 else 0
        {
          o := Write(buf[i]);
        }
        if o.WriteFailed? {
          return Err(o.code);
        }
      }
      assert buf[..|buf|] == buf;
      r := Ok(());
    }

    /**
     * `read_blocking` (src/io.rs:31-64): fills `buf` from the port and returns how many
     * bytes it stored, as a `u8`.  With a timeout, the timer is started once and polled
     * before every read attempt; once it reports expiry the count so far is returned.
     * Without one, each byte is awaited for as long as it takes.  A port error ends either
     * branch at once.  `trace` records the polls and read attempts in order.
     */
    method ReadBlocking(timeout: Option<Timeout>, buf: array<bv8>) returns (r: Result<nat, int>, ghost trace: seq<Event>)
      requires timeout.None? ==> Delivers(input, buf.Length)
      modifies this`input, buf, Timers(timeout)
      ensures var run := Receive(timeout.Some?, old(input), old(PollsOf(timeout)), buf.Length);
        input == run.input && PollsOf(timeout) == run.polls && trace == run.trace &&
        buf[..] == run.bytes + old(buf[..])[|run.bytes|..] &&
        r == if run.failure.Some? then Err(run.failure.value) else Ok(|run.bytes| % 256)
      ensures timeout.Some? ==> timeout.value.timer.starts == old(timeout.value.timer.starts) + [timeout.value.duration]
    {
      if timeout.Some? {
        timeout.value.timer.Start(timeout.value.duration);
        r, trace := ReadUntilExpiry(timeout.value.timer, buf);
      } else {
        UntimedReadComplete(input, [], buf.Length);
        r, trace := ReadAll(buf);
      }
    }

    /** The timeout branch of `read_blocking`, after the timer was started (src/io.rs:41-55). */
    method ReadUntilExpiry(timer: CountDown, buf: array<bv8>) returns (r: Result<nat, int>, ghost trace: seq<Event>)
      modifies this`input, buf, timer`polls
      ensures var run := TimedRead(old(input), old(timer.polls), buf.Length);
        input == run.input && timer.polls == run.polls && trace == run.trace &&
        buf[..] == run.bytes + old(buf[..])[|run.bytes|..] &&
        r == if run.failure.Some? then Err(run.failure.value) else Ok(|run.bytes| % 256)
    {
      var n := buf.Length;
      var i := 0;
      trace := [];
      ghost var run := TimedRead(input, timer.polls, n);
      ghost var got: seq<bv8>, orig := [], buf[..];
      while i < n
        invariant 0 <= i <= n && |got| == i
        invariant buf[..] == got + orig[i..]
        invariant run == After(got, trace, TimedRead(input, timer.polls, n - i))
        decreases |timer.polls|
      {
        ghost var input0, polls0, done := input, timer.polls, trace;
        var expired := timer.Wait();
        if expired {
          TimedStep(input0, polls0, n - i, expired, timer.polls, NextRead(input).0, NextRead(input).1);
          trace := trace + [Poll(true)];
          assert got + [] == got;
          break;
        }
        var o := Read();
        TimedStep(input0, polls0, n - i, expired, timer.polls, o, input);
        trace := trace + [Poll(false), Attempt(o)];
        match o
        case ReadFailed(e) =>
          assert got + [] == got;
          return Err(e), trace;
        case WouldBlock =>
          AfterAfter(got, done, [], [Poll(false), Attempt(o)], TimedRead(input, timer.polls, n - i));
          assert got + [] == got;
        case Byte(b) =>
          AfterAfter(got, done, [b], [Poll(false), Attempt(o)], TimedRead(input, timer.polls, n - i - 1));
          StoreNext(buf[..], got, orig, b);
          buf[i] := b;
          got := got + [b];
          i := i + 1;
      }
      r := Ok(i % 256);
    }

    /** `block!(read())` (src/io.rs:58): reads until the port does not report "would block". */
    method AwaitRead() returns (o: ReadOutcome, ghost attempts: seq<Event>)
      requires Answers(input)
      modifies this`input
      ensures (o, input, attempts) == Await(old(input))
    {
      o := Read();
      attempts := [Attempt(o)];
      while o.WouldBlock?
        invariant o.WouldBlock? ==> Answers(input)
        invariant o.WouldBlock? ==>
          Await(old(input)) == (Await(input).0, Await(input).1, attempts + Await(input).2)
        invariant !o.WouldBlock? ==> Await(old(input)) == (o, input, attempts)
        decreases |input|
      {
        ghost var before := input;
        o := Read();
        assert Await(before) == if o.WouldBlock? then (Await(input).0, Await(input).1, [Attempt(o)] + Await(input).2)
                                else (o, input, [Attempt(o)]);
        if o.WouldBlock? {
          assert attempts + ([Attempt(o)] + Await(input).2) == (attempts + [Attempt(o)]) + Await(input).2;
        }
        attempts := attempts + [Attempt(o)];
      }
    }

    /** The branch of `read_blocking` without a timeout (src/io.rs:57-60). */
    method ReadAll(buf: array<bv8>) returns (r: Result<nat, int>, ghost trace: seq<Event>)
      requires Delivers(input, buf.Length)
      modifies this`input, buf
      ensures var run := UntimedRead(old(input), [], buf.Length);
        input == run.input && trace == run.trace &&
        buf[..] == run.bytes + old(buf[..])[|run.bytes|..] &&
        r == if run.failure.Some? then Err(run.failure.value) else Ok(|run.bytes| % 256)
    {
      var n := buf.Length;
      var i := 0;
      trace := [];
      ghost var run := UntimedRead(input, [], n);
      ghost var got: seq<bv8>, orig := [], buf[..];
      while i < n
        invariant 0 <= i <= n && |got| == i
        invariant buf[..] == got + orig[i..]
        invariant Delivers(input, n - i)
        invariant run == After(got, trace, UntimedRead(input, [], n - i))
      {
        UntimedStep(input, n - i);
        ghost var done := trace;
        var o, attempts := AwaitRead();
        trace := trace + attempts;
        match o
        case ReadFailed(e) =>
          assert got + [] == got;
          return Err(e), trace;
        case Byte(b) =>
          AfterAfter(got, done, [b], attempts, UntimedRead(input, [], n - i - 1));
          StoreNext(buf[..], got, orig, b);
          buf[i] := b;
          got := got + [b];
          i := i + 1;
      }
      r := Ok(i % 256);
    }

    /**
     * `drain` (src/io.rs:74-82): reads and discards input until the port would block;
     * a port error is returned.
     */
    method Drain() returns (r: Result<(), int>)
      modifies this`input
      ensures var d := DrainRun(old(input));
        input == d.input && r == if d.failure.Some? then Err(d.failure.value) else Ok(())
    {
      ghost var run := DrainRun(input);
      while true
        invariant DrainRun(input).failure == run.failure && DrainRun(input).input == run.input
        decreases |input|
      {
        var o := Read();
        match o
        case WouldBlock =>
          return Ok(());
        case ReadFailed(e) =>
          return Err(e);
        case Byte(_) =>
      }
    }
  }
}
