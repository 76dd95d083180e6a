/**
 * The output side of `asio::basic_socket_streambuf`: a put buffer flushed by a loop of partial sends.
 * What the socket and the clock answer on each pass of the loop is a script.
 */
module SocketStreambuf {
  import opened MachineTypes

  const BUFFER_SIZE := 512

  /** One pass of the send loop. */
  datatype Attempt =
    | Expired                 // past the expiry time
    | Sent(n: nat)            // `send` took at least one byte
    | WouldBlock(ready: bool) // nothing sent; `poll_write` says ready, or fails
    | HardError

  /** Put buffer (capacity 0 when unbuffered), characters in it, and bytes handed to the socket. */
  datatype Sock = Sock(capacity: nat, pending: Bytes, wire: Bytes)

  const FRESH := Sock(BUFFER_SIZE, [], [])

  ghost predicate Inv(s: Sock) {
    |s.pending| <= s.capacity
  }

  // ---------------------------------------------------------------------------
  // The send loop
  // ---------------------------------------------------------------------------

  /** How many of `available` bytes a send takes: at least one, at most all. */
  function Taken(n: nat, available: nat): (r: nat)
    requires available > 0
    ensures 0 < r <= available
  {
    if n == 0 then 1 else if n < available then n else available
  }

  /** The bytes the loop sends, and whether it sent them all. A script that runs out counts as expired. */
  function SendLoop(output: Bytes, attempts: seq<Attempt>): (r: (Bytes, bool))
    ensures r.0 <= output
    ensures r.1 <==> r.0 == output
    decreases attempts
  {
    if output == [] then ([], true)
    else if attempts == [] then ([], false)
    else
      match attempts[0]
      case Expired => ([], false)
      case HardError => ([], false)
      case WouldBlock(ready) => if ready then SendLoop(output, attempts[1..]) else ([], false)
      case Sent(n) =>
        var k := Taken(n, |output|);
        var (sent, done) := SendLoop(output[k..], attempts[1..]);
        assert output == output[..k] + output[k..];
        (output[..k] + sent, done)
  }

  // ---------------------------------------------------------------------------
  // The member functions
  // ---------------------------------------------------------------------------

  /** The new state and whether the call succeeded; `c` is None for eof. */
  function Overflow(s: Sock, c: Option<byte>, attempts: seq<Attempt>): (r: (Sock, bool))
    requires Inv(s)
    ensures Inv(r.0) && s.wire <= r.0.wire
  {
    if s.capacity == 0 then
      if c.None? then (s, true)
      else
        var (sent, done) := SendLoop([c.value], attempts);
        (s.(wire := s.wire + sent), done)
    else
      var (sent, done) := SendLoop(s.pending, attempts);
      (s.(wire := s.wire + sent, pending := if !done then s.pending else if c.None? then [] else [c.value]), done)
  }

  /** `sputc` of std::streambuf. */
  function Sputc(s: Sock, c: byte, attempts: seq<Attempt>): (r: (Sock, bool))
    requires Inv(s)
    ensures Inv(r.0)
  {
    if |s.pending| < s.capacity then (s.(pending := s.pending + [c]), true) else Overflow(s, Some(c), attempts)
  }

  /** `setbuf(0, 0)`: unbuffered from now on, unless characters are pending. */
  function SetUnbuffered(s: Sock): (r: (Sock, bool))
    requires Inv(s)
    ensures Inv(r.0)
  {
    if s.pending == [] then (s.(capacity := 0), true) else (s, false)
  }

  // ---------------------------------------------------------------------------
  // One call
  // ---------------------------------------------------------------------------

  /** A successful flush puts everything pending on the wire, once and in order, and then accepts the character. */
  lemma OverflowSuccess(s: Sock, c: Option<byte>, attempts: seq<Attempt>)
    requires Inv(s) && Overflow(s, c, attempts).1
    ensures var r := Overflow(s, c, attempts).0;
            r.wire + r.pending == s.wire + s.pending + (if c.Some? then [c.value] else [])
    ensures c.None? ==> Overflow(s, c, attempts).0.pending == []
  {
    if s.capacity == 0 && c.Some? {
      assert s.wire + [c.value] + [] == s.wire + [] + [c.value];
    }
  }

  /** A failing call has sent a prefix of what was pending, and has forgotten that it did. */
  lemma OverflowFailure(s: Sock, c: Option<byte>, attempts: seq<Attempt>)
    requires Inv(s) && !Overflow(s, c, attempts).1
    ensures var r := Overflow(s, c, attempts).0;
            && r.pending == s.pending && s.wire <= r.wire && r.wire[|s.wire|..] <= s.pending
            && (s.capacity == 0 ==> r == s)
            && (s.capacity > 0 ==> |r.wire| < |s.wire| + |s.pending|)
  {
    var r := Overflow(s, c, attempts).0;
    if s.capacity == 0 {
      assert SendLoop([c.value], attempts).0 == [];
    } else {
      assert r.wire[|s.wire|..] == SendLoop(s.pending, attempts).0;
    }
  }

  // ---------------------------------------------------------------------------
  // Whole runs
  // ---------------------------------------------------------------------------

  datatype Op =
    | Put(c: byte, attempts: seq<Attempt>)
    | Flush(attempts: seq<Attempt>)          // sync()
    | CallOverflow(arg: Option<byte>, attempts: seq<Attempt>)
    | Unbuffer

  function Apply(s: Sock, op: Op): (r: (Sock, bool))
    requires Inv(s)
    ensures Inv(r.0) && s.wire <= r.0.wire
  {
    match op
    case Put(c, attempts) => Sputc(s, c, attempts)
    case Flush(attempts) => Overflow(s, None, attempts)
    case CallOverflow(arg, attempts) => Overflow(s, arg, attempts)
    case Unbuffer => SetUnbuffered(s)
  }

  /** The characters a call accepted from the writer. */
  function Accepted(s: Sock, op: Op): Bytes
    requires Inv(s)
  {
    if !Apply(s, op).1 then []
    else match op
      case Put(c, _) => [c]
      case CallOverflow(Some(c), _) => [c]
      case _ => []
  }

  /** The bytes a call handed to the socket. */
  function SentBy(s: Sock, op: Op): Bytes
    requires Inv(s)
  {
    Apply(s, op).0.wire[|s.wire|..]
  }

  /** Bytes a failing call sent: they will be sent again. */
  function Wasted(s: Sock, op: Op): nat
    requires Inv(s)
  {
    if Apply(s, op).1 then 0 else |SentBy(s, op)|
  }

  function RunOf(s: Sock, ops: seq<Op>): (r: Sock)
    requires Inv(s)
    ensures Inv(r)
    decreases ops
  {
    if ops == [] then s else RunOf(Apply(s, ops[0]).0, ops[1..])
  }

  function Written(s: Sock, ops: seq<Op>): Bytes
    requires Inv(s)
    decreases ops
  {
    if ops == [] then [] else Accepted(s, ops[0]) + Written(Apply(s, ops[0]).0, ops[1..])
  }

  function TotalWasted(s: Sock, ops: seq<Op>): nat
    requires Inv(s)
    decreases ops
  {
    if ops == [] then 0 else Wasted(s, ops[0]) + TotalWasted(Apply(s, ops[0]).0, ops[1..])
  }

  /** Sent so far followed by still pending. */
  function Stream(s: Sock): Bytes {
    s.wire + s.pending
  }

  lemma StepConserves(s: Sock, op: Op)
    requires Inv(s)
    ensures Wasted(s, op) == 0 ==> Stream(Apply(s, op).0) == Stream(s) + Accepted(s, op)
    ensures |Stream(Apply(s, op).0)| == |Stream(s)| + |Accepted(s, op)| + Wasted(s, op)
  {
    match op {
      case Put(c, attempts) =>
        if |s.pending| < s.capacity {
          assert s.wire + (s.pending + [c]) == s.wire + s.pending + [c];
        } else {
          CallConserves(s, Some(c), attempts);
        }
      case Flush(attempts) => CallConserves(s, None, attempts);
      case CallOverflow(arg, attempts) => CallConserves(s, arg, attempts);
      case Unbuffer =>
    }
  }

  lemma CallConserves(s: Sock, c: Option<byte>, attempts: seq<Attempt>)
    requires Inv(s)
    ensures var (r, ok) := Overflow(s, c, attempts);
            && |s.wire| <= |r.wire|
            && (ok ==> Stream(r) == Stream(s) + (if c.Some? then [c.value] else []))
            && (!ok ==> |Stream(r)| == |Stream(s)| + (|r.wire| - |s.wire|))
            && (!ok && |r.wire| == |s.wire| ==> r == s)
  {
    var (r, ok) := Overflow(s, c, attempts);
    if ok {
      OverflowSuccess(s, c, attempts);
    } else {
      OverflowFailure(s, c, attempts);
      assert r.wire[..|s.wire|] == s.wire;
    }
  }

  lemma {:induction false} RunLength(s: Sock, ops: seq<Op>)
    requires Inv(s)
    ensures |Stream(RunOf(s, ops))| == |Stream(s)| + |Written(s, ops)| + TotalWasted(s, ops)
    decreases ops
  {
    if ops != [] {
      StepConserves(s, ops[0]);
      RunLength(Apply(s, ops[0]).0, ops[1..]);
    }
  }

  lemma {:induction false} RunWithoutWaste(s: Sock, ops: seq<Op>)
    requires Inv(s) && TotalWasted(s, ops) == 0
    ensures Stream(RunOf(s, ops)) == Stream(s) + Written(s, ops)
    decreases ops
  {
    if ops == [] {
      assert Stream(s) + [] == Stream(s);
    } else {
      var t := Apply(s, ops[0]).0;
      StepConserves(s, ops[0]);
      RunWithoutWaste(t, ops[1..]);
      Chain(Stream(s), Accepted(s, ops[0]), Written(t, ops[1..]));
    }
  }

  // ---------------------------------------------------------------------------
  // When a call stalls, read off its script
  // ---------------------------------------------------------------------------

  /** The loop gets through `n` bytes: every pass until then sends or finds the socket ready again. */
  predicate AllTaken(n: nat, attempts: seq<Attempt>)
    decreases attempts
  {
    n == 0 ||
    (attempts != [] &&
     match attempts[0]
     case Expired => false
     case HardError => false
     case WouldBlock(ready) => ready && AllTaken(n, attempts[1..])
     case Sent(k) => AllTaken(n - Taken(k, n), attempts[1..]))
  }

  /** A pass gives up with bytes left, although bytes have been sent. */
  predicate StallsAfterSending(n: nat, attempts: seq<Attempt>, sent: bool)
    decreases attempts
  {
    n > 0 &&
    if attempts == [] then sent
    else
      match attempts[0]
      case Expired => sent
      case HardError => sent
      case WouldBlock(ready) => if ready then StallsAfterSending(n, attempts[1..], sent) else sent
      case Sent(k) => StallsAfterSending(n - Taken(k, n), attempts[1..], true)
  }

  lemma {:induction false} ScriptDecides(output: Bytes, attempts: seq<Attempt>, sent: bool)
    ensures AllTaken(|output|, attempts) <==> SendLoop(output, attempts).1
    ensures StallsAfterSending(|output|, attempts, sent) <==>
            !SendLoop(output, attempts).1 && (sent || SendLoop(output, attempts).0 != [])
    decreases attempts
  {
    if output != [] && attempts != [] {
      match attempts[0] {
        case Sent(n) => ScriptDecides(output[Taken(n, |output|)..], attempts[1..], true);
        case WouldBlock(ready) => ScriptDecides(output, attempts[1..], sent);
        case _ =>
      }
    }
  }

  /** All that matters of a buffer for whether its calls stall: its capacity and how much is pending. */
  datatype Gauge = Gauge(capacity: nat, count: nat)

  function GaugeOf(s: Sock): Gauge {
    Gauge(s.capacity, |s.pending|)
  }

  function AfterCall(g: Gauge, withChar: bool, attempts: seq<Attempt>): Gauge {
    if g.capacity > 0 && AllTaken(g.count, attempts) then g.(count := if withChar then 1 else 0) else g
  }

  function AfterOp(g: Gauge, op: Op): Gauge {
    match op
    case Put(_, attempts) =>
      if g.count < g.capacity then g.(count := g.count + 1) else AfterCall(g, true, attempts)
    case Flush(attempts) => AfterCall(g, false, attempts)
    case CallOverflow(arg, attempts) => AfterCall(g, arg.Some?, attempts)
    case Unbuffer => if g.count == 0 then g.(capacity := 0) else g
  }

  /** The operation flushes, and its script gives up after sending. An unbuffered character is sent or not at all. */
  predicate OpStalls(g: Gauge, op: Op) {
    match op
    case Put(_, attempts) => g.count >= g.capacity > 0 && StallsAfterSending(g.count, attempts, false)
    case Flush(attempts) => g.capacity > 0 && StallsAfterSending(g.count, attempts, false)
    case CallOverflow(_, attempts) => g.capacity > 0 && StallsAfterSending(g.count, attempts, false)
    case Unbuffer => false
  }

  predicate NeverStalls(g: Gauge, ops: seq<Op>)
    decreases ops
  {
    ops == [] || (!OpStalls(g, ops[0]) && NeverStalls(AfterOp(g, ops[0]), ops[1..]))
  }

  lemma CallGauge(s: Sock, c: Option<byte>, attempts: seq<Attempt>)
    requires Inv(s)
    ensures var (r, ok) := Overflow(s, c, attempts);
            && GaugeOf(r) == AfterCall(GaugeOf(s), c.Some?, attempts)
            && (!ok && r.wire != s.wire <==> s.capacity > 0 && StallsAfterSending(|s.pending|, attempts, false))
  {
    if s.capacity > 0 {
      ScriptDecides(s.pending, attempts, false);
    } else if !Overflow(s, c, attempts).1 {
      OverflowFailure(s, c, attempts);
    }
  }

  lemma OpGauge(s: Sock, op: Op)
    requires Inv(s)
    ensures GaugeOf(Apply(s, op).0) == AfterOp(GaugeOf(s), op)
    ensures Wasted(s, op) > 0 <==> OpStalls(GaugeOf(s), op)
  {
    match op {
      case Put(c, attempts) => if |s.pending| >= s.capacity { CallGauge(s, Some(c), attempts); }
      case Flush(attempts) => CallGauge(s, None, attempts);
      case CallOverflow(arg, attempts) => CallGauge(s, arg, attempts);
      case Unbuffer =>
    }
  }

  lemma {:induction false} NeverStallsIff(s: Sock, ops: seq<Op>)
    requires Inv(s)
    ensures NeverStalls(GaugeOf(s), ops) <==> TotalWasted(s, ops) == 0
    decreases ops
  {
    if ops != [] {
      OpGauge(s, ops[0]);
      NeverStallsIff(Apply(s, ops[0]).0, ops[1..]);
    }
  }

  /**
   * Over every run of writes, flushes and mode changes, with any partial sends and failures: sent followed by
   * pending grows by exactly what was written if and only if no script makes a flush give up after it has sent
   * something. The condition looks at the scripts and the number of pending characters only.
   */
  lemma ConservationIff(s: Sock, ops: seq<Op>)
    requires Inv(s)
    ensures Stream(RunOf(s, ops)) == Stream(s) + Written(s, ops) <==> NeverStalls(GaugeOf(s), ops)
  {
    NeverStallsIff(s, ops);
    RunLength(s, ops);
    if TotalWasted(s, ops) == 0 {
      RunWithoutWaste(s, ops);
    }
  }

  // ---------------------------------------------------------------------------
  // What the peer receives in every run
  // ---------------------------------------------------------------------------

  /** One call's bytes on the wire: those of a successful call count, the others will be sent again. */
  datatype Send = Send(bytes: Bytes, counts: bool, pending: Bytes)

  function Sends(s: Sock, ops: seq<Op>): seq<Send>
    requires Inv(s)
    decreases ops
  {
    if ops == [] then []
    else [Send(SentBy(s, ops[0]), Apply(s, ops[0]).1, s.pending)] + Sends(Apply(s, ops[0]).0, ops[1..])
  }

  function AllBytes(sends: seq<Send>): Bytes {
    if sends == [] then [] else sends[0].bytes + AllBytes(sends[1..])
  }

  function CountingBytes(sends: seq<Send>): Bytes {
    if sends == [] then [] else (if sends[0].counts then sends[0].bytes else []) + CountingBytes(sends[1..])
  }

  lemma StepSends(s: Sock, op: Op)
    requires Inv(s)
    ensures var (r, ok) := Apply(s, op);
            && r.wire == s.wire + SentBy(s, op)
            && (if ok then SentBy(s, op) else []) + r.pending == s.pending + Accepted(s, op)
            && (!ok ==> SentBy(s, op) <= s.pending)
  {
    match op {
      case Put(c, attempts) => if |s.pending| >= s.capacity { CallSends(s, Some(c), attempts); }
      case Flush(attempts) => CallSends(s, None, attempts);
      case CallOverflow(arg, attempts) => CallSends(s, arg, attempts);
      case Unbuffer =>
    }
  }

  lemma CallSends(s: Sock, c: Option<byte>, attempts: seq<Attempt>)
    requires Inv(s)
    ensures var (r, ok) := Overflow(s, c, attempts);
            var sent := r.wire[|s.wire|..];
            && r.wire == s.wire + sent
            && (ok ==> sent + r.pending == s.pending + (if c.Some? then [c.value] else []))
            && (!ok ==> r.pending == s.pending && sent <= s.pending)
  {
    var (r, ok) := Overflow(s, c, attempts);
    assert r.wire == r.wire[..|s.wire|] + r.wire[|s.wire|..];
    if !ok {
      OverflowFailure(s, c, attempts);
    }
  }

  /**
   * Without any condition: the bytes of the successful calls followed by what is pending are what was pending
   * followed by what was written, so nothing is lost or reordered; and whatever else reaches the peer is a prefix of
   * what was pending when a call failed.
   */
  lemma {:induction false} NothingLost(s: Sock, ops: seq<Op>)
    requires Inv(s)
    ensures RunOf(s, ops).wire == s.wire + AllBytes(Sends(s, ops))
    ensures CountingBytes(Sends(s, ops)) + RunOf(s, ops).pending == s.pending + Written(s, ops)
    ensures forall i :: 0 <= i < |Sends(s, ops)| && !Sends(s, ops)[i].counts ==>
              Sends(s, ops)[i].bytes <= Sends(s, ops)[i].pending
    decreases ops
  {
    if ops == [] {
      assert s.wire + [] == s.wire && [] + s.pending == s.pending + [];
    } else {
      var t := Apply(s, ops[0]).0;
      StepSends(s, ops[0]);
      NothingLost(t, ops[1..]);
      var sends, later := Sends(s, ops), Sends(t, ops[1..]);
      assert sends[1..] == later;
      var kept := if sends[0].counts then sends[0].bytes else [];
      Chain(s.wire, sends[0].bytes, AllBytes(later));
      Chain(kept, CountingBytes(later), RunOf(s, ops).pending);
      Chain(kept, t.pending, Written(t, ops[1..]));
      Chain(s.pending, Accepted(s, ops[0]), Written(t, ops[1..]));
    }
  }

  lemma Chain(a: Bytes, b: Bytes, c: Bytes)
    ensures a + b + c == a + (b + c)
  {
  }

  /** A flush of two characters whose second send fails sends one of them and keeps both. */
  lemma HalfFlush(a: byte, b: byte)
    ensures SendLoop([a, b], [Sent(1), HardError]) == ([a], false)
  {
    assert [a, b][1..] == [b] && [a, b][..1] == [a] && [Sent(1), HardError][1..] == [HardError];
    assert SendLoop([b], [HardError]) == ([], false);
    assert [a] + [] == [a];
  }

  lemma FullFlush(a: byte, b: byte)
    ensures SendLoop([a, b], [Sent(2)]) == ([a, b], true)
  {
    assert [a, b][2..] == [] && [a, b][..2] == [a, b];
    assert [a, b] + [] == [a, b];
  }

  /** The two flushes of the run below. */
  lemma FlushTwice(a: byte, b: byte)
    ensures var full := Sock(BUFFER_SIZE, [a, b], []);
            var ops := [Flush([Sent(1), HardError]), Flush([Sent(2)])];
            RunOf(full, ops).wire == [a, a, b] && Written(full, ops) == []
  {
    var full, half := Sock(BUFFER_SIZE, [a, b], []), Sock(BUFFER_SIZE, [a, b], [a]);
    var failing, good := Flush([Sent(1), HardError]), Flush([Sent(2)]);
    HalfFlush(a, b);
    FullFlush(a, b);
    assert [] + [a] == [a] && [a] + [a, b] == [a, a, b];
    assert Apply(full, failing) == (half, false);
    RunStep(full, failing, [good]);
    RunStep(half, good, []);
    assert [failing] + [good] == [failing, good] && [good] + [] == [good];
  }

  lemma RunStep(s: Sock, op: Op, ops: seq<Op>)
    requires Inv(s)
    ensures RunOf(s, [op] + ops) == RunOf(Apply(s, op).0, ops)
    ensures Written(s, [op] + ops) == Accepted(s, op) + Written(Apply(s, op).0, ops)
  {
    assert ([op] + ops)[1..] == ops;
  }

  /**
   * The condition is not idle: from the constructor, two characters written, a flush that fails half way and one
   * that succeeds send the first character twice.
   */
  lemma FailedFlushDuplicates(a: byte, b: byte)
    ensures var ops := [Put(a, []), Put(b, []), Flush([Sent(1), HardError]), Flush([Sent(2)])];
            RunOf(FRESH, ops).wire == [a, a, b] && Written(FRESH, ops) == [a, b]
  {
    var flushes := [Flush([Sent(1), HardError]), Flush([Sent(2)])];
    var one := Sock(BUFFER_SIZE, [a], []);
    assert [] + [a] == [a] && [a] + [b] == [a, b];
    FlushTwice(a, b);
    RunStep(one, Put(b, []), flushes);
    RunStep(FRESH, Put(a, []), [Put(b, [])] + flushes);
    assert Written(one, [Put(b, [])] + flushes) == [b] + [] == [b];
    assert [Put(a, [])] + ([Put(b, [])] + flushes)
           == [Put(a, []), Put(b, []), Flush([Sent(1), HardError]), Flush([Sent(2)])];
  }

  // ---------------------------------------------------------------------------
  // What a script makes of a call
  // ---------------------------------------------------------------------------

  /** How many bytes the sends take, up to the first pass that gives up. */
  function Offered(attempts: seq<Attempt>): nat {
    if attempts == [] then 0
    else
      match attempts[0]
      case Expired => 0
      case HardError => 0
      case WouldBlock(ready) => if ready then Offered(attempts[1..]) else 0
      case Sent(n) => (if n == 0 then 1 else n) + Offered(attempts[1..])
  }

  function Front(b: Bytes, n: nat): Bytes {
    if n < |b| then b[..n] else b
  }

  lemma FrontStep(b: Bytes, k: nat, rest: nat)
    requires k <= |b|
    ensures b[..k] + Front(b[k..], rest) == Front(b, k + rest)
  {
    assert b == b[..k] + b[k..];
  }

  /** The loop sends as much from the front as the socket takes, and succeeds exactly when that is all. */
  lemma {:induction false} SendsWhatIsOffered(output: Bytes, attempts: seq<Attempt>)
    ensures SendLoop(output, attempts) == (Front(output, Offered(attempts)), |output| <= Offered(attempts))
    decreases attempts
  {
    if output != [] && attempts != [] {
      match attempts[0] {
        case Sent(n) =>
          var k := Taken(n, |output|);
          SendsWhatIsOffered(output[k..], attempts[1..]);
          FrontStep(output, k, Offered(attempts[1..]));
        case WouldBlock(ready) => SendsWhatIsOffered(output, attempts[1..]);
        case _ =>
      }
    }
  }

  /**
   * What a call of `overflow` does: buffered, it sends what is pending and then keeps the new character; unbuffered it
   * sends the character; a failing call keeps everything pending.
   */
  lemma OverflowEffect(s: Sock, c: Option<byte>, attempts: seq<Attempt>)
    requires Inv(s)
    ensures var (r, ok) := Overflow(s, c, attempts);
            var kept := if c.Some? then [c.value] else [];
            var output := if s.capacity == 0 then kept else s.pending;
            && (ok <==> |output| <= Offered(attempts))
            && r.wire == s.wire + Front(output, Offered(attempts)) && r.capacity == s.capacity
            && r.pending == if ok && s.capacity > 0 then kept else s.pending
  {
    SendsWhatIsOffered(if s.capacity == 0 then if c.Some? then [c.value] else [] else s.pending, attempts);
    assert s.wire + [] == s.wire;
  }

  /** While there is room a character only waits; `setbuf(0, 0)` works exactly when none does. */
  lemma WaitingEffect(s: Sock, c: byte, attempts: seq<Attempt>)
    requires Inv(s)
    ensures |s.pending| < s.capacity ==> Apply(s, Put(c, attempts)) == (s.(pending := s.pending + [c]), true)
    ensures |s.pending| == s.capacity ==> Apply(s, Put(c, attempts)) == Overflow(s, Some(c), attempts)
    ensures s.pending == [] ==> Apply(s, Unbuffer) == (Sock(0, [], s.wire), true)
    ensures s.pending != [] ==> Apply(s, Unbuffer) == (s, false)
  {
  }

  /** From the constructor the first 512 characters all wait, whatever the socket would do. */
  lemma {:induction false} FirstPutsWait(s: Sock, ops: seq<Op>)
    requires Inv(s) && s.capacity == FRESH.capacity && |s.pending| + |ops| <= 512
    requires forall i :: 0 <= i < |ops| ==> ops[i].Put?
    ensures RunOf(s, ops).wire == s.wire && |RunOf(s, ops).pending| == |s.pending| + |ops|
    decreases ops
  {
    if ops != [] {
      FirstPutsWait(Apply(s, ops[0]).0, ops[1..]);
    }
  }

  // ---------------------------------------------------------------------------
  // The object
  // ---------------------------------------------------------------------------

  class SocketStreambuf {
    var putBuffer: array<byte>
    var pptr: nat
    // What the peer will receive.
    var wire: Bytes

    ghost predicate Valid()
      reads this
    {
      pptr <= putBuffer.Length
    }

    ghost function View(): Sock
      requires Valid()
      reads this, putBuffer
    {
      Sock(putBuffer.Length, putBuffer[..pptr], wire)
    }

    constructor ()
      ensures Valid() && fresh(putBuffer) && View() == FRESH
    {
      putBuffer := new byte[BUFFER_SIZE];
      pptr := 0;
      wire := [];
    }

    /** The loop: `output` shrinks by what each send takes. */
    method SendAll(output: Bytes, attempts: seq<Attempt>) returns (done: bool)
      modifies this`wire
      ensures wire == old(wire) + SendLoop(output, attempts).0
      ensures done == SendLoop(output, attempts).1
    {
      var outputBuffer, script := output, attempts;
      while |outputBuffer| > 0
        invariant wire + SendLoop(outputBuffer, script).0 == old(wire) + SendLoop(output, attempts).0
        invariant SendLoop(outputBuffer, script).1 == SendLoop(output, attempts).1
        decreases script
      {
        if script == [] || script[0].Expired? {
          return false;
        }
        if script[0].Sent? {
          var bytes := Taken(script[0].n, |outputBuffer|);
          assert wire + outputBuffer[..bytes] + SendLoop(outputBuffer[bytes..], script[1..]).0
              == wire + (outputBuffer[..bytes] + SendLoop(outputBuffer[bytes..], script[1..]).0);
          wire := wire + outputBuffer[..bytes];
          outputBuffer, script := outputBuffer[bytes..], script[1..];
          continue;
        }
        if !script[0].WouldBlock? {
          return false;
        }
        if !script[0].ready {
          return false;
        }
        script := script[1..];
      }
      return true;
    }

    method OverflowChar(c: Option<byte>, attempts: seq<Attempt>) returns (ok: bool)
      requires Valid()
      modifies this, putBuffer
      ensures Valid() && putBuffer == old(putBuffer) && (View(), ok) == Overflow(old(View()), c, attempts)
    {
      var output: Bytes;
      if putBuffer.Length == 0 {
        if c.None? {
          return true;
        }
        output := [c.value];
      } else {
        output := putBuffer[..pptr];
      }
      ok := SendAll(output, attempts);
      if !ok {
        return;
      }
      if putBuffer.Length > 0 {
        pptr := 0;
        if c.None? {
          assert putBuffer[..pptr] == [];
          return;
        }
        putBuffer[pptr] := c.value;
        pptr := pptr + 1;
        assert putBuffer[..pptr] == [c.value];
      }
    }

    method Sync(attempts: seq<Attempt>) returns (ok: bool)
      requires Valid()
      modifies this, putBuffer
      ensures Valid() && putBuffer == old(putBuffer) && (View(), ok) == Apply(old(View()), Flush(attempts))
      ensures ok ==> View().pending == [] && wire == Stream(old(View()))
    {
      ghost var before := View();
      ok := OverflowChar(None, attempts);
      if ok {
        OverflowSuccess(before, None, attempts);
      }
    }

    /** `sputc`: the fast path of std::streambuf, else `overflow`. */
    method PutCharacter(c: byte, attempts: seq<Attempt>) returns (ok: bool)
      requires Valid()
      modifies this, putBuffer
      ensures Valid() && putBuffer == old(putBuffer) && (View(), ok) == Apply(old(View()), Put(c, attempts))
    {
      if pptr < putBuffer.Length {
        putBuffer[pptr] := c;
        pptr := pptr + 1;
        assert putBuffer[..pptr] == old(putBuffer[..pptr]) + [c];
        return true;
      }
      ok := OverflowChar(Some(c), attempts);
    }

    method SetBufNull() returns (ok: bool)
      requires Valid()
      modifies this
      ensures Valid() && (putBuffer == old(putBuffer) || fresh(putBuffer))
      ensures (View(), ok) == Apply(old(View()), Unbuffer)
    {
      if pptr != 0 {
        return false;
      }
      putBuffer := new byte[0];
      // The sync() that follows has nothing to send in unbuffered mode.
      var _ := OverflowChar(None, []);
      return true;
    }
  }
}
