/**
 * `asio::basic_streambuf` on values: one function per member function, the bounded byte queue it refines,
 * and the exact conditions under which it throws or loses data. The class in BasicStreambuf.dfy is proved
 * against these functions.
 */
module Streambuf {
  import opened MachineTypes

  const BUFFER_DELTA := 128

  /** Positions are offsets from the start of the buffer; `eback` is always 0. */
  datatype Stream = Stream(buffer: Bytes, gptr: int, egptr: int, pptr: int, epptr: int, maxSize: nat)

  /** A call that may raise `std::length_error` leaves the object in `stream` either way. */
  datatype Outcome = Returned(stream: Stream) | Threw(stream: Stream)

  function Max(a: int, b: int): int { if a < b then b else a }

  function Min(a: int, b: int): int { if a < b then a else b }

  ghost predicate Inv(s: Stream) {
    0 <= s.gptr <= s.egptr <= s.pptr <= s.epptr <= s.maxSize && |s.buffer| == Max(s.epptr, 1)
  }

  /** The input sequence: what `data()` shows and readers get. */
  function Input(s: Stream): (b: Bytes)
    requires Inv(s)
  {
    s.buffer[s.gptr..s.pptr]
  }

  /** The output sequence: room handed out by `prepare`. */
  function Output(s: Stream): (b: Bytes)
    requires Inv(s)
  {
    s.buffer[s.pptr..s.epptr]
  }

  function Size(s: Stream): int {
    s.pptr - s.gptr
  }

  // ---------------------------------------------------------------------------
  // The member functions
  // ---------------------------------------------------------------------------

  function Zeros(n: nat): (b: Bytes)
    ensures |b| == n && forall i :: 0 <= i < n ==> b[i] == 0
  {
    if n == 0 then [] else Zeros(n - 1) + [0]
  }

  function Construct(maximumSize: nat): (s: Stream)
    ensures Inv(s) && s.maxSize == maximumSize && Input(s) == []
    ensures |Output(s)| == (if maximumSize < 128 then maximumSize else 128) && forall i :: i in s.buffer ==> i == 0
  {
    var pend := Min(maximumSize, BUFFER_DELTA);
    Stream(Zeros(Max(pend, 1)), 0, 0, 0, pend, maximumSize)
  }

  /** The buffer after the get area has been moved to its front. */
  function Shifted(b: Bytes, gptr: int, pptr: int): (r: Bytes)
    requires 0 <= gptr <= pptr <= |b|
    ensures |r| == |b|
    ensures forall i :: 0 <= i < |r| ==> r[i] == if i < pptr - gptr then b[gptr + i] else b[i]
  {
    seq(|b|, i requires 0 <= i < |b| => if i < pptr - gptr then b[gptr + i] else b[i])
  }

  /** `reserve` once the get area sits at the front of the buffer: set the positions, growing if need be. */
  function Rebased(s: Stream, n: nat): (r: Outcome)
    requires Inv(s)
    ensures Inv(r.stream) && r.stream.maxSize == s.maxSize
  {
    var size := s.pptr - s.gptr;
    if n <= s.epptr - size then Returned(Stream(s.buffer, 0, size, size, s.epptr, s.maxSize))
    else if n <= s.maxSize && size <= s.maxSize - n then
      var pend := size + n;
      Returned(Stream(s.buffer + Zeros(Max(pend, 1) - |s.buffer|), 0, size, size, pend, s.maxSize))
    else Threw(s)
  }

  function Reserve(s: Stream, n: nat): (r: Outcome)
    requires Inv(s)
    ensures Inv(r.stream) && r.stream.maxSize == s.maxSize
  {
    if n <= s.epptr - s.pptr then Returned(s)
    else Rebased(s.(buffer := Shifted(s.buffer, s.gptr, s.pptr)), n)
  }

  /** `pbump` takes an `int`. */
  function Commit(s: Stream, n: nat): Stream
    requires Inv(s)
  {
    var pptr := s.pptr + CastToInt(Min(n, s.epptr - s.pptr));
    s.(pptr := pptr, egptr := pptr)
  }

  /** `gbump` takes an `int`. */
  function Consume(s: Stream, n: nat): Stream
    requires Inv(s)
  {
    s.(egptr := s.pptr, gptr := s.gptr + CastToInt(if s.gptr + n > s.pptr then s.pptr - s.gptr else n))
  }

  function Underflow(s: Stream): (Stream, Option<byte>)
    requires Inv(s)
  {
    if s.gptr < s.pptr then (s.(egptr := s.pptr), Some(s.buffer[s.gptr])) else (s, None)
  }

  /** How much room `overflow` asks for when there is none left. */
  function Growth(s: Stream): int {
    if Size(s) < s.maxSize && s.maxSize - Size(s) < BUFFER_DELTA then s.maxSize - Size(s) else BUFFER_DELTA
  }

  function PutChar(s: Stream, c: byte): (r: Stream)
    requires Inv(s) && s.pptr < s.epptr
    ensures Inv(r)
  {
    s.(buffer := s.buffer[s.pptr := c], pptr := s.pptr + 1)
  }

  /** `c` is None for eof. */
  function Overflow(s: Stream, c: Option<byte>): (r: Outcome)
    requires Inv(s)
    ensures Inv(r.stream)
  {
    if c.None? then Returned(s)
    else if s.pptr < s.epptr then Returned(PutChar(s, c.value))
    else
      var r := Reserve(s, Growth(s));
      if r.Threw? then r
      else
        ReserveMakesRoom(s, Growth(s));
        Returned(PutChar(r.stream, c.value))
  }

  /** The caller writes into the buffers `prepare` returned. */
  function Fill(s: Stream, data: Bytes): (r: Stream)
    requires Inv(s) && |data| <= s.epptr - s.pptr
    ensures Inv(r)
  {
    s.(buffer := s.buffer[..s.pptr] + data + s.buffer[s.pptr + |data|..])
  }

  // The public character interface of std::streambuf, section 29.6.3 of ISO C++20.

  function Sputc(s: Stream, c: byte): Outcome
    requires Inv(s)
  {
    if s.pptr < s.epptr then Returned(PutChar(s, c)) else Overflow(s, Some(c))
  }

  function Sbumpc(s: Stream): (Stream, Option<byte>)
    requires Inv(s)
  {
    if s.gptr < s.egptr then (s.(gptr := s.gptr + 1), Some(s.buffer[s.gptr]))
    else
      var (u, c) := Underflow(s);
      if c.None? then (u, c) else (u.(gptr := u.gptr + 1), c)
  }

  // ---------------------------------------------------------------------------
  // Reserve: contents, room, and exact failure
  // ---------------------------------------------------------------------------

  lemma RebasedThrowsIff(s: Stream, n: nat)
    requires Inv(s)
    ensures Rebased(s, n).Threw? <==> Size(s) + n > s.maxSize
    ensures Rebased(s, n).Returned? ==> n <= Rebased(s, n).stream.epptr - Rebased(s, n).stream.pptr
  {
  }

  lemma ReserveThrowsIff(s: Stream, n: nat)
    requires Inv(s)
    ensures Reserve(s, n).Threw? <==> Size(s) + n > s.maxSize
    ensures Reserve(s, n).Returned? ==> n <= Reserve(s, n).stream.epptr - Reserve(s, n).stream.pptr
  {
    RebasedThrowsIff(s.(buffer := Shifted(s.buffer, s.gptr, s.pptr)), n);
  }

  lemma RebasedFront(s: Stream, n: nat)
    requires Inv(s) && Rebased(s, n).Returned?
    ensures Input(Rebased(s, n).stream) == s.buffer[..Size(s)]
  {
    var r, size := Rebased(s, n).stream, Size(s);
    assert s.buffer <= r.buffer;
    assert r.buffer[0..size] == s.buffer[..size];
  }

  lemma ShiftedFront(b: Bytes, gptr: int, pptr: int)
    requires 0 <= gptr <= pptr <= |b|
    ensures Shifted(b, gptr, pptr)[..pptr - gptr] == b[gptr..pptr]
  {
  }

  lemma ReserveKeepsInput(s: Stream, n: nat)
    requires Inv(s) && Reserve(s, n).Returned?
    ensures Input(Reserve(s, n).stream) == Input(s)
  {
    if n > s.epptr - s.pptr {
      RebasedFront(s.(buffer := Shifted(s.buffer, s.gptr, s.pptr)), n);
      ShiftedFront(s.buffer, s.gptr, s.pptr);
    }
  }

  lemma ReserveMakesRoom(s: Stream, n: nat)
    requires Inv(s)
    ensures var r := Reserve(s, n);
            && (r.Threw? <==> Size(s) + n > s.maxSize)
            && (r.Returned? ==> n <= r.stream.epptr - r.stream.pptr && Input(r.stream) == Input(s))
  {
    ReserveThrowsIff(s, n);
    if Reserve(s, n).Returned? {
      ReserveKeepsInput(s, n);
    }
  }

  lemma RebasedIsExact(s: Stream, n: nat)
    requires Inv(s) && Rebased(s, n).Returned?
    ensures var r := Rebased(s, n).stream;
            r.gptr == 0 && r.egptr == r.pptr == Size(s) && r.epptr == Max(s.epptr, Size(s) + n)
  {
  }

  /**
   * Exactly how far `reserve` goes: it touches nothing while there is room; otherwise the input moves to the front of
   * the buffer and the output sequence gets what that frees, or, if that is too little, exactly what was asked for.
   */
  lemma ReserveIsExact(s: Stream, n: nat)
    requires Inv(s) && Reserve(s, n).Returned?
    ensures var r := Reserve(s, n).stream;
            if n <= |Output(s)| then r == s
            else r.gptr == 0 && r.egptr == r.pptr == Size(s) && |Output(r)| == Max(n, |Output(s)| + s.gptr)
    ensures Reserve(s, n).stream.epptr <= Max(s.epptr, Size(s) + n)
  {
    if n > s.epptr - s.pptr {
      RebasedIsExact(s.(buffer := Shifted(s.buffer, s.gptr, s.pptr)), n);
    }
  }

  /** The bytes behind the input keep their places, and a buffer that grows grows by zeros. */
  lemma ReserveKeepsRest(s: Stream, n: nat, i: nat)
    requires Inv(s) && Reserve(s, n).Returned? && n > |Output(s)| && Size(s) <= i < |Reserve(s, n).stream.buffer|
    ensures Reserve(s, n).stream.buffer[i] == if i < |s.buffer| then s.buffer[i] else 0
  {
  }

  lemma OverflowThrowsIff(s: Stream, c: byte)
    requires Inv(s)
    ensures Overflow(s, Some(c)).Threw? <==> s.pptr == s.epptr && Size(s) == s.maxSize
  {
    if s.pptr == s.epptr {
      ReserveMakesRoom(s, Growth(s));
    }
  }

  /** One byte marked, all others zero. */
  function Marked(n: nat, at: nat): (b: Bytes)
    requires at < n
    ensures |b| == n && forall i :: 0 <= i < n ==> b[i] == if i == at then 1 else 0
  {
    seq(n, i => if i == at then 1 else 0)
  }

  lemma NonOverlappingShift(b: Bytes, gptr: int, pptr: int)
    requires 0 <= gptr <= pptr <= |b| && (gptr == 0 || 2 * gptr >= pptr)
    ensures Shifted(b, gptr, pptr)[gptr..pptr] == b[gptr..pptr]
  {
    forall i | gptr <= i < pptr ensures Shifted(b, gptr, pptr)[i] == b[i] {
    }
  }

  lemma OverlappingShift(gptr: int, pptr: int, length: nat)
    requires 0 < gptr && 2 * gptr < pptr <= length
    ensures var b := Marked(length, gptr); Shifted(b, gptr, pptr)[gptr] == 0 && b[gptr] == 1
  {
    var b := Marked(length, gptr);
    assert Shifted(b, gptr, pptr)[gptr] == b[gptr + gptr];
  }

  /** Nothing had been consumed, or the moved bytes land entirely in front of the input sequence. */
  predicate ThrowIsSafe(s: Stream) {
    s.gptr == 0 || 2 * s.gptr >= s.pptr
  }

  /** Had the buffer held `b`, the input sequence would be the same after the throw. */
  predicate SurvivesThrow(s: Stream, n: nat, b: Bytes)
    requires Inv(s) && Reserve(s, n).Threw? && |b| == |s.buffer|
  {
    var before := s.(buffer := b);
    Input(Reserve(before, n).stream) == Input(before)
  }

  /** Whether `reserve` throws does not depend on the bytes, and a throw shifts them under unchanged positions. */
  lemma InputAfterThrow(s: Stream, n: nat, b: Bytes)
    requires Inv(s) && Reserve(s, n).Threw? && |b| == |s.buffer|
    ensures Reserve(s.(buffer := b), n) == Threw(s.(buffer := Shifted(b, s.gptr, s.pptr)))
  {
    ReserveThrowsIff(s, n);
    ReserveThrowsIff(s.(buffer := b), n);
  }

  lemma SurvivesIff(s: Stream, n: nat, b: Bytes)
    requires Inv(s) && Reserve(s, n).Threw? && |b| == |s.buffer|
    ensures SurvivesThrow(s, n, b) <==> Shifted(b, s.gptr, s.pptr)[s.gptr..s.pptr] == b[s.gptr..s.pptr]
  {
    InputAfterThrow(s, n, b);
  }

  lemma ThrowKeepsInput(s: Stream, n: nat, b: Bytes)
    requires Inv(s) && Reserve(s, n).Threw? && |b| == |s.buffer| && ThrowIsSafe(s)
    ensures SurvivesThrow(s, n, b)
  {
    NonOverlappingShift(b, s.gptr, s.pptr);
    SurvivesIff(s, n, b);
  }

  lemma ThrowLosesInput(s: Stream, n: nat)
    requires Inv(s) && Reserve(s, n).Threw? && 0 < s.gptr && 2 * s.gptr < s.pptr
    ensures !SurvivesThrow(s, n, Marked(|s.buffer|, s.gptr))
  {
    var b := Marked(|s.buffer|, s.gptr);
    OverlappingShift(s.gptr, s.pptr, |s.buffer|);
    SurvivesIff(s, n, b);
    var after := Shifted(b, s.gptr, s.pptr);
    assert after[s.gptr..s.pptr][0] == after[s.gptr];
    assert b[s.gptr..s.pptr][0] == b[s.gptr];
  }

  /**
   * A throw moves the get area but not the positions. The input sequence survives it, whatever the buffer holds,
   * exactly when nothing had been consumed or the moved bytes land entirely in front of it.
   */
  lemma ThrowKeepsInputIff(s: Stream, n: nat)
    requires Inv(s) && Reserve(s, n).Threw?
    ensures ThrowIsSafe(s) <==> forall b: Bytes :: |b| == |s.buffer| ==> SurvivesThrow(s, n, b)
  {
    if ThrowIsSafe(s) {
      forall b: Bytes | |b| == |s.buffer| ensures SurvivesThrow(s, n, b) {
        ThrowKeepsInput(s, n, b);
      }
    } else {
      ThrowLosesInput(s, n);
    }
  }

  // ---------------------------------------------------------------------------
  // Commit and consume, and the width of int
  // ---------------------------------------------------------------------------

  /** `commit` advances by what its documentation says exactly when the amount fits an `int`. */
  lemma CommitIff(s: Stream, n: nat)
    requires Inv(s)
    ensures var m, r := Min(n, s.epptr - s.pptr), Commit(s, n);
            && (m < TWO_31 <==> r.pptr == s.pptr + m) && r.egptr == r.pptr
            && (m < TWO_31 ==> Inv(r) && Input(r) == Input(s) + Output(s)[..m] && Output(r) == Output(s)[m..])
  {
    var m := Min(n, s.epptr - s.pptr);
    if m < TWO_31 {
      BoundaryMoves(s.buffer, s.gptr, s.pptr, s.epptr, m);
    }
  }

  lemma BoundaryMoves(b: Bytes, from: nat, middle: nat, to: nat, m: nat)
    requires from <= middle <= middle + m <= to <= |b|
    ensures b[from..middle + m] == b[from..middle] + b[middle..to][..m]
    ensures b[middle + m..to] == b[middle..to][m..]
  {
  }

  lemma ConsumeIff(s: Stream, n: nat)
    requires Inv(s)
    ensures var m, r := Min(n, Size(s)), Consume(s, n);
            && (m < TWO_31 <==> r.gptr == s.gptr + m) && r.egptr == r.pptr
            && (m < TWO_31 ==> Inv(r) && Input(r) == Input(s)[m..] && Output(r) == Output(s))
  {
  }

  lemma PutCharAppends(s: Stream, c: byte)
    requires Inv(s) && s.pptr < s.epptr
    ensures Input(PutChar(s, c)) == Input(s) + [c] && Output(PutChar(s, c)) == Output(s)[1..]
  {
  }

  /**
   * When there is no room `overflow` makes some for up to 128 characters, fewer only at the maximum, or uses what the
   * consumed characters free if that is more; the character takes the first place of it.
   */
  lemma OverflowGrows(s: Stream, c: byte)
    requires Inv(s) && Overflow(s, Some(c)).Returned?
    ensures var r, left := Overflow(s, Some(c)).stream, s.maxSize - Size(s);
            if s.pptr < s.epptr then Output(r) == Output(s)[1..]
            else |Output(r)| + 1 == Max(s.gptr, if left < 128 then left else 128)
    ensures Overflow(s, None) == Returned(s)
  {
    if s.pptr < s.epptr {
      PutCharAppends(s, c);
    } else {
      OverflowThrowsIff(s, c);
      ReserveMakesRoom(s, Growth(s));
      ReserveIsExact(s, Growth(s));
      PutCharAppends(Reserve(s, Growth(s)).stream, c);
    }
  }

  lemma OverflowAppends(s: Stream, c: byte)
    requires Inv(s) && Overflow(s, Some(c)).Returned?
    ensures Input(Overflow(s, Some(c)).stream) == Input(s) + [c]
  {
    if s.pptr < s.epptr {
      PutCharAppends(s, c);
    } else {
      ReserveMakesRoom(s, Growth(s));
      PutCharAppends(Reserve(s, Growth(s)).stream, c);
    }
  }

  // ---------------------------------------------------------------------------
  // Whole runs
  // ---------------------------------------------------------------------------

  datatype Op =
    | DoPrepare(n: nat)
    | DoFill(data: Bytes)
    | DoCommit(n: nat)
    | DoConsume(n: nat)
    | DoUnderflow
    | DoOverflow(c: Option<byte>)
    | DoSputc(ch: byte)
    | DoSbumpc

  /** The caller stays inside the prepared room, and moves less than 2^31 bytes at a time. */
  predicate Legal(s: Stream, op: Op) {
    match op
    case DoFill(data) => |data| <= s.epptr - s.pptr
    case DoCommit(n) => Min(n, s.epptr - s.pptr) < TWO_31
    case DoConsume(n) => Min(n, Size(s)) < TWO_31
    case _ => true
  }

  function Apply(s: Stream, op: Op): (r: Outcome)
    requires Inv(s) && Legal(s, op)
    ensures Inv(r.stream)
  {
    match op
    case DoPrepare(n) => Reserve(s, n)
    case DoFill(data) => Returned(Fill(s, data))
    case DoCommit(n) => CommitIff(s, n); Returned(Commit(s, n))
    case DoConsume(n) => ConsumeIff(s, n); Returned(Consume(s, n))
    case DoUnderflow => Returned(Underflow(s).0)
    case DoOverflow(c) => Overflow(s, c)
    case DoSputc(ch) => Sputc(s, ch)
    case DoSbumpc => Returned(Sbumpc(s).0)
  }

  /** The operation returns, or it throws where a throw does no harm. */
  predicate Passes(s: Stream, op: Op)
    requires Inv(s)
  {
    Legal(s, op) && (Apply(s, op).Returned? || ThrowIsSafe(s))
  }

  /** The queue's view of an operation: what it puts in at the back... */
  function Appended(s: Stream, op: Op): Bytes
    requires Inv(s) && Legal(s, op)
  {
    if Apply(s, op).Threw? then []
    else match op
      case DoCommit(n) => Output(s)[..Min(n, |Output(s)|)]
      case DoOverflow(c) => if c.Some? then [c.value] else []
      case DoSputc(ch) => [ch]
      case _ => []
  }

  /** ...and what it takes out at the front. */
  function Removed(s: Stream, op: Op): Bytes
    requires Inv(s) && Legal(s, op)
  {
    match op
    case DoConsume(n) => Input(s)[..Min(n, |Input(s)|)]
    case DoSbumpc => Input(s)[..Min(1, |Input(s)|)]
    case _ => []
  }

  /** `before` with `appended` at the back is `removed` in front of `after`. */
  predicate QueueStep(before: Bytes, appended: Bytes, removed: Bytes, after: Bytes) {
    before + appended == removed + after
  }

  /** Queue steps compose. */
  lemma QueueSteps(i: Bytes, a: Bytes, r: Bytes, j: Bytes, b: Bytes, q: Bytes, k: Bytes)
    requires QueueStep(i, a, r, j) && QueueStep(j, b, q, k)
    ensures QueueStep(i, a + b, r + q, k)
  {
    assert i + (a + b) == (i + a) + b;
    assert (r + j) + b == r + (j + b);
    assert r + (q + k) == (r + q) + k;
  }

  lemma CommitIsQueueStep(s: Stream, n: nat)
    requires Inv(s) && Min(n, s.epptr - s.pptr) < TWO_31
    ensures QueueStep(Input(s), Output(s)[..Min(n, |Output(s)|)], [], Input(Commit(s, n)))
  {
    CommitIff(s, n);
    assert [] + Input(Commit(s, n)) == Input(Commit(s, n));
  }

  lemma ConsumeIsQueueStep(s: Stream, n: nat)
    requires Inv(s) && Min(n, Size(s)) < TWO_31
    ensures QueueStep(Input(s), [], Input(s)[..Min(n, |Input(s)|)], Input(Consume(s, n)))
  {
    ConsumeIff(s, n);
    var m := Min(n, Size(s));
    assert Input(s) == Input(s)[..m] + Input(s)[m..];
  }

  lemma SbumpcIsQueueStep(s: Stream)
    requires Inv(s)
    ensures QueueStep(Input(s), [], Input(s)[..Min(1, |Input(s)|)], Input(Sbumpc(s).0))
  {
    SbumpcTakesFront(s);
    var (r, c) := Sbumpc(s);
    if c.Some? {
      assert Input(s)[..1] == [c.value];
    }
  }

  lemma SameIsQueueStep(i: Bytes, j: Bytes)
    requires i == j
    ensures QueueStep(i, [], [], j)
  {
    assert i + [] == [] + j;
  }

  lemma AppendIsQueueStep(i: Bytes, a: Bytes, j: Bytes)
    requires j == i + a
    ensures QueueStep(i, a, [], j)
  {
    assert [] + j == j;
  }

  lemma PrepareIsQueueStep(s: Stream, n: nat)
    requires Inv(s) && Reserve(s, n).Returned?
    ensures QueueStep(Input(s), [], [], Input(Reserve(s, n).stream))
  {
    ReserveKeepsInput(s, n);
    SameIsQueueStep(Input(s), Input(Reserve(s, n).stream));
  }

  lemma FillIsQueueStep(s: Stream, data: Bytes)
    requires Inv(s) && |data| <= s.epptr - s.pptr
    ensures QueueStep(Input(s), [], [], Input(Fill(s, data)))
  {
    FillLayout(s, data);
    SameIsQueueStep(Input(s), Input(Fill(s, data)));
  }

  lemma UnderflowIsQueueStep(s: Stream)
    requires Inv(s)
    ensures QueueStep(Input(s), [], [], Input(Underflow(s).0))
  {
    SameIsQueueStep(Input(s), Input(Underflow(s).0));
  }

  /** Each operation is one step of a bounded FIFO, across shifting, reallocation, the lazy `egptr` and safe throws. */
  lemma StepIsQueueStep(s: Stream, op: Op)
    requires Inv(s) && Passes(s, op)
    ensures QueueStep(Input(s), Appended(s, op), Removed(s, op), Input(Apply(s, op).stream))
    ensures Apply(s, op).stream.maxSize == s.maxSize
  {
    if Apply(s, op).Threw? {
      ThrowIsQueueStep(s, op);
    } else {
      ReturnIsQueueStep(s, op);
    }
  }

  /** A safe throw leaves the queue alone. */
  lemma ThrowIsQueueStep(s: Stream, op: Op)
    requires Inv(s) && Legal(s, op) && Apply(s, op).Threw? && ThrowIsSafe(s)
    ensures QueueStep(Input(s), Appended(s, op), Removed(s, op), Input(Apply(s, op).stream))
    ensures Apply(s, op).stream.maxSize == s.maxSize
  {
    var n := if op.DoPrepare? then op.n else Growth(s);
    assert Apply(s, op) == Reserve(s, n);
    ThrowKeepsInput(s, n, s.buffer);
    assert s.(buffer := s.buffer) == s;
    SameIsQueueStep(Input(s), Input(Reserve(s, n).stream));
  }

  lemma ReturnIsQueueStep(s: Stream, op: Op)
    requires Inv(s) && Legal(s, op) && Apply(s, op).Returned?
    ensures QueueStep(Input(s), Appended(s, op), Removed(s, op), Input(Apply(s, op).stream))
    ensures Apply(s, op).stream.maxSize == s.maxSize
  {
    match op {
      case DoPrepare(n) => PrepareIsQueueStep(s, n);
      case DoFill(data) => FillIsQueueStep(s, data);
      case DoCommit(n) => CommitIsQueueStep(s, n);
      case DoConsume(n) => ConsumeIsQueueStep(s, n);
      case DoUnderflow => UnderflowIsQueueStep(s);
      case DoOverflow(c) => OverflowIsQueueStep(s, c);
      case DoSputc(ch) =>
        assert Sputc(s, ch) == Overflow(s, Some(ch));
        OverflowIsQueueStep(s, Some(ch));
      case DoSbumpc => SbumpcIsQueueStep(s);
    }
  }

  lemma OverflowIsQueueStep(s: Stream, c: Option<byte>)
    requires Inv(s) && Overflow(s, c).Returned?
    ensures QueueStep(Input(s), if c.Some? then [c.value] else [], [], Input(Overflow(s, c).stream))
    ensures Overflow(s, c).stream.maxSize == s.maxSize
  {
    if c.Some? {
      OverflowAppends(s, c.value);
      AppendIsQueueStep(Input(s), [c.value], Input(Overflow(s, c).stream));
    } else {
      SameIsQueueStep(Input(s), Input(s));
    }
  }

  /** Reading yields the front of the queue, and end of file exactly when it is empty. */
  lemma SbumpcTakesFront(s: Stream)
    requires Inv(s)
    ensures var (r, c) := Sbumpc(s);
            && Inv(r) && (c.None? <==> Input(s) == [])
            && (c.Some? ==> Input(s) == [c.value] + Input(r))
            && (c.None? ==> r == s)
  {
    if Input(s) != [] {
      assert Input(s) == [s.buffer[s.gptr]] + s.buffer[s.gptr + 1..s.pptr];
    }
  }

  lemma UnderflowPeeks(s: Stream)
    requires Inv(s)
    ensures var (r, c) := Underflow(s);
            && Inv(r) && Input(r) == Input(s) && Output(r) == Output(s)
            && c == (if Input(s) == [] then None else Some(Input(s)[0]))
            && (c.Some? ==> r.egptr == r.pptr)
  {
  }

  predicate LegalRun(s: Stream, ops: seq<Op>)
    requires Inv(s)
    decreases ops
  {
    ops == [] || (Passes(s, ops[0]) && LegalRun(Apply(s, ops[0]).stream, ops[1..]))
  }

  function RunOf(s: Stream, ops: seq<Op>): (r: Stream)
    requires Inv(s) && LegalRun(s, ops)
    ensures Inv(r)
    decreases ops
  {
    if ops == [] then s else RunOf(Apply(s, ops[0]).stream, ops[1..])
  }

  /** The most room an operation can ask for, input included. */
  function Demand(s: Stream, op: Op): int {
    match op
    case DoPrepare(n) => Size(s) + n
    case DoOverflow(c) => if c.Some? then Size(s) + 128 else 0
    case DoSputc(_) => Size(s) + 128
    case _ => 0
  }

  function PeakDemand(s: Stream, ops: seq<Op>): int
    requires Inv(s) && LegalRun(s, ops)
    decreases ops
  {
    if ops == [] then 0 else Max(Demand(s, ops[0]), PeakDemand(Apply(s, ops[0]).stream, ops[1..]))
  }

  lemma StepGrowth(s: Stream, op: Op)
    requires Inv(s) && Legal(s, op)
    ensures Apply(s, op).stream.epptr <= Max(s.epptr, Demand(s, op))
  {
    if op.DoPrepare? && Apply(s, op).Returned? {
      ReserveIsExact(s, op.n);
    } else if (op.DoOverflow? || op.DoSputc?) && s.pptr == s.epptr && Reserve(s, Growth(s)).Returned? {
      ReserveIsExact(s, Growth(s));
    }
  }

  /** Over every run the buffer never grows beyond the largest demand. */
  lemma {:induction false} GrowthIsBounded(s: Stream, ops: seq<Op>)
    requires Inv(s) && LegalRun(s, ops)
    ensures |RunOf(s, ops).buffer| <= Max(|s.buffer|, Max(1, PeakDemand(s, ops)))
    decreases ops
  {
    if ops != [] {
      StepGrowth(s, ops[0]);
      GrowthIsBounded(Apply(s, ops[0]).stream, ops[1..]);
    }
  }

  function AllAppended(s: Stream, ops: seq<Op>): Bytes
    requires Inv(s) && LegalRun(s, ops)
    decreases ops
  {
    if ops == [] then [] else Appended(s, ops[0]) + AllAppended(Apply(s, ops[0]).stream, ops[1..])
  }

  function AllRemoved(s: Stream, ops: seq<Op>): Bytes
    requires Inv(s) && LegalRun(s, ops)
    decreases ops
  {
    if ops == [] then [] else Removed(s, ops[0]) + AllRemoved(Apply(s, ops[0]).stream, ops[1..])
  }

  /** Over every run nothing is lost, invented or reordered, and the bound is kept. */
  lemma {:induction false} RunIsQueueRun(s: Stream, ops: seq<Op>)
    requires Inv(s) && LegalRun(s, ops)
    ensures QueueStep(Input(s), AllAppended(s, ops), AllRemoved(s, ops), Input(RunOf(s, ops)))
    ensures |Input(RunOf(s, ops))| <= RunOf(s, ops).maxSize == s.maxSize
    decreases ops
  {
    if ops == [] {
      SameIsQueueStep(Input(s), Input(s));
    } else {
      var t := Apply(s, ops[0]).stream;
      StepIsQueueStep(s, ops[0]);
      RunIsQueueRun(t, ops[1..]);
      QueueSteps(Input(s), Appended(s, ops[0]), Removed(s, ops[0]), Input(t),
                 AllAppended(t, ops[1..]), AllRemoved(t, ops[1..]), Input(RunOf(s, ops)));
    }
  }

  /** From the constructor on: what was written is what was read followed by what is still there. */
  lemma WrittenIsReadPlusPending(maximumSize: nat, ops: seq<Op>)
    requires LegalRun(Construct(maximumSize), ops)
    ensures var s := Construct(maximumSize);
            AllAppended(s, ops) == AllRemoved(s, ops) + Input(RunOf(s, ops)) && |Input(RunOf(s, ops))| <= maximumSize
  {
    var s := Construct(maximumSize);
    RunIsQueueRun(s, ops);
    assert Input(s) + AllAppended(s, ops) == AllAppended(s, ops);
  }

  lemma MiddleOf(x: Bytes, y: Bytes, z: Bytes, end: int)
    requires |x| + |y| <= end <= |x| + |y| + |z|
    ensures (x + y + z)[|x|..end][..|y|] == y
  {
    forall i | 0 <= i < |y| ensures (x + y + z)[|x|..end][..|y|][i] == y[i] {
      assert (x + y + z)[|x| + i] == y[i];
    }
  }

  lemma FillLayout(s: Stream, data: Bytes)
    requires Inv(s) && |data| <= s.epptr - s.pptr
    ensures Input(Fill(s, data)) == Input(s) && Output(Fill(s, data))[..|data|] == data
  {
    var x, y := s.buffer[..s.pptr], s.buffer[s.pptr + |data|..];
    assert (x + data + y)[s.gptr..s.pptr] == x[s.gptr..];
    MiddleOf(x, data, y, s.epptr);
  }

  lemma FillThenCommit(s: Stream, data: Bytes)
    requires Inv(s) && |data| <= s.epptr - s.pptr && |data| < TWO_31
    ensures var r := Commit(Fill(s, data), |data|); Inv(r) && Input(r) == Input(s) + data
  {
    FillLayout(s, data);
    CommitIff(Fill(s, data), |data|);
  }

  /** The idiom of the documentation: prepare, write, commit. It throws exactly when the data does not fit. */
  lemma PrepareFillCommit(s: Stream, data: Bytes)
    requires Inv(s) && |data| < TWO_31
    ensures var p := Reserve(s, |data|);
            && (p.Returned? <==> Size(s) + |data| <= s.maxSize)
            && (p.Returned? ==>
                  && |data| <= p.stream.epptr - p.stream.pptr
                  && var r := Commit(Fill(p.stream, data), |data|);
                     Inv(r) && Input(r) == Input(s) + data)
  {
    ReserveMakesRoom(s, |data|);
    if Reserve(s, |data|).Returned? {
      FillThenCommit(Reserve(s, |data|).stream, data);
    }
  }

  // ---------------------------------------------------------------------------
  // The exceptions are reached
  // ---------------------------------------------------------------------------

  lemma FillsAll(s: Stream, data: Bytes)
    requires Inv(s) && s.pptr == 0 && |data| == s.epptr == |s.buffer|
    ensures Fill(s, data) == s.(buffer := data)
  {
    assert s.buffer[..0] + data + s.buffer[|data|..] == data;
  }

  /** A full buffer of which one byte was consumed cannot take another: the throw shifts what is left by one. */
  lemma FullBufferThrows(s: Stream)
    requires Inv(s) && s.gptr == 1 && s.pptr == s.epptr == s.maxSize == 4
    ensures Reserve(s, 2).Threw?
    ensures Input(Reserve(s, 2).stream) == [s.buffer[2], s.buffer[3], s.buffer[3]]
  {
    ReserveThrowsIff(s, 2);
    InputAfterThrow(s, 2, s.buffer);
    var shifted := Shifted(s.buffer, 1, 4);
    assert shifted[1] == s.buffer[2] && shifted[2] == s.buffer[3] && shifted[3] == s.buffer[3];
    assert shifted[1..4] == [shifted[1], shifted[2], shifted[3]];
  }

  /** Four bytes in, one byte out, two more asked for: say, the throw turns the input from 2, 3, 4 into 3, 4, 4. */
  lemma ThrowCorrupts(data: Bytes)
    requires |data| == 4
    ensures var c := Commit(Fill(Construct(|data|), data), 4);
            && Inv(c) && Inv(Consume(c, 1)) && Input(Consume(c, 1)) == data[1..]
            && Reserve(Consume(c, 1), 2).Threw?
            && Input(Reserve(Consume(c, 1), 2).stream) == [data[2], data[3], data[3]]
  {
    var s := Construct(|data|);
    FillsAll(s, data);
    CommitIff(s.(buffer := data), 4);
    var c := Commit(s.(buffer := data), 4);
    ConsumeIff(c, 1);
    assert Input(c) == data;
    FullBufferThrows(Consume(c, 1));
  }

  /** Committing 2^31 prepared bytes in one call moves the put position backwards. */
  lemma CommitWraps()
    ensures var p := Reserve(Construct(TWO_31), TWO_31);
            && p.Returned? && p.stream.epptr - p.stream.pptr == TWO_31
            && Commit(p.stream, TWO_31).pptr == p.stream.pptr - TWO_31
  {
    ReserveThrowsIff(Construct(TWO_31), TWO_31);
  }

  /** The same for consuming 2^31 bytes that were committed in two halves. */
  lemma ConsumeWraps()
    ensures var p := Reserve(Construct(TWO_31), TWO_31).stream;
            var half := Commit(p, 0x4000_0000);
            && Inv(half)
            && var full := Commit(half, 0x4000_0000);
               Inv(full) && Size(full) == TWO_31 && Consume(full, TWO_31).gptr == full.gptr - TWO_31
  {
    var s := Construct(TWO_31);
    ReserveThrowsIff(s, TWO_31);
    var p := Reserve(s, TWO_31).stream;
    CommitIff(p, 0x4000_0000);
    CommitIff(Commit(p, 0x4000_0000), 0x4000_0000);
  }
}
