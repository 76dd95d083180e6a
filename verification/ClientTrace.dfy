/**
 * The client program as it reads in its text, as a language of traces, and the proof that the client of the system
 * makes exactly such calls, whichever of them are short or fail.
 */
module ClientTrace {
  import opened MachineTypes
  import opened Headers
  import opened FileStore
  import opened Connection
  import opened Protocol
  import Runs

  /** What a call of the program did. Failed writes set an error code; a failed read throws. */
  datatype Call =
    | AnnouncementWritten(ok: bool)
    | AnnouncementAnswered(accepted: bool)
    | HeaderWritten(index: nat, ok: bool)
    | ContentWritten(index: nat, ok: bool)
    | PieceAnswered(index: nat, accepted: bool)
    | ReadThrew

  // ---------------------------------------------------------------------------
  // The program text
  // ---------------------------------------------------------------------------

  /** `main` from its first write on; `over` says whether it has returned. There are `m` pieces. */
  predicate MainTrace(m: nat, calls: seq<Call>, over: bool) {
    if calls == [] then !over
    else
      && calls[0].AnnouncementWritten?
      && if calls[0].ok then FirstReplyTrace(m, calls[1..], over) else calls[1..] == [] && over
  }

  predicate FirstReplyTrace(m: nat, calls: seq<Call>, over: bool) {
    if calls == [] then !over
    else if calls[0] == AnnouncementAnswered(true) then LoopTrace(m, 0, calls[1..], over)
    else (calls[0] == AnnouncementAnswered(false) || calls[0].ReadThrew?) && calls[1..] == [] && over
  }

  /** The loop over the requests, from request `i` on: an error skips the rest of a request, not the next one. */
  predicate LoopTrace(m: nat, i: nat, calls: seq<Call>, over: bool)
    decreases |calls|
  {
    if i >= m then calls == [] && over
    else if calls == [] then !over
    else
      && calls[0].HeaderWritten? && calls[0].index == i
      && if calls[0].ok then ContentTrace(m, i, calls[1..], over) else LoopTrace(m, i + 1, calls[1..], over)
  }

  predicate ContentTrace(m: nat, i: nat, calls: seq<Call>, over: bool)
    decreases |calls|
  {
    if calls == [] then !over
    else
      && calls[0].ContentWritten? && calls[0].index == i
      && if calls[0].ok then ReplyTrace(m, i, calls[1..], over) else LoopTrace(m, i + 1, calls[1..], over)
  }

  /** Whatever the reply says, the loop goes on. */
  predicate ReplyTrace(m: nat, i: nat, calls: seq<Call>, over: bool)
    decreases |calls|
  {
    if calls == [] then !over
    else if calls[0].ReadThrew? then calls[1..] == [] && over
    else calls[0].PieceAnswered? && calls[0].index == i && LoopTrace(m, i + 1, calls[1..], over)
  }

  /** The traces the program has from a program point on. */
  predicate TraceFrom(m: nat, phase: ClientPhase, calls: seq<Call>, over: bool) {
    match phase
    case SendingPre => MainTrace(m, calls, over)
    case AwaitingPre => FirstReplyTrace(m, calls, over)
    case SendingHeader(i) => LoopTrace(m, i, calls, over)
    case SendingContent(i) => ContentTrace(m, i, calls, over)
    case AwaitingReply(i) => ReplyTrace(m, i, calls, over)
    case Done => calls == [] && over
  }

  // ---------------------------------------------------------------------------
  // The calls of a run
  // ---------------------------------------------------------------------------

  function WriteCall(phase: ClientPhase, ok: bool): Call
    requires phase.SendingPre? || phase.SendingHeader? || phase.SendingContent?
  {
    match phase
    case SendingPre => AnnouncementWritten(ok)
    case SendingHeader(i) => HeaderWritten(i, ok)
    case SendingContent(i) => ContentWritten(i, ok)
  }

  function ReadCall(phase: ClientPhase, accepted: bool): Call
    requires phase.AwaitingPre? || phase.AwaitingReply?
  {
    if phase.AwaitingPre? then AnnouncementAnswered(accepted) else PieceAnswered(phase.index, accepted)
  }

  /** The call of the client that an event is, if it is one. */
  function CallOf(s: System, e: Event): Option<Call>
    requires SysOk(s) && Enabled(s, e)
  {
    match e
    case ClientWrite(_) => Some(WriteCall(s.client.phase, true))
    case ClientWriteError => Some(WriteCall(s.client.phase, false))
    case ClientRead(n) => Some(ReadCall(s.client.phase, s.toClient[..n] == Ascii("SUCCESS")))
    case ClientReadError => Some(ReadThrew)
    case _ => None
  }

  function CallsOf(s: System, es: seq<Event>): seq<Call>
    requires SysOk(s) && ValidRun(s, es)
    decreases es
  {
    if es == [] then []
    else
      var call, rest := CallOf(s, es[0]), CallsOf(Step(s, es[0]), es[1..]);
      if call.None? then rest else [call.value] + rest
  }

  lemma TracePrepend(s: System, e: Event, calls: seq<Call>, over: bool)
    requires SysOk(s) && Enabled(s, e) && TraceFrom(|s.job.parts|, Step(s, e).client.phase, calls, over)
    ensures var call := CallOf(s, e);
            TraceFrom(|s.job.parts|, s.client.phase, if call.None? then calls else [call.value] + calls, over)
  {
    var call := CallOf(s, e);
    if call.Some? {
      RepliesAreText();
      assert ([call.value] + calls)[1..] == calls;
    } else {
      assert Step(s, e).client == s.client;
    }
  }

  /** Every run of the system makes the client do what the program text says, and return when the text returns. */
  lemma {:induction false} ClientFollowsProgram(s: System, es: seq<Event>)
    requires SysOk(s) && ValidRun(s, es)
    ensures TraceFrom(|s.job.parts|, s.client.phase, CallsOf(s, es), RunOf(s, es).client.phase.Done?)
    decreases es
  {
    if es != [] {
      ClientFollowsProgram(Step(s, es[0]), es[1..]);
      TracePrepend(s, es[0], CallsOf(Step(s, es[0]), es[1..]), RunOf(s, es).client.phase.Done?);
    }
  }

  // ---------------------------------------------------------------------------
  // After a failed write
  // ---------------------------------------------------------------------------

  /**
   * A failed write of the announcement ends the client. After any other the header of the next piece is written next,
   * if there is one, and nothing else has changed.
   */
  lemma WriteErrorGoesOn(s: System)
    requires SysOk(s) && Enabled(s, ClientWriteError)
    ensures var t := Step(s, ClientWriteError);
            && t == s.(client := t.client) && t.client.answers == s.client.answers
            && if s.client.phase.SendingPre? || s.client.phase.index + 1 >= |s.job.parts| then t.client.phase.Done?
               else Writes(t.client) && Outgoing(t.job, t.client) == HeaderBytes(s.job, s.client.phase.index + 1)
  {
  }

  predicate Tried(calls: seq<Call>, i: nat) {
    HeaderWritten(i, true) in calls || HeaderWritten(i, false) in calls
  }

  lemma TriedLater(calls: seq<Call>, n: nat, i: nat)
    requires n <= |calls| && Tried(calls[n..], i)
    ensures Tried(calls, i)
  {
  }

  /** A loop that ended without an exception has tried every request. */
  lemma {:induction false} LoopTriesAll(m: nat, i: nat, calls: seq<Call>, k: nat)
    requires LoopTrace(m, i, calls, true) && ReadThrew !in calls && i <= k < m
    ensures Tried(calls, k)
    decreases |calls|
  {
    if k == i {
      assert calls[0] in calls;
    } else if !calls[0].ok {
      LoopTriesAll(m, i + 1, calls[1..], k);
      TriedLater(calls, 1, k);
    } else {
      ContentTriesAll(m, i, calls[1..], k);
      TriedLater(calls, 1, k);
    }
  }

  lemma {:induction false} ContentTriesAll(m: nat, i: nat, calls: seq<Call>, k: nat)
    requires ContentTrace(m, i, calls, true) && ReadThrew !in calls && i < k < m
    ensures Tried(calls, k)
    decreases |calls|
  {
    if !calls[0].ok {
      LoopTriesAll(m, i + 1, calls[1..], k);
    } else {
      ReplyTriesAll(m, i, calls[1..], k);
    }
    TriedLater(calls, 1, k);
  }

  lemma {:induction false} ReplyTriesAll(m: nat, i: nat, calls: seq<Call>, k: nat)
    requires ReplyTrace(m, i, calls, true) && ReadThrew !in calls && i < k < m
    ensures Tried(calls, k)
    decreases |calls|
  {
    assert calls[0] in calls;
    LoopTriesAll(m, i + 1, calls[1..], k);
    TriedLater(calls, 1, k);
  }

  lemma {:induction false} ThrowsOnlyOnReadError(s: System, es: seq<Event>)
    requires SysOk(s) && ValidRun(s, es) && ClientReadError !in es
    ensures ReadThrew !in CallsOf(s, es)
    decreases es
  {
    if es != [] {
      assert es == [es[0]] + es[1..];
      ThrowsOnlyOnReadError(Step(s, es[0]), es[1..]);
    }
  }

  /** A client that was accepted, met no read error and has returned has tried to send every piece. */
  lemma FinishedClientTriedAll(job: Job, files: Files, es: seq<Event>, k: nat)
    requires JobShape(job) && ValidRun(Start(job, files), es) && ClientReadError !in es && k < |job.parts|
    requires AnnouncementAnswered(true) in CallsOf(Start(job, files), es)
    requires RunOf(Start(job, files), es).client.phase.Done?
    ensures Tried(CallsOf(Start(job, files), es), k)
  {
    var calls := CallsOf(Start(job, files), es);
    ClientFollowsProgram(Start(job, files), es);
    ThrowsOnlyOnReadError(Start(job, files), es);
    AcceptedIsSecond(|job.parts|, calls);
    assert calls[1..][1..] == calls[2..];
    LoopTriesAll(|job.parts|, 0, calls[2..], k);
    TriedLater(calls, 2, k);
  }

  lemma AcceptedIsSecond(m: nat, calls: seq<Call>)
    requires MainTrace(m, calls, true) && AnnouncementAnswered(true) in calls
    ensures |calls| >= 2 && LoopTrace(m, 0, calls[1..][1..], true)
  {
    if |calls| < 2 || calls[1] != AnnouncementAnswered(true) {
      assert false;
    }
  }
}
