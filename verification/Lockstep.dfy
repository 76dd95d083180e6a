/** The inductive invariant of the honest system, and what follows: lockstep and progress. */
module Lockstep {
  import opened MachineTypes
  import opened Headers
  import opened FileStore
  import opened Requests
  import opened Connection
  import opened Protocol
  import Runs

  /** The server will take the announcement. */
  predicate Acceptable(job: Job) {
    CheckPreRequest(Announcement(job.uuid, job.parts))
  }

  /** The first `n` pieces have arrived. */
  function PrefixSlots(parts: seq<Bytes>, n: nat): (r: Slots)
    ensures |r| == |parts|
    ensures forall i :: 0 <= i < |r| ==> r[i] == if i < n then Some(parts[i]) else None
  {
    seq(|parts|, i requires 0 <= i < |parts| => if i < n then Some(parts[i]) else None)
  }

  /** The client waits for the reply to message `m`; message 0 is the announcement. */
  function AwaitOf(m: nat): ClientPhase {
    if m == 0 then AwaitingPre else AwaitingReply(m - 1)
  }

  /** What the client has sent of request `j`. */
  function SentOf(job: Job, phase: ClientPhase, j: nat): Bytes
    requires JobOk(job) && j < |job.parts|
  {
    if phase == SendingContent(j) then HeaderBytes(job, j)
    else if phase == AwaitingReply(j) then HeaderBytes(job, j) + job.parts[j]
    else []
  }

  /** The client is busy with request `j`, or finished if there is none. */
  predicate BusyWith(job: Job, phase: ClientPhase, j: nat) {
    if j < |job.parts| then phase == SendingHeader(j) || phase == SendingContent(j) || phase == AwaitingReply(j)
    else phase == Done
  }

  predicate AllTrue(answers: seq<bool>, n: nat) {
    |answers| == n && false !in answers
  }

  /** Nothing has been announced to the server yet. */
  ghost predicate BeforeAnnouncement(s: System) {
    && s.link == Runs.Link(INITIAL, s.link.inbox, 0) && s.client.answers == [] && s.toClient == []
    && (s.client.phase == SendingPre || s.client.phase == AwaitingPre)
    && s.link.inbox + s.toServer == if s.client.phase == SendingPre then [] else PreBytes(s.job)
  }

  /** Replies the server has issued but the client has not read: at most the latest one. */
  ghost predicate RepliesInStep(s: System, j: nat) {
    if s.link.conn.phase.Responding? && !s.flushed then
      s.client.phase == AwaitOf(j) && AllTrue(s.client.answers, j) && s.toClient == []
    else
      || (s.client.phase == AwaitOf(j) && AllTrue(s.client.answers, j) && s.toClient == SUCCESS)
      || (BusyWith(s.job, s.client.phase, j) && AllTrue(s.client.answers, j + 1) && s.toClient == [])
  }

  /** The directory as it was, and as it is once the pieces are stored. */
  datatype Ends = Ends(before: Files, after: Files)

  function EndsOf(job: Job, files: Files): Ends {
    Ends(files, SaveAll(files, job.uuid, job.parts))
  }

  /** Where the server is once it has accepted the announcement and the first `j` pieces. */
  ghost predicate ServerAt(c: Conn, job: Job, j: nat) {
    && j <= |job.parts| && AllTrue(c.replies, j + 1)
    && c.pre == Announcement(job.uuid, job.parts) && c.slots == PrefixSlots(job.parts, j)
    && (j == |job.parts| ==> c.phase == Responding(SaveHorcruxes) || c.phase == Saved)
    && (j < |job.parts| ==> c.phase == Responding(ReadNext) || c.phase == ReadingHeader || c.phase == ReadingContent)
    && (c.phase == ReadingContent ==> j < |job.parts| && c.req == RequestHeaderFor(job.uuid, job.parts, j))
  }

  /** The bytes under way are what the client has sent of request `j`, less the header if it was read. */
  ghost predicate PipeInStep(job: Job, client: ClientPhase, server: Phase, pipe: Bytes, j: nat)
    requires JobOk(job)
  {
    if j >= |job.parts| then pipe == []
    else if server == ReadingContent then
      && (client == SendingContent(j) || client == AwaitingReply(j))
      && pipe == SentOf(job, client, j)[REQUEST_SIZE..]
    else pipe == SentOf(job, client, j)
  }

  ghost predicate AfterPieces(s: System, ends: Ends, j: nat)
    requires JobOk(s.job)
  {
    && ServerAt(s.link.conn, s.job, j)
    && RepliesInStep(s, j)
    && PipeInStep(s.job, s.client.phase, s.link.conn.phase, s.link.inbox + s.toServer, j)
    && s.files == if s.link.conn.phase.Saved? then ends.after else ends.before
  }

  /** The server has refused the announcement. */
  ghost predicate AfterRefusal(s: System, ends: Ends) {
    var c := s.link.conn;
    && (c.phase == Responding(Stop) || c.phase == Rejected) && c.replies == [false]
    && s.link.inbox + s.toServer == [] && s.files == ends.before
    && if c.phase.Responding? && !s.flushed then
         s.client == Client(AwaitingPre, []) && s.toClient == []
       else
         || (s.client == Client(AwaitingPre, []) && s.toClient == FAILURE)
         || (s.client == Client(Done, [false]) && s.toClient == [])
  }

  /** How the two sides and the bytes between them fit together. */
  ghost predicate InStep(s: System, ends: Ends)
    requires JobOk(s.job)
  {
    && (!s.link.conn.phase.Responding? ==> !s.flushed)
    && if s.link.conn.phase.ReadingPreRequest? then BeforeAnnouncement(s) && s.files == ends.before
       else if Acceptable(s.job) then |s.link.conn.replies| > 0 && AfterPieces(s, ends, |s.link.conn.replies| - 1)
       else AfterRefusal(s, ends)
  }

  ghost predicate SysInv(s: System, files: Files) {
    SysOk(s) && JobOk(s.job) && InStep(s, EndsOf(s.job, files))
  }

  lemma StartInv(job: Job, files: Files)
    requires JobOk(job)
    ensures SysInv(Start(job, files), files)
  {
  }

  // ---------------------------------------------------------------------------
  // Every step keeps the invariant
  // ---------------------------------------------------------------------------

  lemma PrefixOfBoth<T>(a: seq<T>, b: seq<T>, n: nat)
    requires n <= |a|
    ensures (a + b)[..n] == a[..n] && (a + b)[n..] == a[n..] + b
  {
  }

  /** The client program is at request `i`, so the server is too. */
  lemma BusyClient(s: System, ends: Ends, i: nat)
    requires JobOk(s.job) && InStep(s, ends)
    requires s.client.phase == SendingHeader(i) || s.client.phase == SendingContent(i)
    ensures Acceptable(s.job) && !s.link.conn.phase.ReadingPreRequest?
    ensures |s.link.conn.replies| == i + 1 && i < |s.job.parts| && AfterPieces(s, ends, i)
    ensures AllTrue(s.client.answers, i + 1) && s.toClient == []
  {
    assert !s.link.conn.phase.ReadingPreRequest? && Acceptable(s.job);
    var j := |s.link.conn.replies| - 1;
    assert AfterPieces(s, ends, j) && s.client.phase != AwaitOf(j);
    assert BusyWith(s.job, s.client.phase, j);
  }

  lemma AnnouncementSent(s: System, t: System, ends: Ends)
    requires JobOk(s.job) && InStep(s, ends) && s.client.phase.SendingPre?
    requires t == s.(client := s.client.(phase := AwaitingPre), toServer := s.toServer + PreBytes(s.job))
    ensures InStep(t, ends)
  {
    var out := PreBytes(s.job);
    assert BeforeAnnouncement(s) && s.link.inbox == [] && s.toServer == [];
    assert [] + ([] + out) == out;
  }

  lemma HeaderSent(s: System, t: System, ends: Ends, i: nat)
    requires JobOk(s.job) && AfterPieces(s, ends, i) && i < |s.job.parts| && s.client.phase == SendingHeader(i)
    requires t == s.(client := s.client.(phase := SendingContent(i)), toServer := s.toServer + HeaderBytes(s.job, i))
    ensures AfterPieces(t, ends, i)
  {
    var out := HeaderBytes(s.job, i);
    assert s.link.inbox + s.toServer == [];
    assert s.link.inbox + (s.toServer + out) == out;
    assert SentOf(s.job, t.client.phase, i) == out;
  }

  lemma ContentSent(s: System, t: System, ends: Ends, i: nat)
    requires JobOk(s.job) && AfterPieces(s, ends, i) && i < |s.job.parts| && s.client.phase == SendingContent(i)
    requires t == s.(client := s.client.(phase := AwaitingReply(i)), toServer := s.toServer + s.job.parts[i])
    ensures AfterPieces(t, ends, i)
  {
    var out := s.job.parts[i];
    assert s.link.inbox + (s.toServer + out) == s.link.inbox + s.toServer + out;
    PrefixOfBoth(HeaderBytes(s.job, i), out, REQUEST_SIZE);
  }

  lemma InStepAt(s: System, ends: Ends, j: nat)
    requires JobOk(s.job) && Acceptable(s.job) && AfterPieces(s, ends, j) && |s.link.conn.replies| == j + 1
    requires !s.link.conn.phase.ReadingPreRequest? && (!s.link.conn.phase.Responding? ==> !s.flushed)
    ensures InStep(s, ends)
  {
  }

  /** The client wrote its whole next buffer. */
  lemma BufferSent(s: System, t: System, ends: Ends)
    requires JobOk(s.job) && ClientInRange(s.job, s.client) && InStep(s, ends) && Writes(s.client)
    requires t == s.(client := AfterWrite(s.client), toServer := s.toServer + Outgoing(s.job, s.client))
    ensures InStep(t, ends)
  {
    match s.client.phase {
      case SendingPre => AnnouncementSent(s, t, ends);
      case SendingHeader(i) =>
        BusyClient(s, ends, i);
        HeaderSent(s, t, ends, i);
        InStepAt(t, ends, i);
      case SendingContent(i) =>
        BusyClient(s, ends, i);
        ContentSent(s, t, ends, i);
        InStepAt(t, ends, i);
    }
  }

  lemma ClientWriteKeeps(s: System, e: Event, ends: Ends)
    requires SysOk(s) && JobOk(s.job) && InStep(s, ends) && Enabled(s, e) && Whole(s, e) && e.ClientWrite?
    ensures InStep(Step(s, e), ends)
  {
    assert Outgoing(s.job, s.client)[..e.count] == Outgoing(s.job, s.client);
    BufferSent(s, Step(s, e), ends);
  }

  /** Only the bytes under way matter, not how far they have got. */
  lemma SamePipe(s: System, t: System, ends: Ends)
    requires JobOk(s.job) && InStep(s, ends)
    requires t == s.(toServer := t.toServer, link := s.link.(inbox := t.link.inbox))
    requires t.link.inbox + t.toServer == s.link.inbox + s.toServer
    ensures InStep(t, ends)
  {
  }

  lemma DeliverKeeps(s: System, e: Event, ends: Ends)
    requires SysOk(s) && JobOk(s.job) && InStep(s, ends) && Enabled(s, e) && e.Deliver?
    ensures InStep(Step(s, e), ends)
  {
    var a, b := s.toServer[..e.count], s.toServer[e.count..];
    assert s.toServer == a + b;
    assert s.link.inbox + a + b == s.link.inbox + s.toServer;
    SamePipe(s, Step(s, e), ends);
  }

  lemma ReplyFlushed(s: System, t: System, ends: Ends)
    requires JobOk(s.job) && InStep(s, ends) && s.link.conn.phase.Responding? && !s.flushed
    requires |s.link.conn.replies| > 0
    requires s.link.conn.message == ReplyText(s.link.conn.replies[|s.link.conn.replies| - 1])
    requires t == s.(toClient := s.toClient + s.link.conn.message, flushed := true)
    ensures InStep(t, ends)
  {
    var n := |s.link.conn.replies|;
    if Acceptable(s.job) {
      assert s.link.conn.replies[n - 1] in s.link.conn.replies;
    }
    assert s.toClient == [] && [] + s.link.conn.message == s.link.conn.message;
  }

  lemma ServerFlushKeeps(s: System, e: Event, ends: Ends)
    requires SysOk(s) && JobOk(s.job) && InStep(s, ends) && Enabled(s, e) && e.ServerFlush?
    ensures InStep(Step(s, e), ends)
  {
    ReplyFlushed(s, Step(s, e), ends);
  }

  lemma PiecesHandled(s: System, t: System, ends: Ends, j: nat)
    requires JobOk(s.job) && AfterPieces(s, ends, j) && s.link.conn.phase.Responding? && s.flushed
    requires t == s.(flushed := false, files := t.files, link := t.link)
    requires t.link.conn == OnWritten(s.link.conn) && t.link.inbox == s.link.inbox
    requires t.files == if s.link.conn.phase.next.SaveHorcruxes? then ends.after else s.files
    ensures AfterPieces(t, ends, j)
  {
  }

  /** The write handler ran: the server reads on, or has saved, or has stopped. */
  lemma HandlerRan(s: System, t: System, ends: Ends)
    requires JobOk(s.job) && InStep(s, ends) && s.link.conn.phase.Responding? && s.flushed
    requires t == s.(flushed := false, files := t.files, link := t.link)
    requires t.link.conn == OnWritten(s.link.conn) && t.link.inbox == s.link.inbox
    requires t.files == if s.link.conn.phase.next.SaveHorcruxes? then ends.after else s.files
    ensures InStep(t, ends)
  {
    if Acceptable(s.job) {
      var j := |s.link.conn.replies| - 1;
      PiecesHandled(s, t, ends, j);
      InStepAt(t, ends, j);
    }
  }

  lemma SavesThePieces(s: System, ends: Ends)
    requires JobOk(s.job) && InStep(s, ends) && s.link.conn.phase == Responding(SaveHorcruxes)
    ensures AllFilled(s.link.conn.slots) && SlotContents(s.link.conn.slots) == s.job.parts
    ensures s.link.conn.pre.uuid == s.job.uuid && s.files == ends.before
  {
    assert AfterPieces(s, ends, |s.link.conn.replies| - 1);
  }

  lemma ServerWrittenKeeps(s: System, e: Event, ends: Ends)
    requires SysOk(s) && JobOk(s.job) && InStep(s, ends) && Enabled(s, e) && e.ServerWritten?
    requires ends == EndsOf(s.job, ends.before)
    ensures InStep(Step(s, e), ends)
  {
    if s.link.conn.phase.next.SaveHorcruxes? {
      SavesThePieces(s, ends);
    }
    HandlerRan(s, Step(s, e), ends);
  }

  lemma ReplyRead(s: System, t: System, ends: Ends)
    requires JobOk(s.job) && InStep(s, ends) && Awaits(s.client) && s.toClient != []
    requires t == s.(toClient := [], client := AfterRead(s.job, s.client, s.toClient))
    ensures InStep(t, ends)
  {
    if Acceptable(s.job) {
      var j := |s.link.conn.replies| - 1;
      assert AfterPieces(s, ends, j) && s.toClient == SUCCESS;
      assert BusyWith(s.job, t.client.phase, j);
      assert AllTrue(t.client.answers, j + 1);
      assert AfterPieces(t, ends, j);
    }
  }

  lemma ClientReadKeeps(s: System, e: Event, ends: Ends)
    requires SysOk(s) && JobOk(s.job) && InStep(s, ends) && Enabled(s, e) && Whole(s, e) && e.ClientRead?
    ensures InStep(Step(s, e), ends)
  {
    UnreadIsShort(s, ends);
    assert s.toClient[..e.count] == s.toClient && s.toClient[e.count..] == [];
    ReplyRead(s, Step(s, e), ends);
  }

  lemma UnreadIsShort(s: System, ends: Ends)
    requires JobOk(s.job) && InStep(s, ends)
    ensures |s.toClient| <= 7 && (s.toClient != [] ==> Awaits(s.client))
  {
  }

  /** `t` is `s` after the server read `n` bytes and its connection became `c`. */
  ghost predicate ReadInto(s: System, t: System, n: nat, c: Conn) {
    && n <= |s.link.inbox|
    && t == s.(flushed := false, link := s.link.(conn := c, inbox := s.link.inbox[n..]))
  }

  lemma AnnouncementRead(s: System, t: System, ends: Ends)
    requires JobOk(s.job) && InStep(s, ends) && s.link.conn.phase.ReadingPreRequest? && |s.link.inbox| >= PRE_SIZE
    requires ReadInto(s, t, PRE_SIZE, OnPreRequest(s.link.conn, s.link.inbox[..PRE_SIZE]))
    ensures InStep(t, ends)
  {
    PrefixOfBoth(s.link.inbox, s.toServer, PRE_SIZE);
    assert s.link.inbox[..PRE_SIZE] == PreBytes(s.job) && s.link.inbox[PRE_SIZE..] + s.toServer == [];
    ParseOfPreImage(Announcement(s.job.uuid, s.job.parts));
    if Acceptable(s.job) {
      assert Resize(INITIAL.slots, |s.job.parts|) == PrefixSlots(s.job.parts, 0);
      assert AfterPieces(t, ends, 0);
    }
  }

  lemma HeaderRead(s: System, t: System, ends: Ends, j: nat)
    requires JobOk(s.job) && AfterPieces(s, ends, j) && s.link.conn.phase.ReadingHeader? && !s.flushed
    requires |s.link.inbox| >= REQUEST_SIZE
    requires ReadInto(s, t, REQUEST_SIZE, OnHeader(s.link.conn, s.link.inbox[..REQUEST_SIZE]))
    ensures AfterPieces(t, ends, j) && t.link.conn.phase.ReadingContent? && t.link.conn.replies == s.link.conn.replies
  {
    var sent := SentOf(s.job, s.client.phase, j);
    PrefixOfBoth(s.link.inbox, s.toServer, REQUEST_SIZE);
    assert s.link.inbox[..REQUEST_SIZE] == sent[..REQUEST_SIZE] == HeaderBytes(s.job, j);
    ParseOfRequestImage(RequestHeaderFor(s.job.uuid, s.job.parts, j), s.job.padding[j]);
  }

  lemma StorePiece(c: Conn, parts: seq<Bytes>, j: nat)
    requires j < |parts| && c.slots == PrefixSlots(parts, j) && c.req.index == j
    ensures var next := if j + 1 == |parts| then SaveHorcruxes else ReadNext;
            OnContent(c, parts[j]) == Respond(c.(slots := PrefixSlots(parts, j + 1)), true, next)
  {
    var slots := c.slots[j := Some(parts[j])];
    assert slots == PrefixSlots(parts, j + 1);
    if j + 1 < |parts| {
      assert slots[j + 1].None?;
    }
  }

  lemma ContentRead(s: System, t: System, ends: Ends, j: nat)
    requires JobOk(s.job) && AfterPieces(s, ends, j) && s.link.conn.phase.ReadingContent? && !s.flushed
    requires |s.link.inbox| >= |s.job.parts[j]|
    requires ReadInto(s, t, |s.job.parts[j]|, OnContent(s.link.conn, s.link.inbox[..|s.job.parts[j]|]))
    ensures AfterPieces(t, ends, j + 1) && t.link.conn.phase.Responding? && |t.link.conn.replies| == j + 2
  {
    var content := s.job.parts[j];
    PrefixOfBoth(s.link.inbox, s.toServer, |content|);
    assert (HeaderBytes(s.job, j) + content)[REQUEST_SIZE..] == content;
    assert s.client.phase == AwaitingReply(j) == AwaitOf(j + 1);
    assert s.link.inbox[..|content|] == content && s.link.inbox[|content|..] + s.toServer == [];
    StorePiece(s.link.conn, s.job.parts, j);
    assert ServerAt(t.link.conn, s.job, j + 1);
  }

  lemma ReadStep(s: System, e: Event)
    requires SysOk(s) && Enabled(s, e) && e.ServerRead?
    ensures var n := Need(s.link.conn); ReadInto(s, Step(s, e), n, OnRead(s.link.conn, s.link.inbox[..n]))
  {
  }

  /** Enough of the invariant for the server's next read. */
  lemma PiecesRead(s: System, t: System, ends: Ends)
    requires JobOk(s.job) && InStep(s, ends) && Reading(s.link.conn) && !s.link.conn.phase.ReadingPreRequest?
    requires |s.link.inbox| >= Need(s.link.conn)
    requires s.link.conn.phase.ReadingContent? ==> s.link.conn.req.index < |s.link.conn.slots|
    requires ReadInto(s, t, Need(s.link.conn), OnRead(s.link.conn, s.link.inbox[..Need(s.link.conn)]))
    ensures InStep(t, ends)
  {
    var j := |s.link.conn.replies| - 1;
    if s.link.conn.phase.ReadingHeader? {
      HeaderRead(s, t, ends, j);
      InStepAt(t, ends, j);
    } else {
      ContentRead(s, t, ends, j);
      InStepAt(t, ends, j + 1);
    }
  }

  lemma ServerReadKeeps(s: System, e: Event, ends: Ends)
    requires SysOk(s) && JobOk(s.job) && InStep(s, ends) && Enabled(s, e) && e.ServerRead?
    ensures InStep(Step(s, e), ends)
  {
    ReadStep(s, e);
    if s.link.conn.phase.ReadingPreRequest? {
      AnnouncementRead(s, Step(s, e), ends);
    } else {
      PiecesRead(s, Step(s, e), ends);
    }
  }

  lemma StepKeepsInv(s: System, e: Event, files: Files)
    requires SysInv(s, files) && Enabled(s, e) && Whole(s, e)
    ensures SysInv(Step(s, e), files)
  {
    var ends := EndsOf(s.job, files);
    match e {
      case ClientWrite(_) => ClientWriteKeeps(s, e, ends);
      case Deliver(_) => DeliverKeeps(s, e, ends);
      case ServerRead => ServerReadKeeps(s, e, ends);
      case ServerFlush => ServerFlushKeeps(s, e, ends);
      case ServerWritten => ServerWrittenKeeps(s, e, ends);
      case ClientRead(_) => ClientReadKeeps(s, e, ends);
      case _ =>
    }
  }

  lemma {:induction false} RunKeepsInv(s: System, es: seq<Event>, files: Files)
    requires SysInv(s, files) && WholeRun(s, es)
    ensures ValidRun(s, es) && SysInv(RunOf(s, es), files)
    decreases es
  {
    if es != [] {
      StepKeepsInv(s, es[0], files);
      RunKeepsInv(Step(s, es[0]), es[1..], files);
    }
  }

  // ---------------------------------------------------------------------------
  // Lockstep
  // ---------------------------------------------------------------------------

  /** Messages the client has sent in full, the announcement included. */
  function MessagesSent(phase: ClientPhase, answers: nat): nat {
    if phase.AwaitingPre? || phase.AwaitingReply? then answers + 1 else answers
  }

  /**
   * In every reachable state the server has answered no more messages than were sent, the client has read
   * all of those answers but at most the latest, in order, and what lies unread is that one reply.
   * So `read_some` into 128 bytes can never see two replies run together.
   */
  lemma RepliesStayInStep(s: System, ends: Ends)
    requires JobOk(s.job) && InStep(s, ends)
    ensures s.client.answers <= s.link.conn.replies
    ensures |s.link.conn.replies| <= MessagesSent(s.client.phase, |s.client.answers|) <= |s.client.answers| + 1
    ensures s.toClient == []
            || (|s.link.conn.replies| == |s.client.answers| + 1
                && s.toClient == ReplyText(s.link.conn.replies[|s.client.answers|]))
  {
    if !s.link.conn.phase.ReadingPreRequest? && Acceptable(s.job) {
      PiecesStayInStep(s, ends, |s.link.conn.replies| - 1);
    }
  }

  lemma PiecesStayInStep(s: System, ends: Ends, j: nat)
    requires JobOk(s.job) && AfterPieces(s, ends, j)
    ensures s.client.answers <= s.link.conn.replies
    ensures |s.link.conn.replies| <= MessagesSent(s.client.phase, |s.client.answers|) <= |s.client.answers| + 1
    ensures s.toClient == [] || (j == |s.client.answers| && s.toClient == ReplyText(s.link.conn.replies[j]))
  {
    assert RepliesInStep(s, j) && AllTrue(s.link.conn.replies, j + 1);
    PrefixOfTrues(s.client.answers, s.link.conn.replies);
    assert s.link.conn.replies[j] in s.link.conn.replies;
  }

  lemma PrefixOfTrues(a: seq<bool>, b: seq<bool>)
    requires |a| <= |b| && false !in a && false !in b
    ensures a <= b
  {
    forall i | 0 <= i < |a| ensures a[i] == b[i] {
      assert a[i] in a && b[i] in b;
    }
  }

  // ---------------------------------------------------------------------------
  // Progress
  // ---------------------------------------------------------------------------

  predicate Finished(s: System) {
    s.client.phase.Done? && Runs.Over(s.link.conn)
  }

  /** A whole-buffer event that can happen now. */
  function NextEvent(s: System): Event
    requires SysOk(s)
  {
    if Writes(s.client) then ClientWrite(|Outgoing(s.job, s.client)|)
    else if s.toServer != [] then Deliver(|s.toServer|)
    else if s.link.conn.phase.Responding? then if s.flushed then ServerWritten else ServerFlush
    else if Awaits(s.client) && s.toClient != [] && |s.toClient| <= READ_BUFFER then ClientRead(|s.toClient|)
    else ServerRead
  }

  /** No deadlock: until both sides are finished some step is possible. */
  lemma Progress(s: System, files: Files)
    requires SysInv(s, files) && !Finished(s)
    ensures Enabled(s, NextEvent(s)) && Whole(s, NextEvent(s))
  {
    UnreadIsShort(s, EndsOf(s.job, files));
    if !Writes(s.client) && s.toServer == [] && !s.link.conn.phase.Responding? && s.toClient == [] {
      QuietServerCanRead(s, EndsOf(s.job, files));
    }
  }

  lemma QuietPieces(s: System, ends: Ends, j: nat)
    requires JobOk(s.job) && AfterPieces(s, ends, j) && s.client.phase != Done
    requires !Writes(s.client) && s.toServer == [] && !s.link.conn.phase.Responding? && s.toClient == []
    ensures Reading(s.link.conn) && |s.link.inbox| >= Need(s.link.conn) && Awaits(s.client)
  {
    assert BusyWith(s.job, s.client.phase, j);
    assert j < |s.job.parts| && s.client.phase == AwaitingReply(j);
    var sent := SentOf(s.job, s.client.phase, j);
    assert |sent| == REQUEST_SIZE + |s.job.parts[j]|;
    assert s.link.inbox + s.toServer == s.link.inbox;
  }

  lemma QuietServerCanRead(s: System, ends: Ends)
    requires JobOk(s.job) && InStep(s, ends) && !Finished(s)
    requires !Writes(s.client) && s.toServer == [] && !s.link.conn.phase.Responding? && s.toClient == []
    ensures Reading(s.link.conn) && |s.link.inbox| >= Need(s.link.conn) && Awaits(s.client)
  {
    assert s.link.inbox + s.toServer == s.link.inbox;
    if !s.link.conn.phase.ReadingPreRequest? && Acceptable(s.job) {
      QuietPieces(s, ends, |s.link.conn.replies| - 1);
    }
  }
}
