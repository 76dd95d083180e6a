/**
 * Runs in which nothing fails before the client's last byte is written: how far replies may run ahead of the client's
 * reads, and that with whole writes and a whole first reply the client gets through all of its stream.
 */
module LateFailures {
  import opened MachineTypes
  import opened Headers
  import opened FileStore
  import opened Requests
  import opened Connection
  import opened Protocol
  import opened Termination
  import opened Transmission
  import opened WholeStream
  import opened Transfers
  import Runs

  /** No read or write fails before the client has written its last byte. */
  predicate FailsLate(s: System, es: seq<Event>)
    requires SysOk(s) && ValidRun(s, es)
    decreases es
  {
    || es == [] || Unsent(s.job, s.client.phase) == 0
    || (!Fails(es[0]) && FailsLate(Step(s, es[0]), es[1..]))
  }

  // ---------------------------------------------------------------------------
  // What the client has been answered
  // ---------------------------------------------------------------------------

  /** The first answer was taken for a refusal. */
  predicate Refused(c: Client) {
    c.answers != [] && !c.answers[0]
  }

  /** Answers are counted by the program point, unless the client has given up. */
  predicate AnswersOk(job: Job, c: Client) {
    match c.phase
    case SendingPre => c.answers == []
    case AwaitingPre => c.answers == []
    case SendingHeader(i) => |c.answers| == i + 1 && c.answers[0]
    case SendingContent(i) => |c.answers| == i + 1 && c.answers[0]
    case AwaitingReply(i) => |c.answers| == i + 1 && c.answers[0]
    case Done => c.answers != [] && (c.answers[0] ==> |c.answers| == |job.parts| + 1)
  }

  lemma AnswersStep(s: System, e: Event)
    requires SysOk(s) && Enabled(s, e) && !Fails(e) && AnswersOk(s.job, s.client)
    ensures AnswersOk(s.job, Step(s, e).client) && s.client.answers <= Step(s, e).client.answers
    ensures !e.ClientRead? ==> Step(s, e).client.answers == s.client.answers
  {
  }

  /** While nothing fails and nothing is refused, only a short write gives bytes of the stream up. */
  lemma NothingLost(s: System, e: Event)
    requires SysOk(s) && Enabled(s, e) && !Fails(e) && (e.ClientWrite? ==> Whole(s, e))
    requires AnswersOk(s.job, s.client) && !Refused(Step(s, e).client)
    ensures Lost(s, e) == 0
  {
  }

  // ---------------------------------------------------------------------------
  // The server's answers
  // ---------------------------------------------------------------------------

  /** Replies as they go over the wire. */
  function ReplyBytes(replies: seq<bool>): (b: Bytes)
    ensures |b| == 7 * |replies|
  {
    if replies == [] then [] else ReplyBytes(replies[..|replies| - 1]) + ReplyText(replies[|replies| - 1])
  }

  lemma {:induction false} FirstReplyBytes(replies: seq<bool>)
    requires replies != []
    ensures ReplyBytes(replies)[..7] == ReplyText(replies[0])
  {
    var n := |replies|;
    if n == 1 {
      assert replies[..0] == [];
    } else {
      FirstReplyBytes(replies[..n - 1]);
      assert ReplyBytes(replies)[..7] == ReplyBytes(replies[..n - 1])[..7];
    }
  }

  lemma {:induction false} RepliesOnlyGrow(l: Runs.Link)
    requires Runs.LinkInv(l)
    ensures l.conn.replies <= Runs.Settle(l).conn.replies
    decreases |l.inbox|, Runs.Rank(l.conn)
  {
    if Runs.CanMove(l) {
      RepliesOnlyGrow(Runs.Move(l));
    }
  }

  /** Where the server comes to rest on the announcement and the first `m` requests. */
  function Rested(job: Job, m: nat): (l: Runs.Link)
    requires JobShape(job) && m <= |job.parts|
    ensures Runs.LinkInv(l) && !Runs.CanMove(l)
  {
    Runs.Settle(Runs.Receive(Runs.FRESH, PreBytes(job) + Sent(job, m)))
  }

  /** It has then answered each of those messages, and nothing else, with success. */
  lemma RestedReplies(job: Job, m: nat)
    requires JobOk(job) && CheckPreRequest(Announcement(job.uuid, job.parts)) && m <= |job.parts|
    ensures |Rested(job, m).conn.replies| == m + 1 && false !in Rested(job, m).conn.replies
  {
    var l := Rested(job, m);
    if m == |job.parts| {
      ServerStoresAnnounced(job);
      NumEmptyZero(l.conn.slots);
      assert |SlotContents(l.conn.slots)| == m;
    } else {
      RestedBeforeEnd(job, m);
    }
  }

  lemma RestedBeforeEnd(job: Job, m: nat)
    requires JobOk(job) && CheckPreRequest(Announcement(job.uuid, job.parts)) && m < |job.parts|
    ensures AwaitsRequest(Rested(job, m)) && |Rested(job, m).conn.slots| == |job.parts|
    ensures NumEmpty(Rested(job, m).conn.slots) == |job.parts| - m
  {
    var ms := Framed(job, m);
    ParseOfPreImage(Announcement(job.uuid, job.parts));
    FramesAreSent(job, m);
    var l := TakePreRequest(PreBytes(job), Wire(ms));
    forall j | 0 <= j < m
      ensures WellFormed(ms[j]) && Index(ms[j]) == j
      ensures CheckRequest(l.conn.pre.uuid, l.conn.slots, ParseRequest(ms[j].header))
    {
      FrameIsWellFormed(job, j);
    }
    assert Wire(ms) + [] == Wire(ms);
    var _ := TakeSome(l, ms, []);
  }

  /** The replies that are on the wire or behind it. */
  function FlushedReplies(s: System): seq<bool>
    requires SysOk(s)
  {
    if s.link.conn.phase.Responding? && !s.flushed then s.link.conn.replies[..|s.link.conn.replies| - 1]
    else s.link.conn.replies
  }

  /** The server heads for where the client's stream so far takes it. */
  ghost predicate OnCourse(s: System)
    requires SysOk(s)
  {
    Runs.Settle(Runs.Receive(s.link, s.toServer))
    == Runs.Settle(Runs.Receive(Runs.FRESH, PrefixOf(s.job, s.client.phase)))
  }

  /** What was read and what is still to be read are the replies on the wire, and reads have not overtaken answers. */
  ghost predicate Accounted(s: System, read: Bytes)
    requires SysOk(s)
  {
    && (!s.link.conn.phase.Responding? ==> !s.flushed)
    && read + s.toClient == ReplyBytes(FlushedReplies(s))
    && |read| <= 7 * |s.client.answers|
  }

  ghost predicate Promising(job: Job) {
    JobOk(job) && CheckPreRequest(Announcement(job.uuid, job.parts))
  }

  ghost predicate OnTrack(s: System, read: Bytes) {
    && SysOk(s) && Promising(s.job) && AnswersOk(s.job, s.client) && !Refused(s.client)
    && OnCourse(s) && Accounted(s, read)
  }

  /** What holds of the server's position is kept by every step that gives nothing up. */
  lemma StepStaysOnCourse(s: System, e: Event)
    requires SysOk(s) && Enabled(s, e) && !e.ServerReadError? && Lost(s, e) == 0 && OnCourse(s)
    ensures OnCourse(Step(s, e))
  {
    var w, p := WrittenBy(s, e), PrefixOf(s.job, s.client.phase);
    StepExtends(s, e);
    SameSettled(Runs.Receive(s.link, s.toServer), Runs.Receive(Runs.FRESH, p), w);
    ReceiveTwice(s.link, s.toServer, w);
    ReceiveTwice(Runs.FRESH, p, w);
    StepKeepsCourse(s, e);
  }

  /** A step takes the server nowhere it was not going with the bytes written by then. */
  lemma StepKeepsCourse(s: System, e: Event)
    requires SysOk(s) && Enabled(s, e) && !e.ServerReadError?
    ensures Runs.Settle(Runs.Receive(Step(s, e).link, Step(s, e).toServer))
            == Runs.Settle(Runs.Receive(s.link, s.toServer + WrittenBy(s, e)))
  {
    var t := Step(s, e);
    match e {
      case ClientWrite(_) =>
      case Deliver(n) =>
        assert s.toServer + [] == s.toServer[..n] + s.toServer[n..];
        ReceiveTwice(s.link, s.toServer[..n], s.toServer[n..]);
      case ServerRead => MoveKeepsCourse(s.link, s.toServer);
      case ServerWritten => MoveKeepsCourse(s.link, s.toServer);
      case _ =>
    }
    assert s.toServer + [] == s.toServer;
  }

  lemma MoveKeepsCourse(l: Runs.Link, bytes: Bytes)
    requires Runs.LinkInv(l) && Runs.CanMove(l)
    ensures Runs.Settle(Runs.Receive(Runs.Move(l), bytes)) == Runs.Settle(Runs.Receive(l, bytes))
  {
    Runs.MoveCommutes(l, bytes);
    SettleMoves(Runs.Receive(l, bytes));
  }

  /** Whenever the client waits, the server has answered at most the messages it was sent. */
  lemma RepliesBounded(s: System)
    requires SysOk(s) && Promising(s.job) && AnswersOk(s.job, s.client) && OnCourse(s) && Awaits(s.client)
    ensures |s.link.conn.replies| <= |s.client.answers| + 1 && false !in s.link.conn.replies
  {
    var m := |s.client.answers|;
    AwaitedPrefix(s.job, s.client);
    RepliesOnlyGrow(Runs.Receive(s.link, s.toServer));
    RestedReplies(s.job, m);
    assert s.link.conn.replies <= Rested(s.job, m).conn.replies;
    forall b | b in s.link.conn.replies ensures b {
      assert b in Rested(s.job, m).conn.replies;
    }
  }

  lemma AwaitedPrefix(job: Job, c: Client)
    requires JobShape(job) && ClientInRange(job, c) && AnswersOk(job, c) && Awaits(c)
    ensures |c.answers| <= |job.parts| && PrefixOf(job, c.phase) == PreBytes(job) + Sent(job, |c.answers|)
  {
    assert PreBytes(job) + [] == PreBytes(job);
  }

  /** The first seven bytes the client reads are the server's first answer. */
  lemma FirstReadIsSuccess(s: System, response: Bytes)
    requires SysOk(s) && Accounted(s, []) && false !in s.link.conn.replies
    requires |response| == |SUCCESS| && response <= s.toClient
    ensures response == SUCCESS
  {
    assert [] + s.toClient == s.toClient;
    var flushed := FlushedReplies(s);
    assert flushed != [] && flushed[0] in s.link.conn.replies;
    FirstReplyBytes(flushed);
    assert response == s.toClient[..7];
  }

  lemma ReadIsAccounted(s: System, t: System, read: Bytes, n: nat)
    requires SysOk(s) && SysOk(t) && Accounted(s, read) && n <= |s.toClient|
    requires |s.link.conn.replies| <= |s.client.answers| + 1
    requires t == s.(toClient := s.toClient[n..], client := t.client) && |t.client.answers| == |s.client.answers| + 1
    ensures Accounted(t, read + s.toClient[..n])
  {
    CutAndRegroup(read, [], s.toClient, n);
    assert read + [] == read;
  }

  lemma ReadStaysOnTrack(s: System, read: Bytes, e: Event) returns (after: Bytes)
    requires OnTrack(s, read) && Enabled(s, e) && e.ClientRead?
    requires s.client.answers == [] ==> e.count == |SUCCESS|
    ensures OnTrack(Step(s, e), after)
  {
    var response := s.toClient[..e.count];
    RepliesBounded(s);
    if s.client.answers == [] {
      assert read == [];
      FirstReadIsSuccess(s, response);
    }
    ReadIsAccounted(s, Step(s, e), read, e.count);
    AnswersStep(s, e);
    NothingLost(s, e);
    StepStaysOnCourse(s, e);
    after := read + response;
  }

  lemma OtherIsAccounted(s: System, read: Bytes, e: Event)
    requires SysOk(s) && Accounted(s, read) && Enabled(s, e) && !e.ClientRead? && !Fails(e)
    ensures Accounted(Step(s, e), read)
  {
    FlushedStep(s, e);
    if e.ServerFlush? {
      Regroup(read, s.toClient, s.link.conn.message);
    }
  }

  lemma OtherStaysOnTrack(s: System, read: Bytes, e: Event)
    requires OnTrack(s, read) && Enabled(s, e) && !Fails(e) && !e.ClientRead? && (e.ClientWrite? ==> Whole(s, e))
    ensures OnTrack(Step(s, e), read)
  {
    OtherIsAccounted(s, read, e);
    AnswersStep(s, e);
    NothingLost(s, e);
    StepStaysOnCourse(s, e);
  }

  /** Only a flush adds to the replies on the wire, and it adds the text of the latest. */
  lemma FlushedStep(s: System, e: Event)
    requires SysOk(s) && Enabled(s, e) && !e.ClientRead? && !Fails(e) && (!s.link.conn.phase.Responding? ==> !s.flushed)
    ensures var t := Step(s, e);
            && (!t.link.conn.phase.Responding? ==> !t.flushed)
            && (!e.ServerFlush? ==> FlushedReplies(t) == FlushedReplies(s) && t.toClient == s.toClient)
            && (e.ServerFlush? ==> ReplyBytes(FlushedReplies(t)) == ReplyBytes(FlushedReplies(s)) + s.link.conn.message)
  {
  }

  /** While the client waits and the server is at rest there is a reply to read. */
  lemma ReplyIsThere(s: System, read: Bytes)
    requires OnTrack(s, read) && Awaits(s.client) && s.toServer == [] && !Runs.CanMove(s.link)
    ensures s.toClient != []
  {
    var m := |s.client.answers|;
    assert Runs.Receive(s.link, []) == s.link;
    AwaitedPrefix(s.job, s.client);
    assert s.link == Rested(s.job, m);
    RestedReplies(s.job, m);
    assert |read + s.toClient| == |read| + |s.toClient|;
  }

  /** In a stuck system on track the client has finished. */
  lemma StuckOnTrackIsDone(s: System, read: Bytes)
    requires OnTrack(s, read) && Stuck(s)
    ensures s.client.phase.Done?
  {
    StuckMeansAtRest(s);
    if Awaits(s.client) {
      ReplyIsThere(s, read);
      assert false;
    }
  }

  /** From a system on track the client writes all it still has to. */
  lemma {:induction false} TrackIsWritten(s: System, read: Bytes, es: seq<Event>)
    requires OnTrack(s, read) && ValidRun(s, es) && FailsLate(s, es) && WritesWhole(s, es)
    requires s.client.answers == [] && FirstRead(es).Some? ==> FirstRead(es) == Some(|SUCCESS|)
    requires Stuck(RunOf(s, es))
    ensures |Written(s, es)| >= Unsent(s.job, s.client.phase)
    decreases es
  {
    if es == [] {
      StuckOnTrackIsDone(s, read);
    } else if Unsent(s.job, s.client.phase) > 0 {
      var e, after := es[0], read;
      if e.ClientRead? {
        after := ReadStaysOnTrack(s, read, e);
      } else {
        OtherStaysOnTrack(s, read, e);
      }
      NothingLost(s, e);
      TrackIsWritten(Step(s, e), after, es[1..]);
    }
  }

  /**
   * Within the limits whole writes and a whole first reply take the client through all of its stream, whatever the
   * later reads, when nothing fails before that.
   */
  lemma WholeWritesSuffice(job: Job, files: Files, es: seq<Event>)
    requires JobOk(job) && CheckPreRequest(Announcement(job.uuid, job.parts)) && ValidRun(Start(job, files), es)
    requires FailsLate(Start(job, files), es) && Stuck(RunOf(Start(job, files), es))
    requires WritesWhole(Start(job, files), es) && FirstRead(es) == Some(|SUCCESS|)
    ensures Written(Start(job, files), es) == Stream(job)
  {
    var s := Start(job, files);
    assert OnTrack(s, []) by {
      assert Runs.Receive(Runs.FRESH, []) == Runs.FRESH;
    }
    TrackIsWritten(s, [], es);
    AllWrittenIsStream(s, es);
    assert [] + Written(s, es) == Written(s, es);
  }
}
