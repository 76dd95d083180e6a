/** Why the client needs whole-buffer transfers: what one short `write_some` or `read_some` does to a run. */
module ShortTransfers {
  import opened MachineTypes
  import opened Headers
  import opened FileStore
  import opened Requests
  import opened Connection
  import opened Protocol
  import opened Lockstep

  // ---------------------------------------------------------------------------
  // A content cut short
  // ---------------------------------------------------------------------------

  /** The client waits for a reply to piece `i`, of which only `n` bytes will ever be sent, unless a read failed. */
  ghost predicate Hungry(s: System, files: Files, i: nat, n: nat)
    requires JobOk(s.job)
  {
    && i < |s.job.parts| && n < |s.job.parts[i]|
    && (s.client.phase == AwaitingReply(i) || s.client.phase == Done) && s.toClient == [] && s.files == files
    && (s.link.conn.phase.ReadFailed? || HungryServer(s, i, n))
  }

  ghost predicate HungryServer(s: System, i: nat, n: nat)
    requires JobOk(s.job) && i < |s.job.parts| && n < |s.job.parts[i]|
  {
    && ServerAt(s.link.conn, s.job, i)
    && (s.flushed <==> s.link.conn.phase.Responding?)
    && s.link.inbox + s.toServer ==
       (if s.link.conn.phase == ReadingContent then [] else HeaderBytes(s.job, i)) + s.job.parts[i][..n]
  }

  ghost predicate Starved(s: System, files: Files, i: nat, n: nat) {
    SysOk(s) && JobOk(s.job) && Hungry(s, files, i, n)
  }

  lemma CutContentStarves(s: System, t: System, ends: Ends, i: nat, n: nat)
    requires JobOk(s.job) && AfterPieces(s, ends, i) && i < |s.job.parts| && n < |s.job.parts[i]|
    requires s.client.phase == SendingContent(i) && s.toClient == []
    requires s.link.conn.phase.Responding? <==> s.flushed
    requires t == s.(toServer := s.toServer + s.job.parts[i][..n], client := s.client.(phase := AwaitingReply(i)))
    ensures Hungry(t, ends.before, i, n)
  {
    var header, part := HeaderBytes(s.job, i), s.job.parts[i][..n];
    assert t.link.inbox + t.toServer == s.link.inbox + s.toServer + part;
    HeaderLess(header, part);
  }

  lemma ShortContentStarves(s: System, files: Files, i: nat, n: nat)
    requires SysInv(s, files) && s.client.phase == SendingContent(i)
    requires Enabled(s, ClientWrite(n)) && n < |s.job.parts[i]|
    ensures Starved(Step(s, ClientWrite(n)), files, i, n)
  {
    BusyClient(s, EndsOf(s.job, files), i);
    assert s.link.conn.phase.Responding? ==> s.flushed by {
      assert RepliesInStep(s, i);
    }
    CutContentStarves(s, Step(s, ClientWrite(n)), EndsOf(s.job, files), i, n);
  }

  lemma HeaderLess(header: Bytes, part: Bytes)
    ensures header[|header|..] + part == [] + part
  {
  }

  lemma StarvedServerRead(s: System, files: Files, i: nat, n: nat)
    requires Starved(s, files, i, n) && Enabled(s, ServerRead)
    ensures Starved(Step(s, ServerRead), files, i, n)
  {
    var header, part := HeaderBytes(s.job, i), s.job.parts[i][..n];
    assert |s.link.inbox| <= |s.link.inbox + s.toServer|;
    if s.link.conn.phase.ReadingContent? {
      assert false;
    }
    PrefixOfBoth(s.link.inbox, s.toServer, REQUEST_SIZE);
    PrefixOfBoth(header, part, REQUEST_SIZE);
    ParseOfRequestImage(RequestHeaderFor(s.job.uuid, s.job.parts, i), s.job.padding[i]);
    assert s.link.inbox[..REQUEST_SIZE] == header;
    var t := Step(s, ServerRead);
    assert t.link.conn == OnHeader(s.link.conn, header);
    assert [] + part == part;
    assert t.link.inbox + t.toServer == part;
  }

  lemma StarvedStep(s: System, e: Event, files: Files, i: nat, n: nat)
    requires Starved(s, files, i, n) && Enabled(s, e)
    ensures Starved(Step(s, e), files, i, n)
    ensures e != ClientReadError ==> Step(s, e).client == s.client
  {
    match e {
      case Deliver(k) =>
        assert s.toServer == s.toServer[..k] + s.toServer[k..];
        assert s.link.inbox + s.toServer[..k] + s.toServer[k..] == s.link.inbox + s.toServer;
      case ServerRead => StarvedServerRead(s, files, i, n);
      case ServerWritten =>
      case _ =>
    }
  }

  lemma {:induction false} StarvedForever(s: System, es: seq<Event>, files: Files, i: nat, n: nat)
    requires Starved(s, files, i, n) && ValidRun(s, es)
    ensures Starved(RunOf(s, es), files, i, n)
    ensures s.client.phase == AwaitingReply(i) && ClientReadError !in es ==>
              RunOf(s, es).client.phase == AwaitingReply(i)
    decreases es
  {
    if es != [] {
      assert es == [es[0]] + es[1..];
      StarvedStep(s, es[0], files, i, n);
      StarvedForever(Step(s, es[0]), es[1..], files, i, n);
    }
  }

  /**
   * One short content write, at any point of any honest run: whatever happens or fails from then on nothing is saved,
   * and the client waits for ever unless its read fails.
   */
  lemma ShortContentNeverSaves(s: System, files: Files, i: nat, n: nat, es: seq<Event>)
    requires SysInv(s, files) && s.client.phase == SendingContent(i)
    requires Enabled(s, ClientWrite(n)) && n < |s.job.parts[i]|
    requires ValidRun(Step(s, ClientWrite(n)), es)
    ensures var end := RunOf(Step(s, ClientWrite(n)), es);
            && !end.link.conn.phase.Saved? && end.files == files
            && (ClientReadError !in es ==> end.client.phase == AwaitingReply(i))
  {
    ShortContentStarves(s, files, i, n);
    StarvedForever(Step(s, ClientWrite(n)), es, files, i, n);
  }

  // ---------------------------------------------------------------------------
  // A reply cut short
  // ---------------------------------------------------------------------------

  /** The client took a fragment of SUCCESS for a refusal and left; the server waits for requests, or gave up. */
  ghost predicate Abandoned(s: System, files: Files) {
    && SysOk(s) && s.client.phase == Done && s.files == files && s.link.inbox + s.toServer == []
    && (s.link.conn.phase == ReadingHeader || s.link.conn.phase == Responding(ReadNext)
        || s.link.conn.phase == ReadFailed)
  }

  lemma {:induction false} AbandonedForever(s: System, es: seq<Event>, files: Files)
    requires Abandoned(s, files) && ValidRun(s, es)
    ensures Abandoned(RunOf(s, es), files)
    decreases es
  {
    if es != [] {
      assert |s.link.inbox + s.toServer| == |s.link.inbox| + |s.toServer|;
      AbandonedForever(Step(s, es[0]), es[1..], files);
    }
  }

  /** One short read of the reply to the announcement, and an acceptable file is never sent. */
  lemma ShortReplyNeverSaves(s: System, files: Files, n: nat, es: seq<Event>)
    requires SysInv(s, files) && Acceptable(s.job) && s.client.phase == AwaitingPre
    requires Enabled(s, ClientRead(n)) && n < |s.toClient|
    requires ValidRun(Step(s, ClientRead(n)), es)
    ensures var end := RunOf(Step(s, ClientRead(n)), es);
            end.client.phase.Done? && !end.link.conn.phase.Saved? && end.files == files
  {
    assert AfterPieces(s, EndsOf(s.job, files), 0);
    assert |s.toClient[..n]| != |SUCCESS|;
    AbandonedForever(Step(s, ClientRead(n)), es, files);
  }
}
