/**
 * Runs with any transfers, whole, short or failing: what the server gets to see of the client's bytes, what a saved
 * file costs, and what is enough for one.
 */
module Transfers {
  import opened MachineTypes
  import opened Headers
  import opened FileStore
  import opened Connection
  import opened Protocol
  import opened Termination
  import opened Transmission
  import opened WholeStream
  import Runs

  // ---------------------------------------------------------------------------
  // The server's side of a run
  // ---------------------------------------------------------------------------

  /** What an event of the system is for the server's connection, if anything. */
  function LinkEvent(s: System, e: Event): Option<Runs.Event>
    requires SysOk(s) && Enabled(s, e)
  {
    match e
    case Deliver(n) => Some(Runs.Arrive(s.toServer[..n]))
    case ServerRead => Some(Runs.ReadDone)
    case ServerWritten => Some(Runs.WriteDone(true))
    case ServerReadError => Some(Runs.ReadError)
    case _ => None
  }

  function LinkEvents(s: System, es: seq<Event>): seq<Runs.Event>
    requires SysOk(s) && ValidRun(s, es)
    decreases es
  {
    if es == [] then []
    else
      var first, rest := LinkEvent(s, es[0]), LinkEvents(Step(s, es[0]), es[1..]);
      if first.None? then rest else [first.value] + rest
  }

  /** The bytes the client hands to the network. */
  function WrittenBy(s: System, e: Event): Bytes
    requires SysOk(s) && Enabled(s, e)
  {
    if e.ClientWrite? then Outgoing(s.job, s.client)[..e.count] else []
  }

  function Written(s: System, es: seq<Event>): Bytes
    requires SysOk(s) && ValidRun(s, es)
    decreases es
  {
    if es == [] then [] else WrittenBy(s, es[0]) + Written(Step(s, es[0]), es[1..])
  }

  /** The bytes a step delivers to the server. */
  function DeliveredBy(s: System, e: Event): Bytes
    requires SysOk(s) && Enabled(s, e)
  {
    if e.Deliver? then s.toServer[..e.count] else []
  }

  lemma LinkStep(s: System, e: Event)
    requires SysOk(s) && Enabled(s, e)
    ensures var t, le := Step(s, e), LinkEvent(s, e);
            && (le.None? ==> t.link == s.link && t.files == s.files && !e.Deliver? && !e.ServerReadError?)
            && (le.Some? ==>
                  && Runs.Enabled(s.link, le.value) && t.link == Runs.Step(s.link, le.value)
                  && t.files == Runs.StepFiles(s.link, le.value, s.files)
                  && (le.value.ReadError? <==> e.ServerReadError?)
                  && DeliveredBy(s, e) == if le.value.Arrive? then le.value.fragment else [])
  {
  }

  /** Bytes enter the way to the server only when written, and leave it only when delivered. */
  lemma BytesStep(s: System, e: Event)
    requires SysOk(s) && Enabled(s, e)
    ensures s.toServer + WrittenBy(s, e) == DeliveredBy(s, e) + Step(s, e).toServer
  {
    assert s.toServer + [] == s.toServer == [] + s.toServer;
    if e.Deliver? {
      assert s.toServer == s.toServer[..e.count] + s.toServer[e.count..];
    }
  }

  lemma ErrorsPrepend(e: Runs.Event, fs: seq<Runs.Event>)
    ensures Runs.NoReadError([e] + fs) <==> !e.ReadError? && Runs.NoReadError(fs)
  {
    assert forall i :: 0 <= i < |fs| ==> ([e] + fs)[i + 1] == fs[i];
    assert ([e] + fs)[0] == e;
  }

  lemma {:induction false} LinkFollows(s: System, es: seq<Event>)
    requires SysOk(s) && ValidRun(s, es)
    ensures var end, les := RunOf(s, es), LinkEvents(s, es);
            && Runs.ValidRun(s.link, les) && end.link == Runs.Run(s.link, les)
            && end.files == Runs.RunFiles(s.link, les, s.files)
    decreases es
  {
    if es != [] {
      LinkStep(s, es[0]);
      LinkFollows(Step(s, es[0]), es[1..]);
      if LinkEvent(s, es[0]).Some? {
        Runs.RunPrepend(s.link, LinkEvent(s, es[0]).value, LinkEvents(Step(s, es[0]), es[1..]), s.files);
      }
    }
  }

  lemma {:induction false} ErrorsFollow(s: System, es: seq<Event>)
    requires SysOk(s) && ValidRun(s, es)
    ensures Runs.NoReadError(LinkEvents(s, es)) <==> ServerReadError !in es
    decreases es
  {
    if es != [] {
      ErrorsFollow(Step(s, es[0]), es[1..]);
      assert es == [es[0]] + es[1..];
      if LinkEvent(s, es[0]).Some? {
        ErrorsPrepend(LinkEvent(s, es[0]).value, LinkEvents(Step(s, es[0]), es[1..]));
      }
    }
  }

  lemma ArrivedFirst(s: System, e: Event, les: seq<Runs.Event>)
    requires SysOk(s) && Enabled(s, e)
    ensures var le := LinkEvent(s, e);
            Runs.Arrived(if le.None? then les else [le.value] + les) == DeliveredBy(s, e) + Runs.Arrived(les)
  {
    LinkStep(s, e);
    if LinkEvent(s, e).None? {
      assert [] + Runs.Arrived(les) == Runs.Arrived(les);
    } else {
      assert ([LinkEvent(s, e).value] + les)[1..] == les;
    }
  }

  lemma {:induction false} BytesFollow(s: System, es: seq<Event>)
    requires SysOk(s) && ValidRun(s, es)
    ensures s.toServer + Written(s, es) == Runs.Arrived(LinkEvents(s, es)) + RunOf(s, es).toServer
    decreases es
  {
    if es == [] {
      assert s.toServer + [] == [] + s.toServer;
    } else {
      var e, t, les := es[0], Step(s, es[0]), LinkEvents(Step(s, es[0]), es[1..]);
      BytesStep(s, e);
      ArrivedFirst(s, e, les);
      BytesFollow(t, es[1..]);
      BytesUnderWay(s.toServer, WrittenBy(s, e), DeliveredBy(s, e), t.toServer,
                    Written(t, es[1..]), Runs.Arrived(les), RunOf(s, es).toServer);
    }
  }

  /** The server goes through a run of its own on exactly the bytes the client has written, less those under way. */
  lemma LinkRun(s: System, es: seq<Event>)
    requires SysOk(s) && ValidRun(s, es)
    ensures var end, les := RunOf(s, es), LinkEvents(s, es);
            && Runs.ValidRun(s.link, les) && end.link == Runs.Run(s.link, les)
            && end.files == Runs.RunFiles(s.link, les, s.files)
            && (Runs.NoReadError(les) <==> ServerReadError !in es)
            && s.toServer + Written(s, es) == Runs.Arrived(les) + end.toServer
  {
    LinkFollows(s, es);
    ErrorsFollow(s, es);
    BytesFollow(s, es);
  }

  lemma BytesUnderWay(x: Bytes, w: Bytes, a: Bytes, y: Bytes, v: Bytes, b: Bytes, z: Bytes)
    requires x + w == a + y && y + v == b + z
    ensures x + (w + v) == (a + b) + z
  {
    assert x + (w + v) == (x + w) + v;
    assert (a + y) + v == a + (y + v);
    assert a + (b + z) == (a + b) + z;
  }

  lemma SameSettled(l: Runs.Link, m: Runs.Link, bytes: Bytes)
    requires Runs.LinkInv(l) && Runs.LinkInv(m) && Runs.Settle(l) == Runs.Settle(m)
    ensures Runs.Settle(Runs.Receive(l, bytes)) == Runs.Settle(Runs.Receive(m, bytes))
  {
    Runs.SettleThenReceive(l, bytes);
    Runs.SettleThenReceive(m, bytes);
  }

  lemma ReceiveTwice(l: Runs.Link, a: Bytes, b: Bytes)
    requires Runs.LinkInv(l)
    ensures Runs.Receive(Runs.Receive(l, a), b) == Runs.Receive(l, a + b)
  {
    assert l.inbox + a + b == l.inbox + (a + b);
  }

  /** Where the server is heading is decided by what the client has written. */
  lemma HeadsForWritten(job: Job, files: Files, es: seq<Event>)
    requires JobShape(job) && ValidRun(Start(job, files), es) && ServerReadError !in es
    ensures var s, end := Start(job, files), RunOf(Start(job, files), es);
            Runs.Settle(Runs.Receive(end.link, end.toServer)) == Runs.Settle(Runs.Receive(Runs.FRESH, Written(s, es)))
  {
    var s, end := Start(job, files), RunOf(Start(job, files), es);
    var les := LinkEvents(s, es);
    LinkRun(s, es);
    SettleAndRest(les, end.toServer);
    assert [] + Written(s, es) == Written(s, es);
  }

  lemma SettleAndRest(les: seq<Runs.Event>, rest: Bytes)
    requires Runs.ValidRun(Runs.FRESH, les) && Runs.NoReadError(les)
    ensures Runs.Settle(Runs.Receive(Runs.Run(Runs.FRESH, les), rest))
            == Runs.Settle(Runs.Receive(Runs.FRESH, Runs.Arrived(les) + rest))
  {
    Runs.RunHeadsForSettled(Runs.FRESH, les);
    SameSettled(Runs.Run(Runs.FRESH, les), Runs.Receive(Runs.FRESH, Runs.Arrived(les)), rest);
    ReceiveTwice(Runs.FRESH, Runs.Arrived(les), rest);
  }

  // ---------------------------------------------------------------------------
  // What the client can have written
  // ---------------------------------------------------------------------------

  /** Everything the client has to send. */
  function Stream(job: Job): Bytes
    requires JobShape(job)
  {
    PreBytes(job) + Sent(job, |job.parts|)
  }

  /** Every `write_some` of the run that did not fail moved its whole buffer. */
  predicate WritesWhole(s: System, es: seq<Event>)
    requires SysOk(s) && ValidRun(s, es)
    decreases es
  {
    es == [] || ((es[0].ClientWrite? ==> Whole(s, es[0])) && WritesWhole(Step(s, es[0]), es[1..]))
  }

  /** How many bytes the first `read_some` of the run returned. */
  function FirstRead(es: seq<Event>): Option<nat> {
    if es == [] then None else if es[0].ClientRead? then Some(es[0].count) else FirstRead(es[1..])
  }

  lemma WriteErrorLoses(job: Job, c: Client)
    requires JobShape(job) && ClientInRange(job, c) && Writes(c)
    ensures Unsent(job, AfterWriteError(job, c).phase) + |Outgoing(job, c)| <= Unsent(job, c.phase)
  {
  }

  lemma LostIsNat(s: System, e: Event)
    requires SysOk(s) && Enabled(s, e)
    ensures Unsent(s.job, Step(s, e).client.phase) + |WrittenBy(s, e)| <= Unsent(s.job, s.client.phase)
    ensures e.ClientWriteError? || (e.ClientWrite? && !Whole(s, e)) ==>
              Unsent(s.job, Step(s, e).client.phase) + |WrittenBy(s, e)| < Unsent(s.job, s.client.phase)
  {
    if e.ClientWriteError? {
      WriteErrorLoses(s.job, s.client);
    }
  }

  /** Bytes of the stream that this step gives up on: they are neither written nor still to be written. */
  function Lost(s: System, e: Event): (n: nat)
    requires SysOk(s) && Enabled(s, e)
  {
    LostIsNat(s, e);
    Unsent(s.job, s.client.phase) - Unsent(s.job, Step(s, e).client.phase) - |WrittenBy(s, e)|
  }

  /** A short or failing write, or giving up, leaves bytes that are never written. */
  lemma {:induction false} WriteBudget(s: System, es: seq<Event>)
    requires SysOk(s) && ValidRun(s, es)
    ensures var rest := Unsent(s.job, s.client.phase) - Unsent(s.job, RunOf(s, es).client.phase);
            && |Written(s, es)| <= rest
            && (!WritesWhole(s, es) || ClientWriteError in es ==> |Written(s, es)| < rest)
    decreases es
  {
    if es != [] {
      assert es == [es[0]] + es[1..];
      LostIsNat(s, es[0]);
      WriteBudget(Step(s, es[0]), es[1..]);
    }
  }

  /** A first reply that is not read whole ends the client before the first request. */
  lemma {:induction false} FirstReadDecides(s: System, es: seq<Event>)
    requires SysOk(s) && ValidRun(s, es) && (s.client.phase.SendingPre? || s.client.phase.AwaitingPre?)
    requires FirstRead(es) != Some(|SUCCESS|)
    ensures |Written(s, es)| + BytesFrom(s.job, 0) <= Unsent(s.job, s.client.phase)
    decreases es
  {
    if es != [] {
      var t := Step(s, es[0]);
      if t.client.phase.Done? {
        WriteBudget(t, es[1..]);
      } else {
        FirstReadDecides(t, es[1..]);
      }
    }
  }

  /** The client's stream up to a program point. */
  function PrefixOf(job: Job, phase: ClientPhase): Bytes
    requires JobShape(job)
    requires phase.SendingHeader? || phase.SendingContent? || phase.AwaitingReply? ==> phase.index < |job.parts|
  {
    match phase
    case SendingPre => []
    case AwaitingPre => PreBytes(job)
    case SendingHeader(i) => PreBytes(job) + Sent(job, i)
    case SendingContent(i) => PreBytes(job) + Sent(job, i) + HeaderBytes(job, i)
    case AwaitingReply(i) => PreBytes(job) + Sent(job, i + 1)
    case Done => Stream(job)
  }

  lemma WriteExtends(job: Job, c: Client)
    requires JobShape(job) && ClientInRange(job, c) && Writes(c)
    ensures PrefixOf(job, AfterWrite(c).phase) == PrefixOf(job, c.phase) + Outgoing(job, c)
  {
    match c.phase {
      case SendingPre => assert [] + PreBytes(job) == PreBytes(job);
      case SendingHeader(i) =>
      case SendingContent(i) => SentNext(PreBytes(job), Sent(job, i), HeaderBytes(job, i), job.parts[i]);
    }
  }

  /** Reading a reply gives nothing up, unless it ends the client before its last request. */
  lemma ReadKeepsPrefix(job: Job, phase: ClientPhase, next: ClientPhase)
    requires JobShape(job) && (phase.AwaitingPre? || (phase.AwaitingReply? && phase.index < |job.parts|))
    requires var i := if phase.AwaitingPre? then 0 else phase.index + 1;
             next == Done || (next == SendingHeader(i) && i < |job.parts|)
    requires Unsent(job, next) == Unsent(job, phase)
    ensures PrefixOf(job, next) == PrefixOf(job, phase)
  {
    assert PreBytes(job) + [] == PreBytes(job);
    assert BytesFrom(job, 0) >= REQUEST_SIZE;
  }

  /** A step that gives nothing up writes the next bytes of the stream, if any. */
  lemma StepExtends(s: System, e: Event)
    requires SysOk(s) && Enabled(s, e) && Lost(s, e) == 0
    ensures PrefixOf(s.job, Step(s, e).client.phase) == PrefixOf(s.job, s.client.phase) + WrittenBy(s, e)
  {
    var t, p := Step(s, e).client, PrefixOf(s.job, s.client.phase);
    LostIsNat(s, e);
    if e.ClientWrite? {
      assert t == AfterWrite(s.client) && WrittenBy(s, e) == Outgoing(s.job, s.client);
      WriteExtends(s.job, s.client);
    } else {
      assert WrittenBy(s, e) == [] && p + [] == p;
      if e.ClientRead? || e.ClientReadError? {
        ReadKeepsPrefix(s.job, s.client.phase, t.phase);
      } else {
        assert t == s.client;
      }
    }
  }

  lemma SentNext(a: Bytes, b: Bytes, c: Bytes, d: Bytes)
    ensures a + (b + c + d) == a + b + c + d
  {
  }

  /** A client that wrote as many bytes as there were has written exactly those. */
  lemma {:induction false} AllWrittenIsStream(s: System, es: seq<Event>)
    requires SysOk(s) && ValidRun(s, es) && |Written(s, es)| >= Unsent(s.job, s.client.phase)
    ensures PrefixOf(s.job, s.client.phase) + Written(s, es) == Stream(s.job)
    decreases es
  {
    var p := PrefixOf(s.job, s.client.phase);
    if es == [] {
      NothingUnsent(s.job, s.client.phase);
      assert p + [] == p;
    } else {
      var t, w, v := Step(s, es[0]), WrittenBy(s, es[0]), Written(Step(s, es[0]), es[1..]);
      WriteBudget(t, es[1..]);
      assert Lost(s, es[0]) == 0;
      StepExtends(s, es[0]);
      AllWrittenIsStream(t, es[1..]);
      Regroup(p, w, v);
    }
  }

  lemma NothingUnsent(job: Job, phase: ClientPhase)
    requires JobShape(job) && Unsent(job, phase) == 0
    requires phase.SendingHeader? || phase.SendingContent? || phase.AwaitingReply? ==> phase.index < |job.parts|
    ensures PrefixOf(job, phase) == Stream(job)
  {
    assert BytesFrom(job, 0) >= REQUEST_SIZE;
    if phase.SendingContent? {
      assert phase.index == |job.parts| - 1 && job.parts[phase.index] == [];
      var i := phase.index;
      SentNext(PreBytes(job), Sent(job, i), HeaderBytes(job, i), []);
    }
  }

  // ---------------------------------------------------------------------------
  // What a saved file costs
  // ---------------------------------------------------------------------------

  /** The bytes the filled slots took on the wire. */
  function SlotBytes(slots: Slots): nat {
    if slots == [] then 0
    else (if slots[0].Some? then REQUEST_SIZE + |slots[0].value| else 0) + SlotBytes(slots[1..])
  }

  lemma {:induction false} SlotBytesFill(slots: Slots, index: nat, content: Bytes)
    requires index < |slots| && slots[index].None?
    ensures SlotBytes(slots[index := Some(content)]) == SlotBytes(slots) + REQUEST_SIZE + |content|
  {
    var filled := slots[index := Some(content)];
    if index == 0 {
      assert filled[1..] == slots[1..];
    } else {
      assert filled[1..] == slots[1..][index - 1 := Some(content)];
      SlotBytesFill(slots[1..], index - 1, content);
    }
  }

  lemma {:induction false} SlotBytesEmpty(n: nat)
    ensures SlotBytes(EmptySlots(n)) == 0
  {
    if n > 0 {
      SlotBytesEmpty(n - 1);
      assert EmptySlots(n)[1..] == EmptySlots(n - 1);
    }
  }

  lemma {:induction false} SlotBytesFull(slots: Slots)
    requires AllFilled(slots)
    ensures SlotBytes(slots) == REQUEST_SIZE * |slots| + |Flatten(SlotContents(slots))|
  {
    if slots != [] {
      assert AllFilled(slots[1..]);
      SlotBytesFull(slots[1..]);
      assert SlotContents(slots)[1..] == SlotContents(slots[1..]);
    }
  }

  lemma {:induction false} SettledBytes(l: Runs.Link, ms: seq<Message>, rest: Bytes)
    requires AwaitsRequest(l) && Completes(l.conn.pre.uuid, l.conn.slots, ms) && l.inbox == Wire(ms) + rest
    ensures SlotBytes(Runs.Settle(l).conn.slots) == SlotBytes(l.conn.slots) + |Wire(ms)|
    decreases |ms|
  {
    var m, tail := ms[0], Wire(ms[1..]) + rest;
    WirePrepend(m, ms[1..], rest);
    assert ms == [m] + ms[1..];
    CompletesStep(l.conn.pre.uuid, l.conn.slots, ms);
    var next := TakeMessage(l, m, tail);
    SlotBytesFill(l.conn.slots, Index(m), m.content);
    if |ms| == 1 {
      SettledWhenSaved(next);
    } else {
      SettledBytes(next, ms[1..], rest);
    }
  }

  lemma TransmissionBytes(pre: Bytes, ms: seq<Message>, rest: Bytes)
    requires IsTransmission(pre, ms)
    ensures var r := Runs.Settle(Runs.Receive(Runs.FRESH, pre + Wire(ms) + rest));
            SlotBytes(r.conn.slots) == |Wire(ms)|
  {
    Regroup(pre, Wire(ms), rest);
    var l := TakePreRequest(pre, Wire(ms) + rest);
    SettledBytes(l, ms, rest);
    SlotBytesEmpty(ParsePre(pre).numHorcruxes);
  }

  /** Every stored byte and every header has to have arrived. */
  lemma SavedStreamIsLongEnough(stream: Bytes)
    requires Runs.Settle(Runs.Receive(Runs.FRESH, stream)).conn.phase.Saved?
    ensures var slots := Runs.Settle(Runs.Receive(Runs.FRESH, stream)).conn.slots;
            PRE_SIZE + REQUEST_SIZE * |slots| + |Flatten(SlotContents(slots))| <= |stream|
  {
    var pre, ms, rest := SavedStream(stream);
    TransmissionBytes(pre, ms, rest);
    SlotBytesFull(Runs.Settle(Runs.Receive(Runs.FRESH, stream)).conn.slots);
  }

  /** Files with the client's names can only come from a save under its uuid, and join to a prefix of that save. */
  lemma JoinedIsOwn(c: Conn, files: Files, uuid: uint64, n: nat, data: Bytes)
    requires Inv(c) && n > 0 && (forall i :: 0 <= i < n ==> Path(uuid, i) !in files)
    requires Joined(Runs.FilesOf(c, files), uuid, n) == Ok(data)
    ensures c.phase.Saved? && n <= |c.slots| && Flatten(SlotContents(c.slots)[..n]) == data
  {
    JoinedThrows(Runs.FilesOf(c, files), uuid, n);
    assert Path(uuid, 0) in Runs.FilesOf(c, files);
    var contents := SlotContents(c.slots);
    forall i | 0 <= i < n
      ensures c.pre.uuid == uuid && i < |contents| && Runs.FilesOf(c, files)[Path(uuid, i)] == contents[i]
    {
      PieceIsOwn(c, files, uuid, i);
    }
    assert n - 1 < |contents|;
    JoinedOfSaved(Runs.FilesOf(c, files), uuid, contents, n);
  }

  lemma PieceIsOwn(c: Conn, files: Files, uuid: uint64, i: nat)
    requires Inv(c) && c.phase.Saved? && Path(uuid, i) !in files && Path(uuid, i) in Runs.FilesOf(c, files)
    ensures c.pre.uuid == uuid && i < |c.slots|
    ensures Runs.FilesOf(c, files)[Path(uuid, i)] == SlotContents(c.slots)[i]
  {
    var contents := SlotContents(c.slots);
    var names := Paths(c.pre.uuid, |contents|);
    SaveAllEffect(files, c.pre.uuid, contents);
    var j :| 0 <= j < |names| && names[j] == Path(uuid, i);
    PathInjective(c.pre.uuid, j, uuid, i);
  }

  lemma FlattenTakes(parts: seq<Bytes>, n: nat)
    requires n <= |parts|
    ensures |Flatten(parts[..n])| <= |Flatten(parts)|
  {
    assert parts == parts[..n] + parts[n..];
    FlattenAppend(parts[..n], parts[n..]);
  }

  lemma {:induction false} BytesFromAll(job: Job, i: nat)
    requires i <= |job.parts|
    ensures BytesFrom(job, i) == REQUEST_SIZE * (|job.parts| - i) + |Flatten(job.parts[i..])|
    decreases |job.parts| - i
  {
    if i < |job.parts| {
      BytesFromAll(job, i + 1);
      assert job.parts[i..][1..] == job.parts[i + 1..];
    } else {
      assert job.parts[i..] == [];
    }
  }

  // ---------------------------------------------------------------------------
  // Necessity
  // ---------------------------------------------------------------------------

  /**
   * If the joined files are the client's pieces, then the client has written its whole stream, every write of it
   * was whole and none failed, the first reply was read whole, no read of the server failed, and the server is where
   * the stream takes it.
   */
  lemma JoinedNeedsWholeWrites(job: Job, files: Files, es: seq<Event>)
    requires JobShape(job) && ValidRun(Start(job, files), es)
    requires forall i :: 0 <= i < |job.parts| ==> Path(job.uuid, i) !in files
    requires Joined(RunOf(Start(job, files), es).files, job.uuid, |job.parts|) == Ok(Flatten(job.parts))
    ensures Written(Start(job, files), es) == Stream(job) && ServerReadError !in es
    ensures WritesWhole(Start(job, files), es) && ClientWriteError !in es && FirstRead(es) == Some(|SUCCESS|)
    ensures RunOf(Start(job, files), es).link.conn == ServerAfter(job).conn
    ensures RunOf(Start(job, files), es).files == Runs.FilesOf(ServerAfter(job).conn, files)
  {
    var s, end := Start(job, files), RunOf(Start(job, files), es);
    FilesAreOwn(job, files, es);
    JoinedIsOwn(end.link.conn, files, job.uuid, |job.parts|, Flatten(job.parts));
    SavedHasNoReadError(s, es);
    SavedCostsTotal(job, files, es);
    WriteBudget(s, es);
    AllWrittenIsStream(s, es);
    assert [] + Written(s, es) == Written(s, es);
    assert BytesFrom(job, 0) >= REQUEST_SIZE;
    if FirstRead(es) != Some(|SUCCESS|) {
      FirstReadDecides(s, es);
      assert false;
    }
    SavedServerStays(job, files, es);
  }

  lemma SavedHasNoReadError(s: System, es: seq<Event>)
    requires SysOk(s) && ValidRun(s, es) && RunOf(s, es).link.conn.phase.Saved?
    ensures ServerReadError !in es
  {
    LinkRun(s, es);
    if ServerReadError in es {
      ReadErrorLasts(s.link, LinkEvents(s, es));
      assert false;
    }
  }

  lemma {:induction false} ReadErrorLasts(l: Runs.Link, es: seq<Runs.Event>)
    requires Runs.LinkInv(l) && Runs.ValidRun(l, es) && !Runs.NoReadError(es)
    ensures Runs.Run(l, es).conn.phase.ReadFailed?
    decreases es
  {
    if es[0].ReadError? {
      Runs.OverStaysOver(Runs.Step(l, es[0]), es[1..], map[]);
    } else {
      ReadErrorLasts(Runs.Step(l, es[0]), es[1..]);
    }
  }

  lemma FilesAreOwn(job: Job, files: Files, es: seq<Event>)
    requires JobShape(job) && ValidRun(Start(job, files), es)
    ensures var end := RunOf(Start(job, files), es);
            end.files == Runs.FilesOf(end.link.conn, files)
  {
    LinkRun(Start(job, files), es);
    Runs.RunSavesOnce(Runs.FRESH, LinkEvents(Start(job, files), es), files);
  }

  /** A saved connection has read, hence the client has written, as many bytes as the whole stream has. */
  lemma SavedCostsTotal(job: Job, files: Files, es: seq<Event>)
    requires JobShape(job) && ValidRun(Start(job, files), es)
    requires RunOf(Start(job, files), es).link.conn.phase.Saved? && ServerReadError !in es
    requires |job.parts| <= |RunOf(Start(job, files), es).link.conn.slots|
    requires Flatten(SlotContents(RunOf(Start(job, files), es).link.conn.slots)[..|job.parts|]) == Flatten(job.parts)
    ensures |Written(Start(job, files), es)| >= Unsent(job, SendingPre)
  {
    var s, end := Start(job, files), RunOf(Start(job, files), es);
    var les := LinkEvents(s, es);
    LinkRun(s, es);
    Runs.RunHeadsForSettled(Runs.FRESH, les);
    SettledWhenSaved(end.link);
    SavedStreamIsLongEnough(Runs.Arrived(les));
    FlattenTakes(SlotContents(end.link.conn.slots), |job.parts|);
    BytesFromAll(job, 0);
    assert job.parts[0..] == job.parts;
    assert |s.toServer + Written(s, es)| == |Runs.Arrived(les) + end.toServer|;
  }

  lemma SavedServerStays(job: Job, files: Files, es: seq<Event>)
    requires JobShape(job) && ValidRun(Start(job, files), es)
    requires RunOf(Start(job, files), es).link.conn.phase.Saved? && ServerReadError !in es
    requires Written(Start(job, files), es) == Stream(job)
    ensures RunOf(Start(job, files), es).link.conn == ServerAfter(job).conn
  {
    var end := RunOf(Start(job, files), es);
    HeadsForWritten(job, files, es);
    SettledWhenSaved(Runs.Receive(end.link, end.toServer));
  }

  // ---------------------------------------------------------------------------
  // Sufficiency
  // ---------------------------------------------------------------------------

  /** Nothing can happen any more but failures. */
  ghost predicate Stuck(s: System)
    requires SysOk(s)
  {
    forall e :: Enabled(s, e) ==> Fails(e)
  }

  lemma StuckMeansAtRest(s: System)
    requires SysOk(s) && Stuck(s)
    ensures !Writes(s.client) && s.toServer == [] && !Runs.CanMove(s.link) && (Awaits(s.client) ==> s.toClient == [])
  {
    if Writes(s.client) {
      assert Enabled(s, ClientWrite(|Outgoing(s.job, s.client)|));
    }
    if s.toServer != [] {
      assert Enabled(s, Deliver(1));
    }
    assert !Enabled(s, ServerRead) && !Enabled(s, ServerFlush) && !Enabled(s, ServerWritten);
    assert !Enabled(s, ClientRead(1));
  }

  /** Once everything is written no failure but the server's own does harm. */
  lemma EverythingWrittenSuffices(job: Job, files: Files, es: seq<Event>)
    requires JobShape(job) && ValidRun(Start(job, files), es) && Stuck(RunOf(Start(job, files), es))
    requires Written(Start(job, files), es) == Stream(job) && ServerReadError !in es
    ensures RunOf(Start(job, files), es).link.conn == ServerAfter(job).conn
    ensures RunOf(Start(job, files), es).files == Runs.FilesOf(ServerAfter(job).conn, files)
  {
    var end := RunOf(Start(job, files), es);
    HeadsForWritten(job, files, es);
    StuckMeansAtRest(end);
    assert Runs.Receive(end.link, []) == end.link;
    FilesAreOwn(job, files, es);
  }
}
