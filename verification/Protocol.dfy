/**
 * The whole save protocol: the client program, two byte streams and the server connection, step by step.
 * Bytes are delivered in arbitrary pieces; a reply may reach the client before the server's write handler runs.
 * Any read or write of either side may fail instead.
 */
module Protocol {
  import opened MachineTypes
  import opened Headers
  import opened FileStore
  import opened Requests
  import opened Connection
  import Runs

  // ---------------------------------------------------------------------------
  // The client program
  // ---------------------------------------------------------------------------

  /** What one client run sends: its uuid, its pieces, and the stray padding of each request header. */
  datatype Job = Job(uuid: uint64, parts: seq<Bytes>, padding: seq<Bytes>)

  ghost predicate JobShape(job: Job) {
    && 0 < |job.parts| < TWO_32 && |job.padding| == |job.parts|
    && (forall i :: 0 <= i < |job.padding| ==> |job.padding[i]| == PADDING)
  }

  /** No piece is empty, and every piece can announce its size. */
  ghost predicate JobOk(job: Job) {
    JobShape(job) && forall i :: 0 <= i < |job.parts| ==> 0 < |job.parts[i]| < TWO_32
  }

  /** The program point of the client. */
  datatype ClientPhase =
    | SendingPre
    | AwaitingPre
    | SendingHeader(index: nat)
    | SendingContent(index: nat)
    | AwaitingReply(index: nat)
    | Done

  datatype Client = Client(phase: ClientPhase, answers: seq<bool>)

  predicate ClientInRange(job: Job, c: Client) {
    c.phase.SendingHeader? || c.phase.SendingContent? || c.phase.AwaitingReply? ==> c.phase.index < |job.parts|
  }

  function PreBytes(job: Job): (b: Bytes)
    ensures |b| == PRE_SIZE
  {
    PreImage(Announcement(job.uuid, job.parts))
  }

  function HeaderBytes(job: Job, i: nat): (b: Bytes)
    requires i < |job.parts| && i < |job.padding| && |job.padding[i]| == PADDING
    ensures |b| == REQUEST_SIZE
  {
    RequestImage(RequestHeaderFor(job.uuid, job.parts, i), job.padding[i])
  }

  predicate Writes(c: Client) {
    c.phase.SendingPre? || c.phase.SendingHeader? || c.phase.SendingContent?
  }

  predicate Awaits(c: Client) {
    c.phase.AwaitingPre? || c.phase.AwaitingReply?
  }

  /** The buffer of the next `write_some`. */
  function Outgoing(job: Job, c: Client): Bytes
    requires JobShape(job) && ClientInRange(job, c) && Writes(c)
  {
    match c.phase
    case SendingPre => PreBytes(job)
    case SendingHeader(i) => HeaderBytes(job, i)
    case SendingContent(i) => job.parts[i]
  }

  /** `write_some` returned without error; the program does not look at how much was written. */
  function AfterWrite(c: Client): Client
    requires Writes(c)
  {
    match c.phase
    case SendingPre => c.(phase := AwaitingPre)
    case SendingHeader(i) => c.(phase := SendingContent(i))
    case SendingContent(i) => c.(phase := AwaitingReply(i))
  }

  /** `readResponse` returned: a refused announcement ends the program, a refused piece does not. */
  function AfterRead(job: Job, c: Client, response: Bytes): Client
    requires Awaits(c)
  {
    var ok := response == SUCCESS;
    var next := if c.phase.AwaitingPre? then 0 else c.phase.index + 1;
    Client(if (c.phase.AwaitingPre? && !ok) || next >= |job.parts| then Done else SendingHeader(next), c.answers + [ok])
  }

  /** A failed write of the announcement ends the program; after any other it goes on to the next request. */
  function AfterWriteError(job: Job, c: Client): Client
    requires Writes(c)
  {
    c.(phase := if c.phase.SendingPre? || c.phase.index + 1 >= |job.parts| then Done
                else SendingHeader(c.phase.index + 1))
  }

  // ---------------------------------------------------------------------------
  // The system
  // ---------------------------------------------------------------------------

  /** `flushed`: the write of the current reply is over, well or not, but its handler has not run. */
  datatype System = System(
    job: Job,
    client: Client,
    toServer: Bytes,
    link: Runs.Link,
    flushed: bool,
    toClient: Bytes,
    files: Files)

  datatype Event =
    | ClientWrite(count: nat)
    | Deliver(count: nat)
    | ServerRead
    | ServerFlush
    | ServerWritten
    | ClientRead(count: nat)
    | ClientWriteError
    | ClientReadError
    | ServerReadError
    | ReplyLost(count: nat) // the write of a reply fails after that many bytes

  predicate Fails(e: Event) {
    e.ClientWriteError? || e.ClientReadError? || e.ServerReadError? || e.ReplyLost?
  }

  const READ_BUFFER := 128

  function Start(job: Job, files: Files): System {
    System(job, Client(SendingPre, []), [], Runs.FRESH, false, [], files)
  }

  ghost predicate SysOk(s: System) {
    JobShape(s.job) && Runs.LinkInv(s.link) && ClientInRange(s.job, s.client)
  }

  /** A transfer moves at least one byte, unless there is nothing to move; then it does not fail either. */
  predicate Enabled(s: System, e: Event)
    requires SysOk(s)
  {
    match e
    case ClientWrite(n) =>
      Writes(s.client) && n <= |Outgoing(s.job, s.client)| && (n > 0 || Outgoing(s.job, s.client) == [])
    case Deliver(n) => 0 < n <= |s.toServer|
    case ServerRead => Runs.Enabled(s.link, Runs.ReadDone)
    case ServerFlush => s.link.conn.phase.Responding? && !s.flushed
    case ServerWritten => s.link.conn.phase.Responding? && s.flushed
    case ClientRead(n) => Awaits(s.client) && 0 < n <= |s.toClient| && n <= READ_BUFFER
    case ClientWriteError => Writes(s.client) && Outgoing(s.job, s.client) != []
    case ClientReadError => Awaits(s.client)
    case ServerReadError => Runs.Enabled(s.link, Runs.ReadError)
    case ReplyLost(n) => s.link.conn.phase.Responding? && !s.flushed && n < |s.link.conn.message|
  }

  /** Nothing fails, and a client transfer moves the whole buffer: all of it out, or all that has arrived in. */
  predicate Whole(s: System, e: Event)
    requires SysOk(s) && Enabled(s, e)
  {
    match e
    case ClientWrite(n) => n == |Outgoing(s.job, s.client)|
    case ClientRead(n) => n == |s.toClient| || n == READ_BUFFER
    case _ => !Fails(e)
  }

  function Step(s: System, e: Event): (r: System)
    requires SysOk(s) && Enabled(s, e)
    ensures SysOk(r) && r.job == s.job
  {
    match e
    case ClientWrite(n) =>
      s.(toServer := s.toServer + Outgoing(s.job, s.client)[..n], client := AfterWrite(s.client))
    case Deliver(n) =>
      s.(toServer := s.toServer[n..], link := Runs.Step(s.link, Runs.Arrive(s.toServer[..n])))
    case ServerRead => s.(link := Runs.Step(s.link, Runs.ReadDone), flushed := false)
    case ServerFlush => s.(toClient := s.toClient + s.link.conn.message, flushed := true)
    case ServerWritten =>
      // The handler does the same whether the write failed or not.
      var written := Runs.WriteDone(true);
      s.(link := Runs.Step(s.link, written), files := Runs.StepFiles(s.link, written, s.files), flushed := false)
    case ClientRead(n) =>
      s.(toClient := s.toClient[n..], client := AfterRead(s.job, s.client, s.toClient[..n]))
    case ClientWriteError => s.(client := AfterWriteError(s.job, s.client))
    case ClientReadError => s.(client := s.client.(phase := Done))
    case ServerReadError => s.(link := Runs.Step(s.link, Runs.ReadError))
    case ReplyLost(n) => s.(toClient := s.toClient + s.link.conn.message[..n], flushed := true)
  }

  predicate ValidRun(s: System, es: seq<Event>)
    requires SysOk(s)
    decreases es
  {
    es == [] || (Enabled(s, es[0]) && ValidRun(Step(s, es[0]), es[1..]))
  }

  predicate WholeRun(s: System, es: seq<Event>)
    requires SysOk(s)
    decreases es
  {
    es == [] || (Enabled(s, es[0]) && Whole(s, es[0]) && WholeRun(Step(s, es[0]), es[1..]))
  }

  function RunOf(s: System, es: seq<Event>): (r: System)
    requires SysOk(s) && ValidRun(s, es)
    ensures SysOk(r) && r.job == s.job
    decreases es
  {
    if es == [] then s else RunOf(Step(s, es[0]), es[1..])
  }

  // ---------------------------------------------------------------------------
  // Short, failing and lost transfers
  // ---------------------------------------------------------------------------

  /** Whatever can move whole can also move in part or fail. */
  lemma AnyTransferCanFail(s: System, n: nat)
    requires SysOk(s)
    ensures Writes(s.client) && Outgoing(s.job, s.client) != [] ==> Enabled(s, ClientWriteError)
    ensures Writes(s.client) && 0 < n <= |Outgoing(s.job, s.client)| ==> Enabled(s, ClientWrite(n))
    ensures Awaits(s.client) ==> Enabled(s, ClientReadError)
    ensures Awaits(s.client) && 0 < n <= |s.toClient| && n <= 128 ==> Enabled(s, ClientRead(n))
    ensures 0 < n <= |s.toServer| ==> Enabled(s, Deliver(n))
    ensures Reading(s.link.conn) ==> Enabled(s, ServerReadError)
    ensures Enabled(s, ServerFlush) && n < 7 ==> Enabled(s, ReplyLost(n))
  {
  }

  /** The server never learns whether the client got its reply: a lost one only costs the client the rest of it. */
  lemma LostReplyChangesNothing(s: System, n: nat)
    requires SysOk(s) && Enabled(s, ReplyLost(n))
    ensures var lost, sent := Step(s, ReplyLost(n)), Step(s, ServerFlush);
            && Enabled(lost, ServerWritten) && Enabled(sent, ServerWritten)
            && Step(lost, ServerWritten) == Step(sent, ServerWritten).(toClient := lost.toClient)
            && |lost.toClient| == |s.toClient| + n && s.toClient <= lost.toClient <= sent.toClient
  {
  }

  /** What a request header says on the wire: the client's uuid, the piece, its size in 32 bits, and no checksum. */
  lemma RequestOnWire(job: Job, i: nat)
    requires JobShape(job) && i < |job.parts|
    ensures var b := HeaderBytes(job, i);
            && FromBytes(b[..8]) == job.uuid && FromBytes(b[8..12]) == i
            && FromBytes(b[12..16]) == |job.parts[i]| % TWO_32 && FromBytes(b[16..20]) == 0
  {
    ParseOfRequestImage(RequestHeaderFor(job.uuid, job.parts, i), job.padding[i]);
  }
}
