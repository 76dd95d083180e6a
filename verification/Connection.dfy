/**
 * The server side of one connection as a state machine: one function per completion handler.
 * The class in TcpConnection.dfy is proved against these functions.
 */
module Connection {
  import opened MachineTypes
  import opened Headers
  import opened FileStore

  const MAX_NUM_HORCRUXES := 20
  const MAX_TOTAL_SIZE := 10_000_000

  type Slots = seq<Option<Bytes>>

  /** The continuation handed to `sendResponse`. */
  datatype NextOp = ReadNext | SaveHorcruxes | Stop

  datatype Phase =
    | ReadingPreRequest
    | ReadingHeader
    | ReadingContent
    | Responding(next: NextOp)
    | Saved
    | Rejected
    | ReadFailed

  /** The fields of a connection, and the outcomes it has answered so far. */
  datatype Conn = Conn(
    phase: Phase,
    pre: PreRequestHeader,
    req: RequestHeader,
    message: Bytes,
    slots: Slots,
    replies: seq<bool>)

  const INITIAL := Conn(ReadingPreRequest, PreRequestHeader(0, 0, 0), RequestHeader(0, 0, 0, 0), [], [], [])

  const SUCCESS: Bytes := [83, 85, 67, 67, 69, 83, 83]
  const FAILURE: Bytes := [70, 65, 73, 76, 85, 82, 69]

  /** The bytes of a text in ASCII. */
  function Ascii(text: string): (b: Bytes)
    requires forall i :: 0 <= i < |text| ==> text[i] < 128 as char
    ensures |b| == |text| && forall i :: 0 <= i < |b| ==> b[i] == text[i] as int
  {
    seq(|text|, i requires 0 <= i < |text| => text[i] as int)
  }

  function ReplyText(outcome: bool): Bytes {
    if outcome then SUCCESS else FAILURE
  }

  // ---------------------------------------------------------------------------
  // Checks
  // ---------------------------------------------------------------------------

  predicate CheckPreRequest(pre: PreRequestHeader) {
    pre.numHorcruxes <= MAX_NUM_HORCRUXES && pre.totalSize <= MAX_TOTAL_SIZE
  }

  predicate CheckRequest(uuid: uint64, slots: Slots, req: RequestHeader) {
    req.uuid == uuid && req.index < |slots| && slots[req.index].None?
  }

  predicate AllFilled(slots: Slots) {
    forall i :: 0 <= i < |slots| ==> slots[i].Some?
  }

  function NumEmpty(slots: Slots): (n: nat)
    ensures n <= |slots|
  {
    if slots == [] then 0 else (if slots[0].None? then 1 else 0) + NumEmpty(slots[1..])
  }

  lemma {:induction false} NumEmptyZero(slots: Slots)
    ensures NumEmpty(slots) == 0 <==> AllFilled(slots)
  {
    if slots != [] {
      NumEmptyZero(slots[1..]);
      assert forall i :: 0 < i < |slots| ==> slots[i] == slots[1..][i - 1];
      assert AllFilled(slots) ==> forall i :: 0 <= i < |slots[1..]| ==> slots[1..][i] == slots[i + 1];
    }
  }

  lemma {:induction false} NumEmptyFill(slots: Slots, index: nat, content: Bytes)
    requires index < |slots| && slots[index].None?
    ensures NumEmpty(slots[index := Some(content)]) == NumEmpty(slots) - 1
  {
    var filled := slots[index := Some(content)];
    if index == 0 {
      assert filled[1..] == slots[1..];
    } else {
      assert filled[1..] == slots[1..][index - 1 := Some(content)];
      NumEmptyFill(slots[1..], index - 1, content);
    }
  }

  function EmptySlots(n: nat): (r: Slots)
    ensures |r| == n && forall i :: 0 <= i < n ==> r[i] == None
    ensures NumEmpty(r) == n
  {
    if n == 0 then [] else
      var rest := EmptySlots(n - 1);
      var r := [None] + rest;
      assert r[1..] == rest;
      r
  }

  /** `std::vector::resize`: what was there stays, what is new is empty. */
  function Resize(slots: Slots, n: nat): (r: Slots)
    ensures |r| == n && forall i :: 0 <= i < n ==> r[i] == if i < |slots| then slots[i] else None
  {
    if n <= |slots| then slots[..n] else slots + EmptySlots(n - |slots|)
  }

  /** `std::string::resize`: what was there stays, what is new is zero. */
  function ResizeBytes(b: Bytes, n: nat): (r: Bytes)
    ensures |r| == n && forall i :: 0 <= i < n ==> r[i] == if i < |b| then b[i] else 0
  {
    if n <= |b| then b[..n] else b + seq(n - |b|, _ => 0)
  }

  function SlotContents(slots: Slots): (r: seq<Bytes>)
    requires AllFilled(slots)
    ensures |r| == |slots|
    ensures forall i :: 0 <= i < |r| ==> slots[i] == Some(r[i])
  {
    seq(|slots|, i requires 0 <= i < |slots| => slots[i].value)
  }

  // ---------------------------------------------------------------------------
  // Handlers
  // ---------------------------------------------------------------------------

  function Respond(c: Conn, outcome: bool, next: NextOp): Conn {
    c.(phase := Responding(next), message := ReplyText(outcome), replies := c.replies + [outcome])
  }

  function OnPreRequest(c: Conn, b: Bytes): Conn
    requires |b| == PRE_SIZE
  {
    var pre := ParsePre(b);
    if CheckPreRequest(pre)
    then Respond(c.(pre := pre, slots := Resize(c.slots, pre.numHorcruxes)), true, ReadNext)
    else Respond(c.(pre := pre), false, Stop)
  }

  function OnHeader(c: Conn, b: Bytes): Conn
    requires |b| == REQUEST_SIZE
  {
    var req := ParseRequest(b);
    if CheckRequest(c.pre.uuid, c.slots, req)
    then c.(phase := ReadingContent, req := req, message := ResizeBytes(c.message, req.contentSize))
    else Respond(c.(req := req), false, Stop)
  }

  function OnContent(c: Conn, b: Bytes): Conn
    requires c.req.index < |c.slots|
  {
    var slots := c.slots[c.req.index := Some(b)];
    Respond(c.(slots := slots), true, if AllFilled(slots) then SaveHorcruxes else ReadNext)
  }

  /** The continuation runs whether or not the reply could be written. */
  function OnWritten(c: Conn): Conn
    requires c.phase.Responding?
  {
    match c.phase.next
    case ReadNext => c.(phase := ReadingHeader)
    case SaveHorcruxes => c.(phase := Saved)
    case Stop => c.(phase := Rejected)
  }

  /** The files after the continuation ran; a refused overwrite is ignored. Saving dereferences every slot. */
  function FilesOnWritten(c: Conn, files: Files): Files
    requires c.phase.Responding?
    requires c.phase.next.SaveHorcruxes? ==> AllFilled(c.slots)
  {
    if c.phase.next.SaveHorcruxes?
    then SaveAll(files, c.pre.uuid, SlotContents(c.slots))
    else files
  }

  predicate Reading(c: Conn) {
    c.phase.ReadingPreRequest? || c.phase.ReadingHeader? || c.phase.ReadingContent?
  }

  /** How many bytes the pending `async_read` waits for. */
  function Need(c: Conn): nat {
    match c.phase
    case ReadingPreRequest => PRE_SIZE
    case ReadingHeader => REQUEST_SIZE
    case ReadingContent => c.req.contentSize
    case _ => 0
  }

  function OnRead(c: Conn, b: Bytes): Conn
    requires Reading(c) && |b| == Need(c)
    requires c.phase.ReadingContent? ==> c.req.index < |c.slots|
  {
    match c.phase
    case ReadingPreRequest => OnPreRequest(c, b)
    case ReadingHeader => OnHeader(c, b)
    case ReadingContent => OnContent(c, b)
  }

  // ---------------------------------------------------------------------------
  // What holds between handlers, whatever the peer sends
  // ---------------------------------------------------------------------------

  /** A pre-request was accepted and nothing was refused since. */
  predicate Accepted(c: Conn) {
    c.phase.ReadingHeader? || c.phase.ReadingContent? || c.phase.Saved?
    || c.phase == Responding(ReadNext) || c.phase == Responding(SaveHorcruxes)
  }

  ghost predicate Inv(c: Conn) {
    && (c.phase.ReadingPreRequest? ==> c.slots == [] && c.replies == [])
    && (Accepted(c) ==>
          && CheckPreRequest(c.pre)
          && |c.slots| == c.pre.numHorcruxes
          && false !in c.replies
          && |c.replies| == 1 + |c.slots| - NumEmpty(c.slots))
    && (c.phase.ReadingContent? ==>
          && CheckRequest(c.pre.uuid, c.slots, c.req)
          && |c.message| == c.req.contentSize)
    && (c.phase.Saved? || c.phase == Responding(SaveHorcruxes) ==> AllFilled(c.slots) && c.slots != [])
    && (c.phase.Responding? ==>
          && |c.replies| > 0
          && c.message == ReplyText(c.replies[|c.replies| - 1])
          && (c.phase.next.Stop? <==> !c.replies[|c.replies| - 1]))
    && (c.phase.Rejected? ==> false in c.replies)
  }

  lemma ReadKeepsInv(c: Conn, b: Bytes)
    requires Inv(c) && Reading(c) && |b| == Need(c)
    ensures Inv(OnRead(c, b))
  {
    match c.phase {
      case ReadingPreRequest =>
        var pre := ParsePre(b);
        if CheckPreRequest(pre) {
          assert Resize(c.slots, pre.numHorcruxes) == EmptySlots(pre.numHorcruxes);
        }
      case ReadingHeader =>
      case ReadingContent =>
        NumEmptyFill(c.slots, c.req.index, b);
    }
  }

  lemma WrittenKeepsInv(c: Conn)
    requires Inv(c) && c.phase.Responding?
    ensures Inv(OnWritten(c))
  {
  }

  /** A slot, once filled, keeps its content, and a read fills at most the one slot that was announced. */
  lemma ReadFillsOneSlot(c: Conn, b: Bytes)
    requires Inv(c) && Reading(c) && |b| == Need(c) && !c.phase.ReadingPreRequest?
    ensures var d := OnRead(c, b);
            && |d.slots| == |c.slots| && d.pre == c.pre
            && (c.phase.ReadingContent? ==> c.slots[c.req.index] == None && d.slots == c.slots[c.req.index := Some(b)])
            && (!c.phase.ReadingContent? ==> d.slots == c.slots)
  {
  }

  // ---------------------------------------------------------------------------
  // What the bytes of a header decide
  // ---------------------------------------------------------------------------

  /** `d` is `c` after a refusal: FAILURE goes out, nothing is stored, and nothing will be read any more. */
  predicate Refuses(c: Conn, d: Conn) {
    && d.phase == Responding(Stop) && d.message == Ascii("FAILURE") && d.replies == c.replies + [false]
    && d.slots == c.slots
  }

  lemma RepliesAreText()
    ensures ReplyText(true) == Ascii("SUCCESS") && ReplyText(false) == Ascii("FAILURE")
  {
  }

  /** More than 20 pieces or more than 10,000,000 bytes are refused; any other announcement makes that many slots. */
  lemma AnnouncementDecides(c: Conn, b: Bytes)
    requires Inv(c) && c.phase.ReadingPreRequest? && |b| == PRE_SIZE
    ensures var d := OnRead(c, b);
            if FromBytes(b[12..16]) > 20 || FromBytes(b[8..12]) > 10_000_000 then Refuses(c, d)
            else
              && d.phase == Responding(ReadNext) && d.message == Ascii("SUCCESS") && d.replies == c.replies + [true]
              && d.pre.uuid == FromBytes(b[..8]) && |d.slots| == FromBytes(b[12..16])
              && forall i :: 0 <= i < |d.slots| ==> d.slots[i] == None
  {
    RepliesAreText();
    assert b[12..16] == b[12..];
  }

  /** The three things that are wrong with a request header, read off its bytes. */
  predicate WrongHeader(c: Conn, b: Bytes)
    requires |b| == REQUEST_SIZE
  {
    var uuid, index := FromBytes(b[..8]), FromBytes(b[8..12]);
    uuid != c.pre.uuid || index >= |c.slots| || c.slots[index].Some?
  }

  /**
   * A request header with another uuid, an index out of range or the index of a slot that is filled is refused, and no
   * other is: then exactly the announced number of bytes is awaited, for that slot.
   */
  lemma HeaderDecides(c: Conn, b: Bytes)
    requires Inv(c) && c.phase.ReadingHeader? && |b| == REQUEST_SIZE
    ensures var d := OnRead(c, b);
            if WrongHeader(c, b) then Refuses(c, d)
            else
              && d.phase == ReadingContent && d.replies == c.replies && d.slots == c.slots
              && d.req.index == FromBytes(b[8..12]) && Need(d) == FromBytes(b[12..16])
  {
    RepliesAreText();
  }
}
