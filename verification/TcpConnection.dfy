/** The connection object itself: fields updated in place by the completion handlers. */
module TcpConnection {
  import opened MachineTypes
  import opened Headers
  import opened FileStore
  import opened Connection

  class TcpConnection {
    const out: Directory
    var phase: Phase
    const preRequestHeaderBuffer: array<byte>
    var preRequestHeader: PreRequestHeader
    const requestHeaderBuffer: array<byte>
    var requestHeader: RequestHeader
    // Receive buffer for contents and send buffer for replies.
    var messageBuffer: Bytes
    var currentRequestHorcruxes: Slots
    // Outcomes handed to the socket so far.
    var replies: seq<bool>

    ghost predicate Valid()
      reads this
    {
      && preRequestHeaderBuffer.Length == PRE_SIZE
      && requestHeaderBuffer.Length == REQUEST_SIZE
      && preRequestHeaderBuffer != requestHeaderBuffer
      && Inv(View())
    }

    ghost function View(): Conn
      reads this
    {
      Conn(phase, preRequestHeader, requestHeader, messageBuffer, currentRequestHorcruxes, replies)
    }

    constructor (out: Directory)
      ensures Valid() && View() == INITIAL && this.out == out
      ensures fresh(preRequestHeaderBuffer) && fresh(requestHeaderBuffer)
    {
      this.out := out;
      phase := ReadingPreRequest;
      preRequestHeaderBuffer := new byte[PRE_SIZE];
      preRequestHeader := PreRequestHeader(0, 0, 0);
      requestHeaderBuffer := new byte[REQUEST_SIZE];
      requestHeader := RequestHeader(0, 0, 0, 0);
      messageBuffer := [];
      currentRequestHorcruxes := [];
      replies := [];
    }

    method CheckPreRequestHeader() returns (ok: bool)
      ensures ok <==> CheckPreRequest(preRequestHeader)
      ensures ok <==> preRequestHeader.numHorcruxes <= 20 && preRequestHeader.totalSize <= 10_000_000
    {
      if preRequestHeader.numHorcruxes > MAX_NUM_HORCRUXES {
        return false;
      }
      if preRequestHeader.totalSize > MAX_TOTAL_SIZE {
        return false;
      }
      return true;
    }

    method CheckRequestHeader() returns (ok: bool)
      ensures ok <==> CheckRequest(preRequestHeader.uuid, currentRequestHorcruxes, requestHeader)
      ensures ok <==>
                && requestHeader.uuid == preRequestHeader.uuid
                && requestHeader.index < |currentRequestHorcruxes|
                && currentRequestHorcruxes[requestHeader.index].None?
    {
      if requestHeader.uuid != preRequestHeader.uuid {
        return false;
      }
      if requestHeader.index >= |currentRequestHorcruxes| {
        return false;
      }
      if currentRequestHorcruxes[requestHeader.index].Some? {
        return false;
      }
      return true;
    }

    method MessageComplete() returns (complete: bool)
      ensures complete <==> AllFilled(currentRequestHorcruxes)
    {
      for i := 0 to |currentRequestHorcruxes|
        invariant forall j :: 0 <= j < i ==> currentRequestHorcruxes[j].Some?
      {
        if currentRequestHorcruxes[i].None? {
          return false;
        }
      }
      return true;
    }

    /** Starts writing a reply; overwrites whatever the message buffer held. */
    method SendResponse(outcome: bool, next: NextOp)
      modifies this
      ensures View() == Respond(old(View()), outcome, next)
    {
      messageBuffer := if outcome then SUCCESS else FAILURE;
      replies := replies + [outcome];
      phase := Responding(next);
    }

    /** The pre-request buffer is full. */
    method PreRequestHeaderRead(received: Bytes)
      requires Valid() && phase.ReadingPreRequest? && |received| == PRE_SIZE
      modifies this, preRequestHeaderBuffer
      ensures Valid() && View() == OnRead(old(View()), received)
    {
      ghost var before := View();
      FillBuffer(preRequestHeaderBuffer, received);
      preRequestHeader := DeserializePreRequestHeader(preRequestHeaderBuffer);
      var ok := CheckPreRequestHeader();
      if ok {
        currentRequestHorcruxes := Resize(currentRequestHorcruxes, preRequestHeader.numHorcruxes);
        SendResponse(true, ReadNext);
      } else {
        SendResponse(false, Stop);
      }
      ReadKeepsInv(before, received);
    }

    /** The request header buffer is full. */
    method RequestHeaderRead(received: Bytes)
      requires Valid() && phase.ReadingHeader? && |received| == REQUEST_SIZE
      modifies this, requestHeaderBuffer
      ensures Valid() && View() == OnRead(old(View()), received)
    {
      ghost var before := View();
      FillBuffer(requestHeaderBuffer, received);
      requestHeader := DeserializeRequestHeader(requestHeaderBuffer);
      var ok := CheckRequestHeader();
      if ok {
        messageBuffer := ResizeBytes(messageBuffer, requestHeader.contentSize);
        phase := ReadingContent;
      } else {
        SendResponse(false, Stop);
      }
      ReadKeepsInv(before, received);
    }

    /** The content has arrived in the message buffer. */
    method RequestContentRead(received: Bytes)
      requires Valid() && phase.ReadingContent? && |received| == requestHeader.contentSize
      modifies this
      ensures Valid() && View() == OnRead(old(View()), received)
    {
      ghost var before := View();
      messageBuffer := received;
      currentRequestHorcruxes := currentRequestHorcruxes[requestHeader.index := Some(messageBuffer)];
      var complete := MessageComplete();
      if complete {
        SendResponse(true, SaveHorcruxes);
      } else {
        SendResponse(true, ReadNext);
      }
      ReadKeepsInv(before, received);
    }

    /** The reply was written or not: the continuation runs either way. */
    method ResponseWritten(ok: bool)
      requires Valid() && phase.Responding?
      modifies this, out
      ensures Valid() && View() == OnWritten(old(View()))
      ensures out.files == FilesOnWritten(old(View()), old(out.files))
    {
      WrittenKeepsInv(View());
      match phase.next {
        case ReadNext => phase := ReadingHeader;
        case SaveHorcruxes =>
          SaveAllHorcruxes();
          phase := Saved;
        case Stop => phase := Rejected;
      }
    }

    method SaveAllHorcruxes()
      requires AllFilled(currentRequestHorcruxes)
      modifies out
      ensures out.files == SaveAll(old(out.files), preRequestHeader.uuid, SlotContents(currentRequestHorcruxes))
    {
      ghost var contents := SlotContents(currentRequestHorcruxes);
      ghost var names := Paths(preRequestHeader.uuid, |contents|);
      for counter := 0 to |currentRequestHorcruxes|
        invariant out.files == SaveNamed(old(out.files), names, contents, counter)
      {
        var _ := out.SaveFile(currentRequestHorcruxes[counter].value, Path(preRequestHeader.uuid, counter));
        assert names[counter] == Path(preRequestHeader.uuid, counter);
      }
    }

    /** An error on a read ends the connection without a reply. */
    method ReadErrorOccurred()
      requires Valid() && Reading(View())
      modifies this
      ensures Valid() && View() == old(View()).(phase := ReadFailed)
    {
      phase := ReadFailed;
    }
  }

  /** What `async_read` does to its buffer before it calls the handler. */
  method FillBuffer(buffer: array<byte>, received: Bytes)
    requires buffer.Length == |received|
    modifies buffer
    ensures buffer[..] == received
  {
    for i := 0 to buffer.Length
      invariant buffer[..i] == received[..i]
    {
      buffer[i] := received[i];
    }
  }
}
