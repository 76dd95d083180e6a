/**
 * What the server makes of everything the client sends, without the assumption that every piece is shorter than
 * 4 GiB: the exact condition under which a splittable file comes back.
 */
module WholeStream {
  import opened MachineTypes
  import opened Headers
  import opened FileStore
  import opened Splitter
  import opened Requests
  import opened Connection
  import opened Runs
  import opened Transmission
  import opened Preparation
  import Protocol

  /** The bytes of the first `n` requests. */
  function Sent(job: Protocol.Job, n: nat): Bytes
    requires Protocol.JobShape(job) && n <= |job.parts|
  {
    if n == 0 then [] else Sent(job, n - 1) + Protocol.HeaderBytes(job, n - 1) + job.parts[n - 1]
  }

  /** As much of a piece as its header announces. */
  function Announced(part: Bytes): Bytes {
    part[..Wrap32(|part|)]
  }

  /** Request `i` as the server frames it. */
  function Frame(job: Protocol.Job, i: nat): Message
    requires Protocol.JobShape(job) && i < |job.parts|
  {
    Message(Protocol.HeaderBytes(job, i), Announced(job.parts[i]))
  }

  function Framed(job: Protocol.Job, n: nat): (ms: seq<Message>)
    requires Protocol.JobShape(job) && n <= |job.parts|
    ensures |ms| == n
    ensures forall i :: 0 <= i < n ==> ms[i] == Frame(job, i)
  {
    if n == 0 then [] else Framed(job, n - 1) + [Frame(job, n - 1)]
  }

  lemma {:induction false} WireSnoc(ms: seq<Message>, m: Message)
    ensures Wire(ms + [m]) == Wire(ms) + m.header + m.content
  {
    if ms == [] {
      assert Wire([m]) == m.header + m.content + Wire([]);
    } else {
      assert (ms + [m])[1..] == ms[1..] + [m];
      WireSnoc(ms[1..], m);
    }
  }

  /** While every piece fits its size field, the frames are exactly the bytes sent. */
  lemma {:induction false} FramesAreSent(job: Protocol.Job, n: nat)
    requires Protocol.JobShape(job) && n <= |job.parts|
    requires forall i :: 0 <= i < n ==> |job.parts[i]| < TWO_32
    ensures Wire(Framed(job, n)) == Sent(job, n)
  {
    if n > 0 {
      FramesAreSent(job, n - 1);
      WireSnoc(Framed(job, n - 1), Frame(job, n - 1));
      assert Announced(job.parts[n - 1]) == job.parts[n - 1];
    }
  }

  /** Only the last piece may be too long; what its header does not announce stays unread. */
  lemma StreamIsFramed(job: Protocol.Job, n: nat)
    requires Protocol.JobShape(job) && |job.parts| == n + 1
    requires forall i :: 0 <= i < n ==> |job.parts[i]| < TWO_32
    ensures Sent(job, n + 1) == Wire(Framed(job, n + 1)) + job.parts[n][Wrap32(|job.parts[n]|)..]
  {
    var part := job.parts[n];
    FramesAreSent(job, n);
    WireSnoc(Framed(job, n), Frame(job, n));
    CutAndRegroup(Sent(job, n), Protocol.HeaderBytes(job, n), part, Wrap32(|part|));
  }

  lemma CutAndRegroup(a: Bytes, b: Bytes, c: Bytes, n: nat)
    requires n <= |c|
    ensures a + b + c == (a + b + c[..n]) + c[n..]
  {
    assert c == c[..n] + c[n..];
  }

  lemma FrameIsWellFormed(job: Protocol.Job, i: nat)
    requires Protocol.JobShape(job) && i < |job.parts| < TWO_32
    ensures var m := Frame(job, i);
            WellFormed(m) && Index(m) == i && ParseRequest(m.header).uuid == job.uuid
  {
    ParseOfRequestImage(RequestHeaderFor(job.uuid, job.parts, i), job.padding[i]);
  }

  /** Within the limits, the frames make a complete transmission. */
  lemma FramesAreTransmission(job: Protocol.Job)
    requires Protocol.JobShape(job) && CheckPreRequest(Announcement(job.uuid, job.parts))
    ensures IsTransmission(Protocol.PreBytes(job), Framed(job, |job.parts|))
  {
    var ms, slots := Framed(job, |job.parts|), EmptySlots(|job.parts|);
    ParseOfPreImage(Announcement(job.uuid, job.parts));
    forall i | 0 <= i < |ms|
      ensures WellFormed(ms[i]) && Index(ms[i]) == i && CheckRequest(job.uuid, slots, ParseRequest(ms[i].header))
    {
      FrameIsWellFormed(job, i);
    }
  }

  /** The pieces the server stores. */
  function StoredParts(job: Protocol.Job): (r: seq<Bytes>)
    ensures |r| == |job.parts| && forall i :: 0 <= i < |r| ==> r[i] == Announced(job.parts[i])
  {
    seq(|job.parts|, i requires 0 <= i < |job.parts| => Announced(job.parts[i]))
  }

  function ServerAfter(job: Protocol.Job): (l: Link)
    requires Protocol.JobShape(job)
    ensures LinkInv(l)
  {
    Settle(Receive(FRESH, Protocol.PreBytes(job) + Sent(job, |job.parts|)))
  }

  lemma HeldFrames(job: Protocol.Job, slots: Slots)
    requires Protocol.JobShape(job) && |slots| == |job.parts|
    requires AllFilled(slots) && Holds(slots, Framed(job, |slots|))
    ensures SlotContents(slots) == StoredParts(job)
  {
    forall i | 0 <= i < |slots| ensures SlotContents(slots)[i] == StoredParts(job)[i] {
      FrameIsWellFormed(job, i);
      assert Framed(job, |slots|)[i] == Frame(job, i);
    }
  }

  lemma Regroup(a: Bytes, b: Bytes, c: Bytes)
    ensures a + (b + c) == a + b + c
  {
  }

  lemma ServerHoldsFrames(job: Protocol.Job)
    requires Protocol.JobShape(job) && CheckPreRequest(Announcement(job.uuid, job.parts))
    requires forall i :: 0 <= i < |job.parts| - 1 ==> |job.parts[i]| < TWO_32
    ensures var c := ServerAfter(job).conn;
            && c.phase.Saved? && c.pre.uuid == job.uuid
            && |c.slots| == |job.parts| && Holds(c.slots, Framed(job, |job.parts|))
  {
    var n, pre := |job.parts|, Protocol.PreBytes(job);
    var ms, rest := Framed(job, n), job.parts[n - 1][Wrap32(|job.parts[n - 1]|)..];
    assert pre + Sent(job, n) == pre + Wire(ms) + rest by {
      StreamIsFramed(job, n - 1);
      Regroup(pre, Wire(ms), rest);
    }
    FramesAreTransmission(job);
    TransmissionIsSaved(pre, ms, rest);
    assert ParsePre(pre) == Announcement(job.uuid, job.parts) by {
      ParseOfPreImage(Announcement(job.uuid, job.parts));
    }
  }

  /** Within the limits the server stores every piece as far as its header announces it. */
  lemma ServerStoresAnnounced(job: Protocol.Job)
    requires Protocol.JobShape(job) && CheckPreRequest(Announcement(job.uuid, job.parts))
    requires forall i :: 0 <= i < |job.parts| - 1 ==> |job.parts[i]| < TWO_32
    ensures var c := ServerAfter(job).conn;
            c.phase.Saved? && c.pre.uuid == job.uuid && SlotContents(c.slots) == StoredParts(job)
  {
    ServerHoldsFrames(job);
    HeldFrames(job, ServerAfter(job).conn.slots);
  }

  lemma SavedMeansWithinLimits(job: Protocol.Job)
    requires Protocol.JobShape(job) && ServerAfter(job).conn.phase.Saved?
    ensures CheckPreRequest(Announcement(job.uuid, job.parts))
  {
    var stream := Protocol.PreBytes(job) + Sent(job, |job.parts|);
    var pre, ms, rest := SavedStream(stream);
    assert pre == stream[..PRE_SIZE] == Protocol.PreBytes(job);
    ParseOfPreImage(Announcement(job.uuid, job.parts));
  }

  /** A cut last piece is missed: the stored pieces make up the file only if nothing was cut. */
  lemma StoredIsWholeIff(job: Protocol.Job)
    requires |job.parts| > 0 && forall i :: 0 <= i < |job.parts| - 1 ==> |job.parts[i]| < TWO_32
    ensures Flatten(StoredParts(job)) == Flatten(job.parts) <==> |job.parts[|job.parts| - 1]| < TWO_32
  {
    var n := |job.parts| - 1;
    var front, last := job.parts[..n], job.parts[n];
    forall i | 0 <= i < n ensures StoredParts(job)[i] == job.parts[i] {
      assert Announced(job.parts[i]) == job.parts[i];
    }
    assert job.parts == front + [last];
    assert StoredParts(job) == front + [Announced(last)];
    FlattenSnoc(front, last);
    FlattenSnoc(front, Announced(last));
    if |last| < TWO_32 {
      assert Announced(last) == last;
    } else {
      assert |Announced(last)| < |last|;
    }
  }

  /**
   * For every splittable file, of any length: once the server has taken in everything the client sends, the joined
   * pieces are the file if and only if the announcement is within the limits and every piece can announce its size.
   */
  lemma FileComesBackIff(data: Bytes, numSplits: nat, job: Protocol.Job, files: Files)
    requires Prepared(data, numSplits, job)
    requires forall i :: 0 <= i < numSplits ==> Path(job.uuid, i) !in files
    ensures Joined(FilesOf(ServerAfter(job).conn, files), job.uuid, numSplits) == Ok(data) <==>
            WithinLimits(|data|, numSplits) && Announceable(|data|, numSplits)
  {
    SplitThenJoin(data, numSplits, job.parts);
    forall i | 0 <= i < numSplits - 1 ensures |job.parts[i]| < TWO_32 {
      PieceLength(data, numSplits, i);
    }
    OffsetExact(|data|, numSplits, numSplits - 1);
    assert |job.parts[numSplits - 1]| == |data| - BeginOf(|data|, numSplits, numSplits - 1);
    if WithinLimits(|data|, numSplits) {
      ServerStoresAnnounced(job);
      JoinAfterSave(files, job.uuid, StoredParts(job));
      StoredIsWholeIff(job);
    } else {
      if ServerAfter(job).conn.phase.Saved? {
        SavedMeansWithinLimits(job);
        assert false;
      }
      JoinedThrows(files, job.uuid, numSplits);
      assert Path(job.uuid, 0) !in files;
    }
  }

  /** The same for every run of the connection that received those bytes, however they were cut, and is at rest. */
  lemma FileComesBackOnEveryRunIff(data: Bytes, numSplits: nat, job: Protocol.Job, files: Files, es: seq<Event>)
    requires Prepared(data, numSplits, job)
    requires forall i :: 0 <= i < numSplits ==> Path(job.uuid, i) !in files
    requires ValidRun(FRESH, es) && NoReadError(es) && !CanMove(Run(FRESH, es))
    requires Arrived(es) == Protocol.PreBytes(job) + Sent(job, |job.parts|)
    ensures Joined(RunFiles(FRESH, es, files), job.uuid, numSplits) == Ok(data) <==>
            WithinLimits(|data|, numSplits) && Announceable(|data|, numSplits)
  {
    RunHeadsForSettled(FRESH, es);
    RunSavesOnce(FRESH, es, files);
    FileComesBackIff(data, numSplits, job, files);
  }

  lemma FlattenOne(parts: seq<Bytes>)
    requires |parts| == 1
    ensures Flatten(parts) == parts[0]
  {
    assert parts[1..] == [];
  }

  /** The condition is not idle: of a single piece of 4 GiB and one byte, within the limits, only the byte is left. */
  lemma SomeFileIsCut(data: Bytes, job: Protocol.Job, files: Files)
    requires |data| == TWO_32 + 1 && |job.parts| == 1 && job.parts[0] == data && Protocol.JobShape(job)
    requires Path(job.uuid, 0) !in files
    ensures WithinLimits(|data|, 1)
    ensures Joined(FilesOf(ServerAfter(job).conn, files), job.uuid, 1) == Ok(data[..1])
  {
    assert Wrap32(|data|) == 1;
    FlattenOne(job.parts);
    ServerStoresAnnounced(job);
    JoinAfterSave(files, job.uuid, StoredParts(job));
    FlattenOne(StoredParts(job));
  }
}
