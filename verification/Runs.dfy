/** Whole runs of one connection: bytes arrive in fragments, reads complete, replies are written, errors strike. */
module Runs {
  import opened MachineTypes
  import opened FileStore
  import opened Connection

  /** A connection, the received bytes no read has taken yet, and how often files were saved. */
  datatype Link = Link(conn: Conn, inbox: Bytes, saves: nat)

  datatype Event =
    | Arrive(fragment: Bytes)
    | ReadDone
    | ReadError
    | WriteDone(ok: bool)

  const FRESH := Link(INITIAL, [], 0)

  ghost predicate LinkInv(l: Link) {
    Inv(l.conn) && l.saves == if l.conn.phase.Saved? then 1 else 0
  }

  predicate Enabled(l: Link, e: Event) {
    match e
    case Arrive(_) => true
    case ReadDone => Reading(l.conn) && |l.inbox| >= Need(l.conn)
    case ReadError => Reading(l.conn)
    case WriteDone(_) => l.conn.phase.Responding?
  }

  function Step(l: Link, e: Event): (r: Link)
    requires LinkInv(l) && Enabled(l, e)
    ensures LinkInv(r)
  {
    match e
    case Arrive(fragment) => l.(inbox := l.inbox + fragment)
    case ReadDone =>
      var n := Need(l.conn);
      ReadKeepsInv(l.conn, l.inbox[..n]);
      Link(OnRead(l.conn, l.inbox[..n]), l.inbox[n..], l.saves)
    case ReadError => l.(conn := l.conn.(phase := ReadFailed))
    case WriteDone(_) =>
      WrittenKeepsInv(l.conn);
      Link(OnWritten(l.conn), l.inbox, if l.conn.phase.next.SaveHorcruxes? then l.saves + 1 else l.saves)
  }

  function StepFiles(l: Link, e: Event, files: Files): Files
    requires LinkInv(l) && Enabled(l, e)
  {
    if e.WriteDone? then FilesOnWritten(l.conn, files) else files
  }

  predicate ValidRun(l: Link, es: seq<Event>)
    requires LinkInv(l)
    decreases es
  {
    es == [] || (Enabled(l, es[0]) && ValidRun(Step(l, es[0]), es[1..]))
  }

  function Run(l: Link, es: seq<Event>): (r: Link)
    requires LinkInv(l) && ValidRun(l, es)
    ensures LinkInv(r)
    decreases es
  {
    if es == [] then l else Run(Step(l, es[0]), es[1..])
  }

  function RunFiles(l: Link, es: seq<Event>, files: Files): Files
    requires LinkInv(l) && ValidRun(l, es)
    decreases es
  {
    if es == [] then files else RunFiles(Step(l, es[0]), es[1..], StepFiles(l, es[0], files))
  }

  lemma RunPrepend(l: Link, e: Event, es: seq<Event>, files: Files)
    requires LinkInv(l) && Enabled(l, e) && ValidRun(Step(l, e), es)
    ensures ValidRun(l, [e] + es) && Run(l, [e] + es) == Run(Step(l, e), es)
    ensures RunFiles(l, [e] + es, files) == RunFiles(Step(l, e), es, StepFiles(l, e, files))
  {
    assert ([e] + es)[1..] == es;
  }

  // ---------------------------------------------------------------------------
  // Save safety
  // ---------------------------------------------------------------------------

  /** What a connection that ends as `c` has done to the files. */
  function FilesOf(c: Conn, files: Files): Files
    requires Inv(c)
  {
    if c.phase.Saved? then SaveAll(files, c.pre.uuid, SlotContents(c.slots)) else files
  }

  /** A connection that will never read or save again. */
  predicate Over(c: Conn) {
    c.phase.Saved? || c.phase.Rejected? || c.phase.ReadFailed?
  }

  lemma {:induction false} OverStaysOver(l: Link, es: seq<Event>, files: Files)
    requires LinkInv(l) && ValidRun(l, es)
    requires Over(l.conn) || l.conn.phase == Responding(Stop)
    ensures RunFiles(l, es, files) == files
    ensures Over(l.conn) ==> Run(l, es).conn == l.conn
    ensures !l.conn.phase.Saved? ==> !Run(l, es).conn.phase.Saved?
    decreases es
  {
    if es != [] {
      OverStaysOver(Step(l, es[0]), es[1..], StepFiles(l, es[0], files));
    }
  }

  /**
   * Over every run, with any peer and any pattern of write errors, the files are changed exactly when the
   * connection reaches `Saved`, once, and then by its own slots.
   */
  lemma {:induction false} RunSavesOnce(l: Link, es: seq<Event>, files: Files)
    requires LinkInv(l) && ValidRun(l, es) && !l.conn.phase.Saved?
    ensures RunFiles(l, es, files) == FilesOf(Run(l, es).conn, files)
    decreases es
  {
    if es != [] {
      var m := Step(l, es[0]);
      if m.conn.phase.Saved? {
        OverStaysOver(m, es[1..], StepFiles(l, es[0], files));
      } else {
        RunSavesOnce(m, es[1..], files);
      }
    }
  }

  /** What it takes to reach the save: everything filled, every reply a success, one per accepted message. */
  lemma SavedMeansComplete(es: seq<Event>)
    requires ValidRun(FRESH, es)
    ensures var l := Run(FRESH, es);
            && l.saves <= 1
            && (l.saves == 1 <==> l.conn.phase.Saved?)
            && (l.conn.phase.Saved? ==>
                  && AllFilled(l.conn.slots)
                  && 1 <= |l.conn.slots| == l.conn.pre.numHorcruxes <= MAX_NUM_HORCRUXES
                  && l.conn.pre.totalSize <= MAX_TOTAL_SIZE
                  && |l.conn.replies| == l.conn.pre.numHorcruxes + 1
                  && false !in l.conn.replies)
  {
    var l := Run(FRESH, es);
    NumEmptyZero(l.conn.slots);
  }

  /** After a FAILURE reply or a read error nothing is ever saved. */
  lemma NoSaveAfterFailure(l: Link, es: seq<Event>, files: Files)
    requires LinkInv(l) && ValidRun(l, es)
    requires false in l.conn.replies || l.conn.phase.ReadFailed?
    ensures RunFiles(l, es, files) == files && Run(l, es).saves == 0
  {
    assert Over(l.conn) || l.conn.phase == Responding(Stop);
    OverStaysOver(l, es, files);
  }

  /** Filled slots and the accepted pre-request are frozen for the rest of the run. */
  lemma {:induction false} SlotsAreWriteOnce(l: Link, es: seq<Event>, index: nat)
    requires LinkInv(l) && ValidRun(l, es) && !l.conn.phase.ReadingPreRequest?
    ensures var r := Run(l, es).conn;
            && r.pre == l.conn.pre && |r.slots| == |l.conn.slots| && l.conn.replies <= r.replies
            && (index < |l.conn.slots| && l.conn.slots[index].Some? ==> r.slots[index] == l.conn.slots[index])
            && (index < |r.slots| && r.slots[index] != l.conn.slots[index] ==> r.slots[index].Some?)
    decreases es
  {
    if es != [] {
      SlotsAreWriteOnce(Step(l, es[0]), es[1..], index);
    }
  }

  // ---------------------------------------------------------------------------
  // Segmentation independence
  // ---------------------------------------------------------------------------

  /** Something the server can do without new bytes. */
  predicate CanMove(l: Link) {
    l.conn.phase.Responding? || (Reading(l.conn) && |l.inbox| >= Need(l.conn))
  }

  function Move(l: Link): (r: Link)
    requires LinkInv(l) && CanMove(l)
    ensures LinkInv(r)
  {
    if l.conn.phase.Responding? then Step(l, WriteDone(true)) else Step(l, ReadDone)
  }

  function Rank(c: Conn): nat {
    if c.phase.ReadingContent? then 2 else if c.phase.Responding? then 1 else 0
  }

  /** Let the server work until it waits for more bytes or is over: the deterministic reference. */
  function Settle(l: Link): (r: Link)
    requires LinkInv(l)
    ensures LinkInv(r) && !CanMove(r)
    decreases |l.inbox|, Rank(l.conn)
  {
    if CanMove(l) then Settle(Move(l)) else l
  }

  function Receive(l: Link, bytes: Bytes): (r: Link)
    requires LinkInv(l)
    ensures LinkInv(r)
  {
    l.(inbox := l.inbox + bytes)
  }

  /** Bytes that arrive later do not change what the server does now. */
  lemma MoveCommutes(l: Link, bytes: Bytes)
    requires LinkInv(l) && CanMove(l)
    ensures CanMove(Receive(l, bytes)) && Move(Receive(l, bytes)) == Receive(Move(l), bytes)
  {
    if !l.conn.phase.Responding? {
      var n := Need(l.conn);
      assert (l.inbox + bytes)[..n] == l.inbox[..n];
      assert (l.inbox + bytes)[n..] == l.inbox[n..] + bytes;
    }
  }

  lemma {:induction false} SettleThenReceive(l: Link, bytes: Bytes)
    requires LinkInv(l)
    ensures Settle(Receive(l, bytes)) == Settle(Receive(Settle(l), bytes))
    decreases |l.inbox|, Rank(l.conn)
  {
    if CanMove(l) {
      MoveCommutes(l, bytes);
      SettleThenReceive(Move(l), bytes);
    }
  }

  /** Feeding a + b is feeding a, letting the server settle, and feeding b. */
  lemma FeedInTwo(l: Link, a: Bytes, b: Bytes)
    requires LinkInv(l)
    ensures Settle(Receive(l, a + b)) == Settle(Receive(Settle(Receive(l, a)), b))
  {
    assert Receive(l, a + b) == Receive(Receive(l, a), b) by { assert l.inbox + (a + b) == l.inbox + a + b; }
    SettleThenReceive(Receive(l, a), b);
  }

  predicate NoReadError(es: seq<Event>) {
    forall i :: 0 <= i < |es| ==> !es[i].ReadError?
  }

  function Arrived(es: seq<Event>): Bytes {
    if es == [] then []
    else (if es[0].Arrive? then es[0].fragment else []) + Arrived(es[1..])
  }

  /**
   * Every interleaving of arrivals, read completions and write completions (successful or not) heads for the
   * same state: the one the reference reaches on the concatenation of all fragments.
   */
  lemma {:induction false} RunHeadsForSettled(l: Link, es: seq<Event>)
    requires LinkInv(l) && ValidRun(l, es) && NoReadError(es)
    ensures Settle(Run(l, es)) == Settle(Receive(l, Arrived(es)))
    decreases es
  {
    if es == [] {
      assert Receive(l, []) == l;
    } else {
      var m, rest := Step(l, es[0]), Arrived(es[1..]);
      RunHeadsForSettled(m, es[1..]);
      if es[0].Arrive? {
        assert Receive(m, rest) == Receive(l, Arrived(es)) by {
          assert l.inbox + es[0].fragment + rest == l.inbox + (es[0].fragment + rest);
        }
      } else {
        assert Arrived(es) == rest;
        assert m == Move(l);
        MoveCommutes(l, rest);
      }
    }
  }

  /**
   * Two error-free runs that received the same bytes and have nothing left to do are in the same state and
   * have written the same files, however the bytes were cut and whichever replies failed to be written.
   */
  lemma SegmentationIndependence(es: seq<Event>, fs: seq<Event>, files: Files)
    requires ValidRun(FRESH, es) && NoReadError(es) && !CanMove(Run(FRESH, es))
    requires ValidRun(FRESH, fs) && NoReadError(fs) && !CanMove(Run(FRESH, fs))
    requires Arrived(es) == Arrived(fs)
    ensures Run(FRESH, es) == Run(FRESH, fs)
    ensures RunFiles(FRESH, es, files) == RunFiles(FRESH, fs, files)
  {
    RunHeadsForSettled(FRESH, es);
    RunHeadsForSettled(FRESH, fs);
    RunSavesOnce(FRESH, es, files);
    RunSavesOnce(FRESH, fs, files);
  }
}
