/** Which byte streams make the server save, and what it saves: soundness and completeness of the framing. */
module Transmission {
  import opened MachineTypes
  import opened Headers
  import opened FileStore
  import opened Connection
  import opened Runs

  /** One request on the wire. */
  datatype Message = Message(header: Bytes, content: Bytes)

  predicate WellFormed(m: Message) {
    |m.header| == REQUEST_SIZE && ParseRequest(m.header).contentSize == |m.content|
  }

  function Index(m: Message): nat
    requires WellFormed(m)
  {
    ParseRequest(m.header).index
  }

  function Wire(ms: seq<Message>): Bytes {
    if ms == [] then [] else ms[0].header + ms[0].content + Wire(ms[1..])
  }

  /** `ms` fills exactly the empty slots, each once, in any order. */
  ghost predicate Completes(uuid: uint64, slots: Slots, ms: seq<Message>) {
    && 0 < |ms| == NumEmpty(slots)
    && (forall j :: 0 <= j < |ms| ==> WellFormed(ms[j]) && CheckRequest(uuid, slots, ParseRequest(ms[j].header)))
    && (forall i, j :: 0 <= i < j < |ms| ==> Index(ms[i]) != Index(ms[j]))
  }

  /** A complete transmission: an acceptable announcement and one message per slot. */
  ghost predicate IsTransmission(pre: Bytes, ms: seq<Message>) {
    && |pre| == PRE_SIZE && CheckPreRequest(ParsePre(pre))
    && Completes(ParsePre(pre).uuid, EmptySlots(ParsePre(pre).numHorcruxes), ms)
  }

  /** Slot `Index(m)` holds the content of `m`, for every message. */
  ghost predicate Holds(slots: Slots, ms: seq<Message>) {
    forall j :: 0 <= j < |ms| ==>
      WellFormed(ms[j]) && Index(ms[j]) < |slots| && slots[Index(ms[j])] == Some(ms[j].content)
  }

  // ---------------------------------------------------------------------------
  // One message
  // ---------------------------------------------------------------------------

  function Filled(slots: Slots, m: Message): Slots
    requires WellFormed(m) && Index(m) < |slots|
  {
    slots[Index(m) := Some(m.content)]
  }

  lemma CompletesStep(uuid: uint64, slots: Slots, ms: seq<Message>)
    requires Completes(uuid, slots, ms)
    ensures var next := Filled(slots, ms[0]);
            && NumEmpty(next) == |ms| - 1
            && (AllFilled(next) <==> |ms| == 1)
            && (|ms| > 1 ==> Completes(uuid, next, ms[1..]))
  {
    var next := Filled(slots, ms[0]);
    NumEmptyFill(slots, Index(ms[0]), ms[0].content);
    NumEmptyZero(next);
    forall j | 0 <= j < |ms| - 1 ensures CheckRequest(uuid, next, ParseRequest(ms[1..][j].header)) {
      assert ms[1..][j] == ms[j + 1];
      assert Index(ms[0]) != Index(ms[j + 1]);
    }
  }

  lemma CompletesPrepend(uuid: uint64, slots: Slots, m: Message, ms: seq<Message>)
    requires WellFormed(m) && CheckRequest(uuid, slots, ParseRequest(m.header))
    requires if ms == [] then AllFilled(Filled(slots, m)) else Completes(uuid, Filled(slots, m), ms)
    ensures Completes(uuid, slots, [m] + ms)
  {
    var all, next := [m] + ms, Filled(slots, m);
    NumEmptyFill(slots, Index(m), m.content);
    NumEmptyZero(next);
    assert forall j :: 0 < j < |all| ==> all[j] == ms[j - 1];
  }

  /** A connection waiting for the header of its next request. */
  ghost predicate AwaitsRequest(l: Link) {
    LinkInv(l) && l.conn.phase.ReadingHeader?
  }

  lemma SettleMoves(l: Link)
    requires LinkInv(l) && CanMove(l)
    ensures Settle(l) == Settle(Move(l))
  {
  }

  /** Header, content, reply: three moves take one good message. */
  lemma TakeMessage(l: Link, m: Message, rest: Bytes) returns (r: Link)
    requires AwaitsRequest(l) && l.inbox == m.header + m.content + rest
    requires WellFormed(m) && CheckRequest(l.conn.pre.uuid, l.conn.slots, ParseRequest(m.header))
    ensures LinkInv(r) && Settle(l) == Settle(r) && r.inbox == rest && r.conn.pre == l.conn.pre
    ensures r.conn.slots == Filled(l.conn.slots, m)
    ensures r.conn.phase == if AllFilled(r.conn.slots) then Saved else ReadingHeader
    ensures r.conn.replies == l.conn.replies + [true]
  {
    assert l.inbox[..REQUEST_SIZE] == m.header && l.inbox[REQUEST_SIZE..] == m.content + rest;
    var l1 := Move(l);
    SettleMoves(l);
    assert l1.inbox == m.content + rest && l1.conn.phase.ReadingContent?;
    assert l1.inbox[..|m.content|] == m.content && l1.inbox[|m.content|..] == rest;
    var l2 := Move(l1);
    SettleMoves(l1);
    r := Move(l2);
    SettleMoves(l2);
  }

  // ---------------------------------------------------------------------------
  // Completeness
  // ---------------------------------------------------------------------------

  ghost predicate Extends(s: Slots, t: Slots) {
    |s| == |t| && forall i :: 0 <= i < |s| && s[i].Some? ==> t[i] == s[i]
  }

  lemma HoldsPrepend(slots: Slots, m: Message, ms: seq<Message>, final: Slots)
    requires WellFormed(m) && Index(m) < |slots| && slots[Index(m)].None?
    requires Extends(Filled(slots, m), final) && Holds(final, ms)
    ensures Extends(slots, final) && Holds(final, [m] + ms)
  {
    assert Filled(slots, m)[Index(m)].Some?;
    forall j | 0 <= j < |[m] + ms| ensures Holds(final, [([m] + ms)[j]]) {
      assert j > 0 ==> ([m] + ms)[j] == ms[j - 1];
    }
    assert forall j :: 0 <= j < |[m] + ms| ==> [([m] + ms)[j]][0] == ([m] + ms)[j];
  }

  lemma {:induction false} CompletingMessagesAreSaved(l: Link, ms: seq<Message>, rest: Bytes)
    requires AwaitsRequest(l) && Completes(l.conn.pre.uuid, l.conn.slots, ms) && l.inbox == Wire(ms) + rest
    ensures Settle(l).conn.phase.Saved? && Settle(l).inbox == rest && Settle(l).conn.pre == l.conn.pre
    ensures Extends(l.conn.slots, Settle(l).conn.slots) && Holds(Settle(l).conn.slots, ms)
    decreases |ms|
  {
    var m, tail := ms[0], Wire(ms[1..]) + rest;
    WirePrepend(m, ms[1..], rest);
    assert ms == [m] + ms[1..];
    CompletesStep(l.conn.pre.uuid, l.conn.slots, ms);
    var next := TakeMessage(l, m, tail);
    if |ms| == 1 {
      assert tail == rest;
      SettledWhenSaved(next);
    } else {
      CompletingMessagesAreSaved(next, ms[1..], rest);
    }
    HoldsPrepend(l.conn.slots, m, ms[1..], Settle(next).conn.slots);
  }

  lemma SettledWhenSaved(l: Link)
    requires LinkInv(l) && l.conn.phase.Saved?
    ensures Settle(l) == l
  {
  }

  lemma TakePreRequest(pre: Bytes, rest: Bytes) returns (r: Link)
    requires |pre| == PRE_SIZE && CheckPreRequest(ParsePre(pre))
    ensures AwaitsRequest(r) && Settle(Receive(FRESH, pre + rest)) == Settle(r) && r.inbox == rest
    ensures r.conn.pre == ParsePre(pre) && r.conn.slots == EmptySlots(ParsePre(pre).numHorcruxes)
    ensures r.conn.replies == [true]
  {
    var l := Receive(FRESH, pre + rest);
    assert l.inbox == pre + rest;
    assert l.inbox[..PRE_SIZE] == pre && l.inbox[PRE_SIZE..] == rest;
    var l1 := Move(l);
    SettleMoves(l);
    assert l1.conn.slots == EmptySlots(ParsePre(pre).numHorcruxes);
    r := Move(l1);
    SettleMoves(l1);
  }

  /** Every complete transmission is saved, piece for piece, and nothing behind it is read. */
  lemma TransmissionIsSaved(pre: Bytes, ms: seq<Message>, rest: Bytes)
    requires IsTransmission(pre, ms)
    ensures var r := Settle(Receive(FRESH, pre + Wire(ms) + rest));
            && r.conn.phase.Saved? && r.inbox == rest && r.conn.pre == ParsePre(pre)
            && |r.conn.slots| == |ms| && Holds(r.conn.slots, ms)
  {
    assert pre + Wire(ms) + rest == pre + (Wire(ms) + rest);
    var l := TakePreRequest(pre, Wire(ms) + rest);
    CompletingMessagesAreSaved(l, ms, rest);
  }

  // ---------------------------------------------------------------------------
  // Soundness
  // ---------------------------------------------------------------------------

  /** A good message is waiting in full. */
  predicate HasMessage(l: Link) {
    && |l.inbox| >= REQUEST_SIZE
    && var h := ParseRequest(l.inbox[..REQUEST_SIZE]);
       CheckRequest(l.conn.pre.uuid, l.conn.slots, h) && |l.inbox| >= REQUEST_SIZE + h.contentSize
  }

  lemma StoppedIsNotSaved(l: Link)
    requires LinkInv(l) && l.conn.phase == Responding(Stop)
    ensures !Settle(l).conn.phase.Saved?
  {
    SettleMoves(l);
    assert Move(l).conn.phase.Rejected?;
  }

  lemma NoMessageNoSave(l: Link)
    requires AwaitsRequest(l) && !HasMessage(l)
    ensures !Settle(l).conn.phase.Saved?
  {
    if |l.inbox| >= REQUEST_SIZE {
      SettleMoves(l);
      var l1 := Move(l);
      if l1.conn.phase.Responding? {
        StoppedIsNotSaved(l1);
      }
    }
  }

  lemma {:induction false} SavedMessagesComplete(l: Link) returns (ms: seq<Message>, rest: Bytes)
    requires AwaitsRequest(l) && Settle(l).conn.phase.Saved?
    ensures l.inbox == Wire(ms) + rest && Completes(l.conn.pre.uuid, l.conn.slots, ms)
    decreases |l.inbox|
  {
    if !HasMessage(l) {
      NoMessageNoSave(l);
      assert false;
    }
    var end := REQUEST_SIZE + ParseRequest(l.inbox[..REQUEST_SIZE]).contentSize;
    var m := Message(l.inbox[..REQUEST_SIZE], l.inbox[REQUEST_SIZE..end]);
    assert l.inbox == m.header + m.content + l.inbox[end..];
    var next := TakeMessage(l, m, l.inbox[end..]);
    if next.conn.phase.Saved? {
      ms, rest := [], l.inbox[end..];
    } else {
      ms, rest := SavedMessagesComplete(next);
    }
    CompletesPrepend(l.conn.pre.uuid, l.conn.slots, m, ms);
    WirePrepend(m, ms, rest);
    ms := [m] + ms;
  }

  lemma WirePrepend(m: Message, ms: seq<Message>, rest: Bytes)
    ensures Wire([m] + ms) + rest == m.header + m.content + (Wire(ms) + rest)
  {
    assert ([m] + ms)[1..] == ms;
  }

  /** The server saves a stream exactly when it begins with a complete transmission. */
  lemma SavesIff(stream: Bytes)
    ensures Settle(Receive(FRESH, stream)).conn.phase.Saved? <==>
            exists pre, ms, rest :: IsTransmission(pre, ms) && stream == pre + Wire(ms) + rest
  {
    if Settle(Receive(FRESH, stream)).conn.phase.Saved? {
      var pre, ms, rest := SavedStream(stream);
    }
    if exists pre, ms, rest :: IsTransmission(pre, ms) && stream == pre + Wire(ms) + rest {
      var pre, ms, rest :| IsTransmission(pre, ms) && stream == pre + Wire(ms) + rest;
      TransmissionIsSaved(pre, ms, rest);
    }
  }

  /** The same for real runs: however the bytes were cut and interleaved, the files change on exactly those streams. */
  lemma RunSavesIff(es: seq<Event>)
    requires ValidRun(FRESH, es) && NoReadError(es) && !CanMove(Run(FRESH, es))
    ensures Run(FRESH, es).saves == 1 <==>
            exists pre, ms, rest :: IsTransmission(pre, ms) && Arrived(es) == pre + Wire(ms) + rest
  {
    RunHeadsForSettled(FRESH, es);
    SavesIff(Arrived(es));
  }

  /** Nothing is saved without an acceptable announcement. */
  lemma SavedIsAccepted(stream: Bytes)
    requires Settle(Receive(FRESH, stream)).conn.phase.Saved?
    ensures |stream| >= PRE_SIZE && CheckPreRequest(ParsePre(stream[..PRE_SIZE]))
  {
    var l := Receive(FRESH, stream);
    assert l.inbox == stream;
    if |stream| >= PRE_SIZE && !CheckPreRequest(ParsePre(stream[..PRE_SIZE])) {
      SettleMoves(l);
      StoppedIsNotSaved(Move(l));
      assert false;
    }
  }

  lemma SavedStream(stream: Bytes) returns (pre: Bytes, ms: seq<Message>, rest: Bytes)
    requires Settle(Receive(FRESH, stream)).conn.phase.Saved?
    ensures IsTransmission(pre, ms) && stream == pre + Wire(ms) + rest
  {
    SavedIsAccepted(stream);
    var behind := stream[PRE_SIZE..];
    pre := stream[..PRE_SIZE];
    assert stream == pre + behind;
    var l := TakePreRequest(pre, behind);
    ms, rest := SavedMessagesComplete(l);
    assert pre + (Wire(ms) + rest) == pre + Wire(ms) + rest;
  }

  // ---------------------------------------------------------------------------
  // Transmissions that are not complete
  // ---------------------------------------------------------------------------

  /** Each message is well formed and finds its slot empty, and no two want the same slot. */
  ghost predicate Fit(uuid: uint64, slots: Slots, ms: seq<Message>) {
    && (forall j :: 0 <= j < |ms| ==> WellFormed(ms[j]) && CheckRequest(uuid, slots, ParseRequest(ms[j].header)))
    && (forall i, j :: 0 <= i < j < |ms| ==> Index(ms[i]) != Index(ms[j]))
  }

  lemma RestFits(uuid: uint64, slots: Slots, ms: seq<Message>)
    requires Fit(uuid, slots, ms) && ms != []
    ensures Fit(uuid, Filled(slots, ms[0]), ms[1..])
    ensures NumEmpty(Filled(slots, ms[0])) == NumEmpty(slots) - 1
    ensures AllFilled(Filled(slots, ms[0])) <==> NumEmpty(slots) == 1
  {
    var rest, next := ms[1..], Filled(slots, ms[0]);
    NumEmptyFill(slots, Index(ms[0]), ms[0].content);
    NumEmptyZero(next);
    forall j | 0 <= j < |rest| ensures WellFormed(rest[j]) && CheckRequest(uuid, next, ParseRequest(rest[j].header)) {
      assert rest[j] == ms[j + 1] && Index(ms[0]) != Index(ms[j + 1]);
    }
  }

  /** `n` successes. */
  function Successes(n: nat): (r: seq<bool>)
    ensures |r| == n && forall i :: 0 <= i < n ==> r[i]
  {
    seq(n, _ => true)
  }

  /** One of the messages is for slot `i`. */
  ghost predicate Wanted(ms: seq<Message>, i: nat) {
    exists j :: 0 <= j < |ms| && WellFormed(ms[j]) && Index(ms[j]) == i
  }

  lemma WantedFirst(ms: seq<Message>, i: nat)
    requires ms != [] && WellFormed(ms[0])
    ensures Wanted(ms, i) <==> Index(ms[0]) == i || Wanted(ms[1..], i)
  {
    if Wanted(ms[1..], i) {
      var j :| 0 <= j < |ms| - 1 && WellFormed(ms[1..][j]) && Index(ms[1..][j]) == i;
      assert ms[j + 1] == ms[1..][j];
    }
    if Wanted(ms, i) && Index(ms[0]) != i {
      var j :| 0 <= j < |ms| && WellFormed(ms[j]) && Index(ms[j]) == i;
      assert ms[1..][j - 1] == ms[j];
    }
  }

  /** The filled slots of `final` are those of `slots` and those the messages want. */
  ghost predicate FilledBy(slots: Slots, ms: seq<Message>, final: Slots) {
    && |final| == |slots|
    && forall i :: 0 <= i < |slots| ==> (final[i].Some? <==> slots[i].Some? || Wanted(ms, i))
  }

  lemma FilledFirst(slots: Slots, ms: seq<Message>, final: Slots)
    requires ms != [] && WellFormed(ms[0]) && Index(ms[0]) < |slots|
    requires FilledBy(Filled(slots, ms[0]), ms[1..], final)
    ensures FilledBy(slots, ms, final)
  {
    forall i | 0 <= i < |slots| ensures final[i].Some? <==> slots[i].Some? || Wanted(ms, i) {
      WantedFirst(ms, i);
    }
  }

  lemma OneMoreSuccess(replies: seq<bool>, n: nat)
    ensures replies + [true] + Successes(n) == replies + Successes(n + 1)
  {
    assert [true] + Successes(n) == Successes(n + 1);
  }

  /** `r` is `l` once it has stored the good messages `ms` and answered each of them with success. */
  ghost predicate HasTaken(l: Link, r: Link, ms: seq<Message>)
    requires LinkInv(l)
  {
    && AwaitsRequest(r) && Settle(l) == Settle(r) && r.conn.pre == l.conn.pre
    && NumEmpty(r.conn.slots) == NumEmpty(l.conn.slots) - |ms|
    && r.conn.replies == l.conn.replies + Successes(|ms|)
    && FilledBy(l.conn.slots, ms, r.conn.slots)
  }

  /** Good messages that do not yet fill every slot leave the server waiting for the next one. */
  lemma {:induction false} TakeSome(l: Link, ms: seq<Message>, rest: Bytes) returns (r: Link)
    requires AwaitsRequest(l) && |ms| < NumEmpty(l.conn.slots) && l.inbox == Wire(ms) + rest
    requires Fit(l.conn.pre.uuid, l.conn.slots, ms)
    ensures HasTaken(l, r, ms) && r.inbox == rest
    decreases |ms|
  {
    if ms == [] {
      r := l;
      assert l.conn.replies + [] == l.conn.replies;
    } else {
      RestFits(l.conn.pre.uuid, l.conn.slots, ms);
      assert l.inbox == ms[0].header + ms[0].content + (Wire(ms[1..]) + rest) by {
        WirePrepend(ms[0], ms[1..], rest);
        assert ms == [ms[0]] + ms[1..];
      }
      var m := TakeMessage(l, ms[0], Wire(ms[1..]) + rest);
      r := TakeSome(m, ms[1..], rest);
      OneMoreSuccess(l.conn.replies, |ms| - 1);
      FilledFirst(l.conn.slots, ms, r.conn.slots);
    }
  }

  // ---------------------------------------------------------------------------
  // Refusals
  // ---------------------------------------------------------------------------

  /** What is wrong with a request after an announcement and some good requests, read off the bytes. */
  ghost predicate WrongRequest(pre: Bytes, ms: seq<Message>, header: Bytes)
    requires |pre| == PRE_SIZE && |header| == REQUEST_SIZE
  {
    || FromBytes(header[..8]) != FromBytes(pre[..8])
    || FromBytes(header[8..12]) >= FromBytes(pre[12..16])
    || Wanted(ms, FromBytes(header[8..12]))
  }

  lemma RefusedSettles(l: Link, header: Bytes, rest: Bytes)
    requires AwaitsRequest(l) && |header| == REQUEST_SIZE && l.inbox == header + rest && WrongHeader(l.conn, header)
    ensures Settle(l).conn.phase.Rejected? && Settle(l).conn.replies == l.conn.replies + [false]
    ensures Settle(l).inbox == rest
  {
    assert l.inbox[..REQUEST_SIZE] == header && l.inbox[REQUEST_SIZE..] == rest;
    HeaderDecides(l.conn, header);
    SettleMoves(l);
    SettleMoves(Move(l));
  }

  lemma WrongForServer(pre: Bytes, ms: seq<Message>, header: Bytes, c: Conn)
    requires |pre| == PRE_SIZE && |header| == REQUEST_SIZE && WrongRequest(pre, ms, header)
    requires c.pre == ParsePre(pre) && FilledBy(EmptySlots(c.pre.numHorcruxes), ms, c.slots)
    ensures WrongHeader(c, header)
  {
    assert pre[12..] == pre[12..16];
  }

  /** An announcement and good messages that leave slots empty take the server to its next header. */
  lemma TakeIncomplete(pre: Bytes, ms: seq<Message>, tail: Bytes) returns (m: Link)
    requires |pre| == PRE_SIZE && CheckPreRequest(ParsePre(pre)) && |ms| < ParsePre(pre).numHorcruxes
    requires Fit(ParsePre(pre).uuid, EmptySlots(ParsePre(pre).numHorcruxes), ms)
    ensures AwaitsRequest(m) && m.inbox == tail && m.conn.pre == ParsePre(pre)
    ensures Settle(Receive(FRESH, pre + (Wire(ms) + tail))) == Settle(m)
    ensures m.conn.replies == Successes(|ms| + 1)
    ensures FilledBy(EmptySlots(m.conn.pre.numHorcruxes), ms, m.conn.slots)
  {
    var l := TakePreRequest(pre, Wire(ms) + tail);
    m := TakeSome(l, ms, tail);
    OneMoreSuccess([], |ms|);
    assert [] + [true] == [true] && [] + Successes(|ms| + 1) == Successes(|ms| + 1);
  }

  /**
   * A transmission that is still incomplete and goes on with another uuid, an index out of range or a slot that is
   * already filled: the server answers every good message with success and the wrong one with failure, stores nothing,
   * and leaves what follows unread.
   */
  lemma WrongRequestStops(pre: Bytes, ms: seq<Message>, header: Bytes, rest: Bytes)
    requires |pre| == PRE_SIZE && CheckPreRequest(ParsePre(pre)) && |ms| < ParsePre(pre).numHorcruxes
    requires Fit(ParsePre(pre).uuid, EmptySlots(ParsePre(pre).numHorcruxes), ms)
    requires |header| == REQUEST_SIZE && WrongRequest(pre, ms, header)
    ensures var r := Settle(Receive(FRESH, pre + Wire(ms) + header + rest));
            && r.conn.phase.Rejected? && r.saves == 0 && r.inbox == rest
            && r.conn.replies == Successes(|ms| + 1) + [false]
  {
    var m := TakeIncomplete(pre, ms, header + rest);
    WrongForServer(pre, ms, header, m.conn);
    RefusedSettles(m, header, rest);
    Bracketed(pre, Wire(ms), header, rest);
  }

  lemma Bracketed(a: Bytes, b: Bytes, c: Bytes, d: Bytes)
    ensures a + b + c + d == a + (b + (c + d))
  {
  }

  /** An announcement over one of the limits is answered with failure, and nothing behind it is read. */
  lemma WrongAnnouncementStops(pre: Bytes, rest: Bytes)
    requires |pre| == PRE_SIZE && (FromBytes(pre[12..16]) > 20 || FromBytes(pre[8..12]) > 10_000_000)
    ensures var r := Settle(Receive(FRESH, pre + rest));
            r.conn.phase.Rejected? && r.saves == 0 && r.inbox == rest && r.conn.replies == [false]
  {
    var l := Receive(FRESH, pre + rest);
    assert l.inbox == pre + rest && l.inbox[..PRE_SIZE] == pre && l.inbox[PRE_SIZE..] == rest;
    AnnouncementDecides(l.conn, pre);
    SettleMoves(l);
    SettleMoves(Move(l));
  }

  /** The same for every real run at rest, however the bytes were cut: the directory stays as it was. */
  lemma RunWithWrongRequestStops(pre: Bytes, ms: seq<Message>, header: Bytes, rest: Bytes, es: seq<Event>, files: Files)
    requires |pre| == PRE_SIZE && CheckPreRequest(ParsePre(pre)) && |ms| < ParsePre(pre).numHorcruxes
    requires Fit(ParsePre(pre).uuid, EmptySlots(ParsePre(pre).numHorcruxes), ms)
    requires |header| == REQUEST_SIZE && WrongRequest(pre, ms, header)
    requires ValidRun(FRESH, es) && NoReadError(es) && !CanMove(Run(FRESH, es))
    requires Arrived(es) == pre + Wire(ms) + header + rest
    ensures Run(FRESH, es).conn.replies == Successes(|ms| + 1) + [false] && RunFiles(FRESH, es, files) == files
  {
    RunHeadsForSettled(FRESH, es);
    WrongRequestStops(pre, ms, header, rest);
    RunSavesOnce(FRESH, es, files);
  }

  // ---------------------------------------------------------------------------
  // Order independence
  // ---------------------------------------------------------------------------

  /** A value that occurs twice in a multiset of a sequence has two positions. */
  lemma {:induction false} TwoPositions(ms: seq<Message>, m: Message) returns (i: nat, j: nat)
    requires multiset(ms)[m] >= 2
    ensures i < j < |ms| && ms[i] == m && ms[j] == m
  {
    assert ms == [ms[0]] + ms[1..];
    if ms[0] == m {
      assert m in ms[1..] by { assert m in multiset(ms[1..]); }
      var k :| 0 <= k < |ms[1..]| && ms[1..][k] == m;
      i, j := 0, k + 1;
    } else {
      i, j := TwoPositions(ms[1..], m);
      i, j := i + 1, j + 1;
    }
  }

  lemma {:induction false} TwoOccurrences(ms: seq<Message>, i: nat, j: nat)
    requires i < j < |ms| && ms[i] == ms[j]
    ensures multiset(ms)[ms[i]] >= 2
  {
    assert ms == ms[..j] + ms[j..];
    assert ms[..j][i] in multiset(ms[..j]);
    assert ms[j..][0] in multiset(ms[j..]);
  }

  lemma PermutedCompletes(uuid: uint64, slots: Slots, ms: seq<Message>, ns: seq<Message>)
    requires Completes(uuid, slots, ms) && multiset(ms) == multiset(ns)
    ensures Completes(uuid, slots, ns)
  {
    assert |ms| == |multiset(ms)| == |multiset(ns)| == |ns|;
    forall j | 0 <= j < |ns| ensures ns[j] in ms {
      assert ns[j] in multiset(ns);
    }
    forall i, j | 0 <= i < j < |ns| ensures Index(ns[i]) != Index(ns[j]) {
      assert ns[i] in ms && ns[j] in ms;
      var a :| 0 <= a < |ms| && ms[a] == ns[i];
      var b :| 0 <= b < |ms| && ms[b] == ns[j];
      if ns[i] == ns[j] {
        TwoOccurrences(ns, i, j);
        a, b := TwoPositions(ms, ns[i]);
      }
      assert a != b;
    }
  }

  /** Two slot vectors that are full and hold the same messages are equal. */
  lemma HoldingDeterminesSlots(uuid: uint64, n: nat, ms: seq<Message>, ns: seq<Message>, s: Slots, t: Slots)
    requires Completes(uuid, EmptySlots(n), ms) && multiset(ms) == multiset(ns)
    requires |s| == |t| == n && Holds(s, ms) && Holds(t, ns)
    ensures s == t
  {
    forall i | 0 <= i < n ensures s[i] == t[i] {
      var j := MessageFor(uuid, EmptySlots(n), ms, i);
      assert ms[j] in multiset(ns);
      var k :| 0 <= k < |ns| && ns[k] == ms[j];
    }
  }

  /** Every empty slot has its message. */
  lemma {:induction false} MessageFor(uuid: uint64, slots: Slots, ms: seq<Message>, i: nat) returns (j: nat)
    requires Completes(uuid, slots, ms) && i < |slots| && slots[i].None?
    ensures j < |ms| && Index(ms[j]) == i
    decreases |ms|
  {
    if Index(ms[0]) == i {
      j := 0;
    } else {
      CompletesStep(uuid, slots, ms);
      var next := Filled(slots, ms[0]);
      assert next[i].None?;
      j := MessageFor(uuid, next, ms[1..], i);
      j := j + 1;
    }
  }

  /** Any permutation of the requests of a transmission is a transmission, and leads to the same files. */
  lemma OrderIndependence(pre: Bytes, ms: seq<Message>, ns: seq<Message>, files: Files)
    requires IsTransmission(pre, ms) && multiset(ms) == multiset(ns)
    ensures IsTransmission(pre, ns)
    ensures var r, q := Settle(Receive(FRESH, pre + Wire(ms))), Settle(Receive(FRESH, pre + Wire(ns)));
            && r.conn.phase.Saved? && q.conn.phase.Saved? && r.conn.slots == q.conn.slots
            && FilesOf(r.conn, files) == FilesOf(q.conn, files)
  {
    var h := ParsePre(pre);
    PermutedCompletes(h.uuid, EmptySlots(h.numHorcruxes), ms, ns);
    TransmissionIsSaved(pre, ms, []);
    TransmissionIsSaved(pre, ns, []);
    assert pre + Wire(ms) + [] == pre + Wire(ms) && pre + Wire(ns) + [] == pre + Wire(ns);
    var r, q := Settle(Receive(FRESH, pre + Wire(ms))), Settle(Receive(FRESH, pre + Wire(ns)));
    HoldingDeterminesSlots(h.uuid, h.numHorcruxes, ms, ns, r.conn.slots, q.conn.slots);
  }
}
