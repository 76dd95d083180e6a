/** Every run of the system, with whole, short or failing transfers, is finite, with a bound known at its start. */
module Termination {
  import opened Headers
  import opened Connection
  import opened Protocol
  import Runs

  /** Bytes of requests `i` and later. */
  function BytesFrom(job: Job, i: nat): nat
    decreases |job.parts| - i
  {
    if i >= |job.parts| then 0 else REQUEST_SIZE + |job.parts[i]| + BytesFrom(job, i + 1)
  }

  function Unsent(job: Job, phase: ClientPhase): nat {
    match phase
    case SendingPre => PRE_SIZE + BytesFrom(job, 0)
    case AwaitingPre => BytesFrom(job, 0)
    case SendingHeader(i) => BytesFrom(job, i)
    case SendingContent(i) => (if i < |job.parts| then |job.parts[i]| else 0) + BytesFrom(job, i + 1)
    case AwaitingReply(i) => BytesFrom(job, i + 1)
    case Done => 0
  }

  function CallsLeft(job: Job, phase: ClientPhase): int {
    match phase
    case SendingPre => 3 * |job.parts| + 2
    case AwaitingPre => 3 * |job.parts| + 1
    case SendingHeader(i) => 3 * (|job.parts| - i)
    case SendingContent(i) => 3 * (|job.parts| - i) - 1
    case AwaitingReply(i) => 3 * (|job.parts| - i) - 2
    case Done => 0
  }

  /** How many handlers the server can run without reading another byte. */
  function ServerWork(s: System): nat {
    match s.link.conn.phase
    case ReadingContent => 3
    case Responding(_) => if s.flushed then 1 else 2
    case _ => 0
  }

  /** A connection ends at most once. */
  function ServerLife(s: System): nat {
    if Runs.Over(s.link.conn) then 0 else 1
  }

  function Measure(s: System): int {
    4 * (Unsent(s.job, s.client.phase) + |s.toServer|) + 3 * |s.link.inbox|
    + ServerWork(s) + ServerLife(s) + CallsLeft(s.job, s.client.phase)
  }

  lemma MeasureNonnegative(s: System)
    requires SysOk(s)
    ensures Measure(s) >= 0
  {
  }

  predicate OfClient(e: Event) {
    e.ClientWrite? || e.ClientRead? || e.ClientWriteError? || e.ClientReadError?
  }

  lemma ClientStepDecreases(s: System, e: Event)
    requires SysOk(s) && Enabled(s, e) && OfClient(e)
    ensures Measure(Step(s, e)) < Measure(s)
  {
    var t := Step(s, e);
    assert t.link == s.link && ServerWork(t) == ServerWork(s);
    if e.ClientWrite? {
      assert |t.toServer| <= |s.toServer| + |Outgoing(s.job, s.client)|;
      assert Unsent(s.job, t.client.phase) == Unsent(s.job, s.client.phase) - |Outgoing(s.job, s.client)|;
    } else {
      assert Unsent(s.job, t.client.phase) <= Unsent(s.job, s.client.phase);
    }
    assert CallsLeft(s.job, t.client.phase) < CallsLeft(s.job, s.client.phase);
  }

  lemma ServerStepDecreases(s: System, e: Event)
    requires SysOk(s) && Enabled(s, e) && !OfClient(e) && !e.ServerRead?
    ensures Measure(Step(s, e)) < Measure(s)
  {
    var t := Step(s, e);
    assert t.client == s.client && ServerLife(t) <= ServerLife(s);
    if e.Deliver? {
      assert ServerWork(t) == ServerWork(s);
    } else {
      assert t.link.inbox == s.link.inbox && ServerWork(t) + ServerLife(t) < ServerWork(s) + ServerLife(s);
    }
  }

  /** Reading a header takes bytes; reading a content, even an empty one, leads on to a reply. */
  lemma ReadDecreases(s: System, e: Event)
    requires SysOk(s) && Enabled(s, e) && e.ServerRead?
    ensures Measure(Step(s, e)) < Measure(s)
  {
    var t, n := Step(s, e), Need(s.link.conn);
    assert t.client == s.client && t.toServer == s.toServer && |t.link.inbox| == |s.link.inbox| - n;
    assert ServerLife(t) == ServerLife(s);
    assert s.link.conn.phase.ReadingContent? ==> ServerWork(s) == 3 && ServerWork(t) == 2;
    assert !s.link.conn.phase.ReadingContent? ==> n >= PRE_SIZE && ServerWork(t) <= 3;
  }

  /** Every step, in whatever order and of whatever size, well or not, uses up some of a fixed supply. */
  lemma StepDecreases(s: System, e: Event)
    requires SysOk(s) && Enabled(s, e)
    ensures Measure(Step(s, e)) < Measure(s)
  {
    if OfClient(e) {
      ClientStepDecreases(s, e);
    } else if e.ServerRead? {
      ReadDecreases(s, e);
    } else {
      ServerStepDecreases(s, e);
    }
  }

  /** So every run is finite, with a bound known in advance. */
  lemma {:induction false} RunsAreBounded(s: System, es: seq<Event>)
    requires SysOk(s) && ValidRun(s, es)
    ensures |es| <= Measure(s)
    decreases es
  {
    if es == [] {
      MeasureNonnegative(s);
    } else {
      StepDecreases(s, es[0]);
      RunsAreBounded(Step(s, es[0]), es[1..]);
    }
  }
}
