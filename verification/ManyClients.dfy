/**
 * Any number of clients, each with its own connection, and one server with one output directory: what the clients'
 * runs and the interleaving of the connections say together.
 */
module ManyClients {
  import opened MachineTypes
  import opened Headers
  import opened FileStore
  import opened Requests
  import opened Connection
  import opened Protocol
  import opened Preparation
  import opened Transfers
  import EndToEnd
  import Runs
  import TcpServer

  // ---------------------------------------------------------------------------
  // The world
  // ---------------------------------------------------------------------------

  /** One directory for all; `files` of a session is the directory as its last step left it. */
  datatype World = World(files: Files, sessions: map<nat, System>)

  /** A client connects, or something happens on its connection. */
  datatype Act = Join(id: nat, job: Job) | Turn(id: nat, event: Event)

  ghost predicate WorldOk(w: World) {
    forall id :: id in w.sessions ==> SysOk(w.sessions[id])
  }

  /** A session as it finds the directory. */
  function Session(w: World, id: nat): System
    requires id in w.sessions
  {
    w.sessions[id].(files := w.files)
  }

  ghost predicate CanHappen(w: World, a: Act)
    requires WorldOk(w)
  {
    match a
    case Join(id, job) => id !in w.sessions && JobShape(job)
    case Turn(id, e) => id in w.sessions && Enabled(Session(w, id), e)
  }

  function Happen(w: World, a: Act): (r: World)
    requires WorldOk(w) && CanHappen(w, a)
    ensures WorldOk(r)
  {
    match a
    case Join(id, job) => w.(sessions := w.sessions[id := Start(job, w.files)])
    case Turn(id, e) => var t := Step(Session(w, id), e); World(t.files, w.sessions[id := t])
  }

  ghost predicate ValidActs(w: World, acts: seq<Act>)
    requires WorldOk(w)
    decreases acts
  {
    acts == [] || (CanHappen(w, acts[0]) && ValidActs(Happen(w, acts[0]), acts[1..]))
  }

  function WorldAfter(w: World, acts: seq<Act>): (r: World)
    requires WorldOk(w) && ValidActs(w, acts)
    ensures WorldOk(r)
    decreases acts
  {
    if acts == [] then w else WorldAfter(Happen(w, acts[0]), acts[1..])
  }

  /** No two clients drew the same uuid. */
  ghost predicate DistinctUuids(w: World) {
    forall a, b :: a in w.sessions && b in w.sessions && a != b ==> w.sessions[a].job.uuid != w.sessions[b].job.uuid
  }

  // ---------------------------------------------------------------------------
  // Each session behaves as if it were alone
  // ---------------------------------------------------------------------------

  function EventsOf(acts: seq<Act>, id: nat): seq<Event> {
    if acts == [] then []
    else (if acts[0].Turn? && acts[0].id == id then [acts[0].event] else []) + EventsOf(acts[1..], id)
  }

  /** What a session does never depends on the directory. */
  lemma FilesDoNotMatter(s: System, e: Event, files: Files)
    requires SysOk(s) && Enabled(s, e)
    ensures Enabled(s.(files := files), e)
    ensures var t := Step(s.(files := files), e); t == Step(s, e).(files := t.files)
  {
  }

  /** The session `id` as it would start from `w` with a directory of its own; `job` is what it will send. */
  function Alone(w: World, id: nat, job: Job, files: Files): System {
    if id in w.sessions then w.sessions[id].(files := files) else Start(job, files)
  }

  lemma OwnTurn(w: World, id: nat, e: Event, files: Files)
    requires WorldOk(w) && CanHappen(w, Turn(id, e))
    ensures var s := w.sessions[id].(files := files);
            && Enabled(s, e)
            && Step(s, e) == Happen(w, Turn(id, e)).sessions[id].(files := Step(s, e).files)
  {
    FilesDoNotMatter(Session(w, id), e, files);
  }

  lemma OthersTurn(w: World, a: Act, id: nat, job: Job, files: Files)
    requires WorldOk(w) && CanHappen(w, a) && id in Happen(w, a).sessions && (a.Turn? ==> a.id != id)
    requires job == Happen(w, a).sessions[id].job
    ensures Alone(Happen(w, a), id, job, files) == Alone(w, id, job, files)
  {
  }

  /** Sessions neither end nor change their job. */
  lemma {:induction false} SessionsStay(w: World, acts: seq<Act>, id: nat)
    requires WorldOk(w) && ValidActs(w, acts) && id in w.sessions
    ensures id in WorldAfter(w, acts).sessions && WorldAfter(w, acts).sessions[id].job == w.sessions[id].job
    decreases acts
  {
    if acts != [] {
      SessionsStay(Happen(w, acts[0]), acts[1..], id);
    }
  }

  lemma RunPrepend(s: System, e: Event, es: seq<Event>)
    requires SysOk(s) && Enabled(s, e) && ValidRun(Step(s, e), es)
    ensures ValidRun(s, [e] + es) && RunOf(s, [e] + es) == RunOf(Step(s, e), es)
  {
    assert ([e] + es)[1..] == es;
  }

  /** Where `acts` take session `id` is, but for the directory, where its own events take it alone. */
  ghost predicate RunsAlone(w: World, acts: seq<Act>, id: nat, files: Files)
    requires WorldOk(w) && ValidActs(w, acts) && id in WorldAfter(w, acts).sessions
  {
    var end := WorldAfter(w, acts).sessions[id];
    var s, es := Alone(w, id, end.job, files), EventsOf(acts, id);
    SysOk(s) && ValidRun(s, es) && RunOf(s, es) == end.(files := RunOf(s, es).files)
  }

  lemma OwnTurnFirst(w: World, acts: seq<Act>, id: nat, files: Files)
    requires WorldOk(w) && ValidActs(w, acts) && acts != [] && acts[0].Turn? && acts[0].id == id
    requires id in WorldAfter(w, acts).sessions && Enabled(w.sessions[id].(files := files), acts[0].event)
    requires RunsAlone(Happen(w, acts[0]), acts[1..], id, Step(w.sessions[id].(files := files), acts[0].event).files)
    ensures RunsAlone(w, acts, id, files)
  {
    OwnTurn(w, id, acts[0].event, files);
    RunPrepend(w.sessions[id].(files := files), acts[0].event, EventsOf(acts[1..], id));
  }

  lemma OtherActFirst(w: World, acts: seq<Act>, id: nat, files: Files)
    requires WorldOk(w) && ValidActs(w, acts) && acts != [] && (acts[0].Turn? ==> acts[0].id != id)
    requires id in WorldAfter(w, acts).sessions
    requires RunsAlone(Happen(w, acts[0]), acts[1..], id, files)
    ensures RunsAlone(w, acts, id, files)
  {
    var v := Happen(w, acts[0]);
    assert EventsOf(acts, id) == EventsOf(acts[1..], id);
    if id in v.sessions {
      SessionsStay(v, acts[1..], id);
      OthersTurn(w, acts[0], id, v.sessions[id].job, files);
    }
  }

  lemma {:induction false} SessionIsAlone(w: World, acts: seq<Act>, id: nat, files: Files)
    requires WorldOk(w) && ValidActs(w, acts) && id in WorldAfter(w, acts).sessions
    ensures RunsAlone(w, acts, id, files)
    decreases acts
  {
    if acts != [] {
      var a, v := acts[0], Happen(w, acts[0]);
      if a.Turn? && a.id == id {
        OwnTurn(w, id, a.event, files);
        SessionIsAlone(v, acts[1..], id, Step(w.sessions[id].(files := files), a.event).files);
        OwnTurnFirst(w, acts, id, files);
      } else {
        SessionIsAlone(v, acts[1..], id, files);
        OtherActFirst(w, acts, id, files);
      }
    }
  }

  // ---------------------------------------------------------------------------
  // The server's side
  // ---------------------------------------------------------------------------

  function ServerOf(w: World): (s: TcpServer.Server)
    ensures s.links.Keys == w.sessions.Keys && forall id :: id in s.links ==> s.links[id] == w.sessions[id].link
  {
    TcpServer.Server(w.files, map id | id in w.sessions :: w.sessions[id].link)
  }

  function ActionsOf(w: World, acts: seq<Act>): seq<TcpServer.Action>
    requires WorldOk(w) && ValidActs(w, acts)
    decreases acts
  {
    if acts == [] then []
    else
      var rest := ActionsOf(Happen(w, acts[0]), acts[1..]);
      match acts[0]
      case Join(id, _) => [TcpServer.Accept(id, false)] + rest
      case Turn(id, e) =>
        var le := LinkEvent(Session(w, id), e);
        if le.None? then rest else [TcpServer.Handle(id, le.value)] + rest
  }

  lemma SessionReplaced(w: World, id: nat, t: System)
    ensures ServerOf(World(t.files, w.sessions[id := t]))
            == TcpServer.Server(t.files, ServerOf(w).links[id := t.link])
  {
    assert ServerOf(World(t.files, w.sessions[id := t])).links == ServerOf(w).links[id := t.link];
  }

  lemma JoinIsAccept(w: World, id: nat, job: Job)
    requires WorldOk(w) && CanHappen(w, Join(id, job))
    ensures TcpServer.CanAct(ServerOf(w), TcpServer.Accept(id, false))
    ensures TcpServer.Act(ServerOf(w), TcpServer.Accept(id, false)) == ServerOf(Happen(w, Join(id, job)))
  {
    SessionReplaced(w, id, Start(job, w.files));
  }

  lemma HandledAs(w: World, id: nat, t: System, e: Runs.Event)
    requires WorldOk(w) && id in w.sessions && Runs.Enabled(w.sessions[id].link, e)
    requires t.link == Runs.Step(w.sessions[id].link, e)
    requires t.files == Runs.StepFiles(w.sessions[id].link, e, w.files)
    ensures TcpServer.CanAct(ServerOf(w), TcpServer.Handle(id, e))
    ensures TcpServer.Act(ServerOf(w), TcpServer.Handle(id, e)) == ServerOf(World(t.files, w.sessions[id := t]))
  {
    SessionReplaced(w, id, t);
  }

  lemma NothingHandled(w: World, id: nat, t: System)
    requires id in w.sessions && t.link == w.sessions[id].link && t.files == w.files
    ensures ServerOf(World(t.files, w.sessions[id := t])) == ServerOf(w)
  {
    SessionReplaced(w, id, t);
    assert ServerOf(w).links[id := t.link] == ServerOf(w).links;
  }

  lemma TurnIsHandle(w: World, id: nat, e: Event)
    requires WorldOk(w) && CanHappen(w, Turn(id, e))
    ensures var s, t, le := ServerOf(w), ServerOf(Happen(w, Turn(id, e))), LinkEvent(Session(w, id), e);
            && (le.None? ==> t == s)
            && (le.Some? ==> TcpServer.CanAct(s, TcpServer.Handle(id, le.value))
                             && TcpServer.Act(s, TcpServer.Handle(id, le.value)) == t)
  {
    var t, le := Step(Session(w, id), e), LinkEvent(Session(w, id), e);
    LinkStep(Session(w, id), e);
    if le.None? {
      NothingHandled(w, id, t);
    } else {
      HandledAs(w, id, t, le.value);
    }
  }

  /** What the server does in the world is a run of the server by itself. */
  lemma {:induction false} WorldIsServed(w: World, acts: seq<Act>)
    requires WorldOk(w) && ValidActs(w, acts)
    ensures TcpServer.ValidActions(ServerOf(w), ActionsOf(w, acts))
    ensures TcpServer.Serve(ServerOf(w), ActionsOf(w, acts)) == ServerOf(WorldAfter(w, acts))
    decreases acts
  {
    if acts != [] {
      var actions, rest := ActionsOf(w, acts), ActionsOf(Happen(w, acts[0]), acts[1..]);
      WorldIsServed(Happen(w, acts[0]), acts[1..]);
      match acts[0] {
        case Join(id, job) =>
          JoinIsAccept(w, id, job);
          assert actions[1..] == rest;
        case Turn(id, e) =>
          TurnIsHandle(w, id, e);
          assert LinkEvent(Session(w, id), e).Some? ==> actions[1..] == rest;
      }
    }
  }

  // ---------------------------------------------------------------------------
  // A connection saves under its own client's uuid
  // ---------------------------------------------------------------------------

  /** Until it is answered a client has written nothing but its announcement, or the front of it. */
  ghost predicate OnlyAnnounced(s: System) {
    && !s.client.phase.SendingHeader? && !s.client.phase.SendingContent? && !s.client.phase.AwaitingReply?
    && s.toClient == [] && s.link.inbox + s.toServer <= PreBytes(s.job)
    && (s.client.phase.SendingPre? ==> s.link.inbox + s.toServer == [])
  }

  /** What the server takes for the announcement is the client's, whatever is short or fails. */
  ghost predicate KnowsItsClient(s: System) {
    s.link.conn.phase.ReadFailed? ||
    if s.link.conn.phase.ReadingPreRequest? then OnlyAnnounced(s)
    else s.link.conn.pre == Announcement(s.job.uuid, s.job.parts)
  }

  lemma AnnouncementIsOwn(s: System)
    requires SysOk(s) && OnlyAnnounced(s) && s.link.conn.phase.ReadingPreRequest? && Enabled(s, ServerRead)
    ensures Step(s, ServerRead).link.conn.pre == Announcement(s.job.uuid, s.job.parts)
  {
    assert s.link.inbox[..PRE_SIZE] == (s.link.inbox + s.toServer)[..PRE_SIZE] == PreBytes(s.job);
    ParseOfPreImage(Announcement(s.job.uuid, s.job.parts));
  }

  lemma StepKnowsItsClient(s: System, e: Event)
    requires SysOk(s) && Enabled(s, e) && KnowsItsClient(s)
    ensures KnowsItsClient(Step(s, e))
  {
    if s.link.conn.phase.ReadingPreRequest? {
      match e {
        case ServerRead => AnnouncementIsOwn(s);
        case ClientWrite(n) => assert s.link.inbox + (s.toServer + PreBytes(s.job)[..n]) == PreBytes(s.job)[..n];
        case Deliver(n) =>
          assert s.link.inbox + s.toServer[..n] + s.toServer[n..] == s.link.inbox + s.toServer;
        case _ =>
      }
    }
  }

  lemma {:induction false} RunKnowsItsClient(s: System, es: seq<Event>)
    requires SysOk(s) && ValidRun(s, es) && KnowsItsClient(s)
    ensures KnowsItsClient(RunOf(s, es))
    decreases es
  {
    if es != [] {
      StepKnowsItsClient(s, es[0]);
      RunKnowsItsClient(Step(s, es[0]), es[1..]);
    }
  }

  lemma SavesAsItsClient(initial: Files, acts: seq<Act>, id: nat)
    requires ValidActs(World(initial, map[]), acts) && id in WorldAfter(World(initial, map[]), acts).sessions
    ensures var s := WorldAfter(World(initial, map[]), acts).sessions[id];
            s.link.conn.phase.Saved? ==> s.link.conn.pre.uuid == s.job.uuid
  {
    var s := WorldAfter(World(initial, map[]), acts).sessions[id];
    SessionIsAlone(World(initial, map[]), acts, id, initial);
    assert [] + [] <= PreBytes(s.job);
    RunKnowsItsClient(Start(s.job, initial), EventsOf(acts, id));
  }

  // ---------------------------------------------------------------------------
  // Every client gets its own file back
  // ---------------------------------------------------------------------------

  lemma {:induction false} JoinedAgrees(f: Files, g: Files, uuid: uint64, n: nat)
    requires forall i :: 0 <= i < n ==> (Path(uuid, i) in f <==> Path(uuid, i) in g)
    requires forall i :: 0 <= i < n && Path(uuid, i) in f ==> f[Path(uuid, i)] == g[Path(uuid, i)]
    ensures Joined(f, uuid, n) == Joined(g, uuid, n)
  {
    if n > 0 {
      JoinedAgrees(f, g, uuid, n - 1);
    }
  }

  /** Every session that saved did so under its own client's uuid. */
  ghost predicate SaversKnown(w: World) {
    forall id :: id in w.sessions && w.sessions[id].link.conn.phase.Saved? ==>
      w.sessions[id].link.conn.pre.uuid == w.sessions[id].job.uuid
  }

  /** The server of the world made a run of its own, and left the union of what each connection leaves alone. */
  ghost predicate ServedBy(w: World, initial: Files, actions: seq<TcpServer.Action>) {
    && TcpServer.ValidActions(TcpServer.Server(initial, map[]), actions)
    && TcpServer.Serve(TcpServer.Server(initial, map[]), actions) == ServerOf(w)
    && (forall id :: id in w.sessions ==> Runs.ValidRun(Runs.FRESH, TcpServer.EventsOf(actions, id)))
    && TcpServer.IsUnionOfSolos(w.files, initial, actions, w.sessions.Keys)
  }

  lemma WorldIsUnion(initial: Files, acts: seq<Act>)
    requires ValidActs(World(initial, map[]), acts) && DistinctUuids(WorldAfter(World(initial, map[]), acts))
    ensures SaversKnown(WorldAfter(World(initial, map[]), acts))
    ensures ServedBy(WorldAfter(World(initial, map[]), acts), initial, ActionsOf(World(initial, map[]), acts))
  {
    var start, w := World(initial, map[]), WorldAfter(World(initial, map[]), acts);
    assert ServerOf(start) == TcpServer.Server(initial, map[]);
    WorldIsServed(start, acts);
    forall id | id in w.sessions
      ensures w.sessions[id].link.conn.phase.Saved? ==>
                w.sessions[id].link.conn.pre.uuid == w.sessions[id].job.uuid
    {
      SavesAsItsClient(initial, acts, id);
    }
    assert TcpServer.DistinctUuids(ServerOf(w));
    TcpServer.InterleavingIndependence(initial, ActionsOf(start, acts));
  }

  /** What the connection of session `id` leaves in the directory when it is the only one. */
  function OwnFiles(w: World, id: nat, initial: Files): Files
    requires WorldOk(w) && id in w.sessions
  {
    Runs.FilesOf(w.sessions[id].link.conn, initial)
  }

  lemma SavedKeepsOld(c: Conn, files: Files)
    requires Inv(c)
    ensures forall p :: p in files ==> p in Runs.FilesOf(c, files)
  {
    if c.phase.Saved? {
      SaveAllEffect(files, c.pre.uuid, SlotContents(c.slots));
    }
  }

  lemma SoloIsOwnFiles(w: World, initial: Files, actions: seq<TcpServer.Action>, id: nat)
    requires WorldOk(w) && id in w.sessions && TcpServer.ValidActions(TcpServer.Server(initial, map[]), actions)
    requires TcpServer.Serve(TcpServer.Server(initial, map[]), actions) == ServerOf(w)
    ensures Runs.ValidRun(Runs.FRESH, TcpServer.EventsOf(actions, id))
    ensures TcpServer.SoloFiles(actions, id, initial) == OwnFiles(w, id, initial)
  {
    TcpServer.SoloIsOwn(initial, actions, id);
    assert ServerOf(w).links[id] == w.sessions[id].link;
  }

  lemma OwnIsShared(w: World, initial: Files, actions: seq<TcpServer.Action>, id: nat, p: string)
    requires WorldOk(w) && ServedBy(w, initial, actions) && id in w.sessions && p in OwnFiles(w, id, initial)
    ensures p in w.files && w.files[p] == OwnFiles(w, id, initial)[p]
  {
    SoloIsOwnFiles(w, initial, actions, id);
    assert p in TcpServer.SoloFiles(actions, id, initial);
  }

  lemma SharedHasOwner(w: World, initial: Files, actions: seq<TcpServer.Action>, p: string) returns (id: nat)
    requires WorldOk(w) && ServedBy(w, initial, actions) && p in w.files && p !in initial
    ensures id in w.sessions && p in OwnFiles(w, id, initial)
  {
    id :| id in w.sessions && p in TcpServer.SoloFiles(actions, id, initial);
    SoloIsOwnFiles(w, initial, actions, id);
  }

  /** Under a client's names the shared directory holds what the client's connection would leave alone. */
  lemma SharedIsOwn(w: World, initial: Files, actions: seq<TcpServer.Action>, id: nat, i: nat)
    requires WorldOk(w) && ServedBy(w, initial, actions) && SaversKnown(w) && DistinctUuids(w) && id in w.sessions
    ensures var p, own := Path(w.sessions[id].job.uuid, i), OwnFiles(w, id, initial);
            (p in w.files <==> p in own) && (p in own ==> w.files[p] == own[p])
  {
    var p := Path(w.sessions[id].job.uuid, i);
    SavedKeepsOld(w.sessions[id].link.conn, initial);
    if p in OwnFiles(w, id, initial) {
      OwnIsShared(w, initial, actions, id, p);
    } else if p in w.files {
      var k := SharedHasOwner(w, initial, actions, p);
      PieceIsOwn(w.sessions[k].link.conn, initial, w.sessions[id].job.uuid, i);
      assert false;
    }
  }

  lemma StuckAlone(s: System, files: Files)
    requires SysOk(s) && Stuck(s)
    ensures Stuck(s.(files := files))
  {
    forall e | Enabled(s.(files := files), e) ensures Fails(e) {
      assert Enabled(s, e);
    }
  }

  /**
   * Any number of clients that drew different uuids share a server and its directory, in any interleaving, with
   * transfers of any size and any failures. When nothing can happen any more to one of them but failures, joining its
   * pieces from the shared directory gives back its file if and only if its own run got through. What the others send,
   * and whether they get through, makes no difference.
   */
  lemma EveryClientForItself(initial: Files, acts: seq<Act>, id: nat, data: Bytes, numSplits: nat)
    requires ValidActs(World(initial, map[]), acts) && id in WorldAfter(World(initial, map[]), acts).sessions
    requires DistinctUuids(WorldAfter(World(initial, map[]), acts))
    requires Stuck(WorldAfter(World(initial, map[]), acts).sessions[id])
    requires Prepared(data, numSplits, WorldAfter(World(initial, map[]), acts).sessions[id].job)
    requires forall i :: 0 <= i < numSplits ==>
               Path(WorldAfter(World(initial, map[]), acts).sessions[id].job.uuid, i) !in initial
    ensures var w, es := WorldAfter(World(initial, map[]), acts), EventsOf(acts, id);
            var job := w.sessions[id].job;
            && ValidRun(Start(job, initial), es)
            && (Joined(w.files, job.uuid, numSplits) == Ok(data)
                <==> EndToEnd.GetsThrough(|data|, numSplits, Start(job, initial), es))
  {
    var w, es := WorldAfter(World(initial, map[]), acts), EventsOf(acts, id);
    var job := w.sessions[id].job;
    SessionIsAlone(World(initial, map[]), acts, id, initial);
    var alone := RunOf(Start(job, initial), es);
    StuckAlone(w.sessions[id], alone.files);
    EndToEnd.EndToEnd(data, numSplits, job, initial, es);
    FilesAreOwn(job, initial, es);
    WorldIsUnion(initial, acts);
    forall i | 0 <= i < numSplits
      ensures Path(job.uuid, i) in w.files <==> Path(job.uuid, i) in alone.files
      ensures Path(job.uuid, i) in w.files ==> w.files[Path(job.uuid, i)] == alone.files[Path(job.uuid, i)]
    {
      SharedIsOwn(w, initial, ActionsOf(World(initial, map[]), acts), id, i);
    }
    JoinedAgrees(w.files, alone.files, job.uuid, numSplits);
  }
}
