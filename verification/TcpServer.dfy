/** Many connections sharing one output directory, their handlers interleaved by the event loop. */
module TcpServer {
  import opened MachineTypes
  import opened FileStore
  import opened Connection
  import opened Runs

  datatype Server = Server(files: Files, links: map<nat, Link>)

  /** The acceptor completes, or a handler of one connection runs. */
  datatype Action = Accept(id: nat, error: bool) | Handle(id: nat, event: Event)

  ghost predicate ServerInv(s: Server) {
    forall id :: id in s.links ==> LinkInv(s.links[id])
  }

  predicate CanAct(s: Server, a: Action) {
    match a
    case Accept(id, _) => id !in s.links
    case Handle(id, e) => id in s.links && Enabled(s.links[id], e)
  }

  /** A failed accept starts nothing; the server goes on accepting either way. */
  function Act(s: Server, a: Action): (r: Server)
    requires ServerInv(s) && CanAct(s, a)
    ensures ServerInv(r)
  {
    match a
    case Accept(id, error) => if error then s else s.(links := s.links[id := FRESH])
    case Handle(id, e) => Server(StepFiles(s.links[id], e, s.files), s.links[id := Step(s.links[id], e)])
  }

  predicate ValidActions(s: Server, actions: seq<Action>)
    requires ServerInv(s)
    decreases actions
  {
    actions == [] || (CanAct(s, actions[0]) && ValidActions(Act(s, actions[0]), actions[1..]))
  }

  function Serve(s: Server, actions: seq<Action>): (r: Server)
    requires ServerInv(s) && ValidActions(s, actions)
    ensures ServerInv(r)
    decreases actions
  {
    if actions == [] then s else Serve(Act(s, actions[0]), actions[1..])
  }

  // ---------------------------------------------------------------------------
  // Each connection behaves as if it were alone
  // ---------------------------------------------------------------------------

  function EventsOf(actions: seq<Action>, id: nat): seq<Event> {
    if actions == [] then []
    else
      var a := actions[0];
      (if a.Handle? && a.id == id then [a.event] else []) + EventsOf(actions[1..], id)
  }

  /** Where connection `id` is, or will start. */
  function LinkOf(s: Server, id: nat): Link {
    if id in s.links then s.links[id] else FRESH
  }

  lemma {:induction false} ConnectionsDoNotInterfere(s: Server, actions: seq<Action>, id: nat)
    requires ServerInv(s) && ValidActions(s, actions) && id in Serve(s, actions).links
    ensures ValidRun(LinkOf(s, id), EventsOf(actions, id))
    ensures Serve(s, actions).links[id] == Run(LinkOf(s, id), EventsOf(actions, id))
    decreases actions
  {
    if actions != [] {
      var a, t, es := actions[0], Act(s, actions[0]), EventsOf(actions[1..], id);
      ConnectionsDoNotInterfere(t, actions[1..], id);
      if a.Handle? && a.id == id {
        assert LinkOf(t, id) == Step(s.links[id], a.event);
        RunPrepend(s.links[id], a.event, es, s.files);
      } else {
        assert LinkOf(t, id) == LinkOf(s, id);
        assert EventsOf(actions, id) == es;
      }
    }
  }

  /** The connections are those the acceptor completed without error, and stay. */
  lemma {:induction false} ConnectionsAreAccepted(s: Server, actions: seq<Action>, id: nat)
    requires ServerInv(s) && ValidActions(s, actions)
    ensures id in Serve(s, actions).links <==> id in s.links || Accept(id, false) in actions
    decreases actions
  {
    if actions != [] {
      assert actions == [actions[0]] + actions[1..];
      ConnectionsAreAccepted(Act(s, actions[0]), actions[1..], id);
    }
  }

  // ---------------------------------------------------------------------------
  // Where the files come from
  // ---------------------------------------------------------------------------

  predicate HasSaved(s: Server, id: nat) {
    id in s.links && s.links[id].conn.phase.Saved?
  }

  function NumPieces(s: Server, id: nat): nat
    requires id in s.links
  {
    |s.links[id].conn.slots|
  }

  function NameOf(s: Server, id: nat, i: nat): string
    requires id in s.links
  {
    Path(s.links[id].conn.pre.uuid, i)
  }

  /** `p` is piece `i` of connection `id`, as that connection received it. */
  ghost predicate Supplies(s: Server, id: nat, i: nat, p: string) {
    && HasSaved(s, id) && i < NumPieces(s, id) && p == NameOf(s, id, i)
    && p in s.files && s.links[id].conn.slots[i] == Some(s.files[p])
  }

  ghost predicate Explained(s: Server, initial: Files) {
    && (forall p :: p in initial ==> p in s.files && s.files[p] == initial[p])
    && (forall id, i :: HasSaved(s, id) && 0 <= i < NumPieces(s, id) ==> NameOf(s, id, i) in s.files)
    && (forall p :: p in s.files && p !in initial ==> exists id, i :: Supplies(s, id, i, p))
  }

  /** `t` is `s` after connection `id` saved its slots. */
  ghost predicate SavedIn(s: Server, t: Server, id: nat) {
    && id in s.links && AllFilled(s.links[id].conn.slots) && !s.links[id].conn.phase.Saved?
    && t.links.Keys == s.links.Keys
    && (forall k :: k in s.links && k != id ==> t.links[k] == s.links[k])
    && t.links[id].conn == s.links[id].conn.(phase := Saved)
    && t.files == SaveAll(s.files, s.links[id].conn.pre.uuid, SlotContents(s.links[id].conn.slots))
  }

  lemma SavedPiecesPresent(s: Server, t: Server, saver: nat, initial: Files)
    requires SavedIn(s, t, saver) && Explained(s, initial)
    ensures forall id, i :: HasSaved(t, id) && 0 <= i < NumPieces(t, id) ==> NameOf(t, id, i) in t.files
  {
    var c := s.links[saver].conn;
    var names := Paths(c.pre.uuid, |c.slots|);
    SaveAllEffect(s.files, c.pre.uuid, SlotContents(c.slots));
    forall id, i | HasSaved(t, id) && 0 <= i < NumPieces(t, id) ensures NameOf(t, id, i) in t.files {
      if id == saver {
        assert names[i] in t.files;
      } else {
        assert NameOf(s, id, i) in s.files;
      }
    }
  }

  lemma OldSupplyStands(s: Server, t: Server, saver: nat, id: nat, i: nat, p: string)
    requires SavedIn(s, t, saver) && Supplies(s, id, i, p)
    requires p in t.files && t.files[p] == s.files[p]
    ensures Supplies(t, id, i, p)
  {
  }

  lemma NewSupply(s: Server, t: Server, saver: nat, p: string)
    requires SavedIn(s, t, saver) && p in t.files && p !in s.files
    ensures exists i :: Supplies(t, saver, i, p)
  {
    var c := s.links[saver].conn;
    var names := Paths(c.pre.uuid, |c.slots|);
    SaveAllEffect(s.files, c.pre.uuid, SlotContents(c.slots));
    var i :| 0 <= i < |names| && names[i] == p;
    assert Supplies(t, saver, i, p);
  }

  lemma SavedFilesSupplied(s: Server, t: Server, saver: nat, initial: Files)
    requires SavedIn(s, t, saver) && Explained(s, initial)
    requires forall p :: p in s.files ==> p in t.files && t.files[p] == s.files[p]
    ensures forall p :: p in t.files && p !in initial ==> exists id, i :: Supplies(t, id, i, p)
  {
    forall p | p in t.files && p !in initial ensures exists id, i :: Supplies(t, id, i, p) {
      if p in s.files {
        var id, i :| Supplies(s, id, i, p);
        OldSupplyStands(s, t, saver, id, i, p);
      } else {
        NewSupply(s, t, saver, p);
      }
    }
  }

  lemma SavingIsExplained(s: Server, t: Server, saver: nat, initial: Files)
    requires SavedIn(s, t, saver) && Explained(s, initial)
    ensures Explained(t, initial)
  {
    SavedPiecesPresent(s, t, saver, initial);
    SaveAllEffect(s.files, s.links[saver].conn.pre.uuid, SlotContents(s.links[saver].conn.slots));
    SavedFilesSupplied(s, t, saver, initial);
  }

  /** Neither the files nor any finished connection changed. */
  ghost predicate SameSaved(s: Server, t: Server) {
    && t.files == s.files
    && (forall id :: HasSaved(s, id) <==> HasSaved(t, id))
    && (forall id :: HasSaved(s, id) ==> t.links[id].conn == s.links[id].conn)
  }

  lemma SameSavedIsExplained(s: Server, t: Server, initial: Files)
    requires SameSaved(s, t) && Explained(s, initial)
    ensures Explained(t, initial)
  {
    forall id, i | HasSaved(t, id) && 0 <= i < NumPieces(t, id) ensures NameOf(t, id, i) in t.files {
      assert NameOf(s, id, i) in s.files;
    }
    forall p | p in t.files && p !in initial ensures exists id, i :: Supplies(t, id, i, p) {
      var id, i :| Supplies(s, id, i, p);
      assert Supplies(t, id, i, p);
    }
  }

  lemma OtherActionIsExplained(s: Server, a: Action, initial: Files)
    requires ServerInv(s) && CanAct(s, a) && Explained(s, initial)
    requires a.Handle? ==> !(a.event.WriteDone? && s.links[a.id].conn.phase == Responding(SaveHorcruxes))
    ensures Explained(Act(s, a), initial)
  {
    SameSavedIsExplained(s, Act(s, a), initial);
  }

  /** Even with clashing uuids every new file is a piece some connection received whole. */
  lemma {:induction false} FilesAreExplained(s: Server, actions: seq<Action>, initial: Files)
    requires ServerInv(s) && ValidActions(s, actions) && Explained(s, initial)
    ensures Explained(Serve(s, actions), initial)
    decreases actions
  {
    if actions != [] {
      var a := actions[0];
      if a.Handle? && a.event.WriteDone? && s.links[a.id].conn.phase == Responding(SaveHorcruxes) {
        SavingIsExplained(s, Act(s, a), a.id, initial);
      } else {
        OtherActionIsExplained(s, a, initial);
      }
      FilesAreExplained(Act(s, a), actions[1..], initial);
    }
  }

  // ---------------------------------------------------------------------------
  // Distinct uuids: any interleaving leaves the union of the solo results
  // ---------------------------------------------------------------------------

  predicate DistinctUuids(s: Server) {
    forall a, b :: a in s.links && b in s.links && HasSaved(s, a) && HasSaved(s, b) && a != b
                   ==> s.links[a].conn.pre.uuid != s.links[b].conn.pre.uuid
  }

  /** What connection `id` leaves in the directory when it is the only one the server runs. */
  function SoloFiles(actions: seq<Action>, id: nat, initial: Files): Files
    requires ValidRun(FRESH, EventsOf(actions, id))
  {
    RunFiles(FRESH, EventsOf(actions, id), initial)
  }

  /** A connection's own pieces are in the directory with its own contents. */
  lemma OwnPieces(s: Server, id: nat, i: nat, initial: Files)
    requires ServerInv(s) && Explained(s, initial) && DistinctUuids(s)
    requires HasSaved(s, id) && i < NumPieces(s, id) && NameOf(s, id, i) !in initial
    ensures NameOf(s, id, i) in s.files && s.links[id].conn.slots[i] == Some(s.files[NameOf(s, id, i)])
  {
    var p := NameOf(s, id, i);
    var other, j :| Supplies(s, other, j, p);
    PathInjective(s.links[id].conn.pre.uuid, i, s.links[other].conn.pre.uuid, j);
  }

  lemma SoloAgrees(s: Server, id: nat, initial: Files)
    requires ServerInv(s) && Explained(s, initial) && DistinctUuids(s) && id in s.links
    ensures var solo := FilesOf(s.links[id].conn, initial);
            forall p :: p in solo ==> p in s.files && s.files[p] == solo[p]
  {
    var c := s.links[id].conn;
    if c.phase.Saved? {
      var contents := SlotContents(c.slots);
      var names := Paths(c.pre.uuid, |contents|);
      SaveAllEffect(initial, c.pre.uuid, contents);
      var solo := FilesOf(c, initial);
      forall p | p in solo ensures p in s.files && s.files[p] == solo[p] {
        if p !in initial {
          var i :| 0 <= i < |names| && names[i] == p;
          OwnPieces(s, id, i, initial);
        }
      }
    }
  }

  lemma SuppliedIsSolo(s: Server, id: nat, i: nat, p: string, initial: Files)
    requires ServerInv(s) && Supplies(s, id, i, p)
    ensures p in FilesOf(s.links[id].conn, initial)
  {
    var c := s.links[id].conn;
    var contents := SlotContents(c.slots);
    SaveAllEffect(initial, c.pre.uuid, contents);
    assert Paths(c.pre.uuid, |contents|)[i] == p;
  }

  lemma SoloIsOwn(initial: Files, actions: seq<Action>, id: nat)
    requires ValidActions(Server(initial, map[]), actions) && id in Serve(Server(initial, map[]), actions).links
    ensures ValidRun(FRESH, EventsOf(actions, id))
    ensures SoloFiles(actions, id, initial) == FilesOf(Serve(Server(initial, map[]), actions).links[id].conn, initial)
  {
    ConnectionsDoNotInterfere(Server(initial, map[]), actions, id);
    RunSavesOnce(FRESH, EventsOf(actions, id), initial);
  }

  /** `files` is `initial` plus the solo results of `ids`, without conflict. */
  ghost predicate IsUnionOfSolos(files: Files, initial: Files, actions: seq<Action>, ids: set<nat>)
    requires forall id :: id in ids ==> ValidRun(FRESH, EventsOf(actions, id))
  {
    && (forall p :: p in initial ==> p in files && files[p] == initial[p])
    && (forall id, p :: id in ids && p in SoloFiles(actions, id, initial) ==>
          p in files && files[p] == SoloFiles(actions, id, initial)[p])
    && (forall p :: p in files && p !in initial ==> exists id :: id in ids && p in SoloFiles(actions, id, initial))
  }

  /**
   * For any number of connections whose saved uuids differ and any interleaving of their handlers, the
   * directory is exactly the union of what each connection would leave alone.
   */
  lemma InterleavingIndependence(initial: Files, actions: seq<Action>)
    requires ValidActions(Server(initial, map[]), actions)
    requires DistinctUuids(Serve(Server(initial, map[]), actions))
    ensures var s := Serve(Server(initial, map[]), actions);
            && (forall id :: id in s.links ==> ValidRun(FRESH, EventsOf(actions, id)))
            && IsUnionOfSolos(s.files, initial, actions, s.links.Keys)
  {
    var s := Serve(Server(initial, map[]), actions);
    FilesAreExplained(Server(initial, map[]), actions, initial);
    forall id | id in s.links
      ensures ValidRun(FRESH, EventsOf(actions, id))
      ensures SoloFiles(actions, id, initial) == FilesOf(s.links[id].conn, initial)
    {
      SoloIsOwn(initial, actions, id);
    }
    UnionFromExplained(s, initial, actions);
  }

  lemma UnionFromExplained(s: Server, initial: Files, actions: seq<Action>)
    requires ServerInv(s) && Explained(s, initial) && DistinctUuids(s)
    requires forall id :: id in s.links ==> ValidRun(FRESH, EventsOf(actions, id))
    requires forall id :: id in s.links ==> SoloFiles(actions, id, initial) == FilesOf(s.links[id].conn, initial)
    ensures IsUnionOfSolos(s.files, initial, actions, s.links.Keys)
  {
    forall id | id in s.links
      ensures forall p :: p in SoloFiles(actions, id, initial) ==>
                p in s.files && s.files[p] == SoloFiles(actions, id, initial)[p]
    {
      SoloAgrees(s, id, initial);
    }
    forall p | p in s.files && p !in initial
      ensures exists id :: id in s.links && p in SoloFiles(actions, id, initial)
    {
      var id, i :| Supplies(s, id, i, p);
      SuppliedIsSolo(s, id, i, p, initial);
    }
  }
}
