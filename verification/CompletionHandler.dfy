/**
 * `asio::any_completion_handler`: move-only handles over heap objects they own, each paired with the function
 * table of the object's type. Handles are named by numbers, so that an operation may meet the same handle twice.
 */
module CompletionHandler {
  import opened MachineTypes

  /** A target type stands for its function table. */
  type Type = nat

  datatype Handle = Handle(table: Option<Type>, impl: Option<nat>)

  const EMPTY := Handle(None, None)

  datatype Entry = Destroyed(id: nat) | Invoked(id: nat)

  /** The handles in scope, the live heap objects with their types, the next object, and what has happened. */
  datatype State = State(handles: map<nat, Handle>, live: map<nat, Type>, next: nat, log: seq<Entry>)

  const INITIAL := State(map[], map[], 0, [])

  // ---------------------------------------------------------------------------
  // The operations
  // ---------------------------------------------------------------------------

  datatype Op =
    | ConstructEmpty(h: nat)
    | Construct(h: nat, target: Type)
    | MoveConstruct(h: nat, other: nat)
    | MoveAssign(h: nat, other: nat)
    | NullAssign(h: nat)
    | Swap(h: nat, other: nat)
    | Call(h: nat)
    | Destroy(h: nat)

  predicate Enabled(s: State, op: Op) {
    match op
    case ConstructEmpty(h) => h !in s.handles
    case Construct(h, _) => h !in s.handles
    case MoveConstruct(h, other) => h !in s.handles && other in s.handles
    case MoveAssign(h, other) => h in s.handles && other in s.handles
    case NullAssign(h) => h in s.handles
    case Swap(h, other) => h in s.handles && other in s.handles
    case Call(h) => h in s.handles
    case Destroy(h) => h in s.handles
  }

  /** The table's functions cast the object to the table's type: calling them on any other object is undefined. */
  predicate Usable(s: State, handle: Handle) {
    handle.impl.Some? ==> handle.impl.value in s.live && handle.table == Some(s.live[handle.impl.value])
  }

  /** The destructor of a handle. */
  function Release(s: State, handle: Handle): State
    requires Usable(s, handle)
  {
    if handle.impl.None? then s
    else s.(live := s.live - {handle.impl.value}, log := s.log + [Destroyed(handle.impl.value)])
  }

  /** Put `incoming` into handle `h` by swapping with a temporary, then destroy the temporary. */
  function SwapIn(s: State, h: nat, incoming: Handle): State
    requires h in s.handles && Usable(s, s.handles[h])
  {
    Release(s.(handles := s.handles[h := incoming]), s.handles[h])
  }

  /** Emptied first, then destroyed through its table, then run. The table pointer stays behind. */
  function CallTarget(s: State, h: nat): State
    requires h in s.handles && Usable(s, s.handles[h]) && s.handles[h].impl.Some?
  {
    var id := s.handles[h].impl.value;
    var released := Release(s.(handles := s.handles[h := s.handles[h].(impl := None)]), s.handles[h]);
    released.(log := released.log + [Invoked(id)])
  }

  function Step(s: State, op: Op): State
    requires Inv(s) && Enabled(s, op)
  {
    match op
    case ConstructEmpty(h) => s.(handles := s.handles[h := EMPTY])
    case Construct(h, target) =>
      s.(handles := s.handles[h := Handle(Some(target), Some(s.next))],
         live := s.live[s.next := target],
         next := s.next + 1)
    case MoveConstruct(h, other) => s.(handles := s.handles[h := s.handles[other]][other := EMPTY])
    case MoveAssign(h, other) => SwapIn(s.(handles := s.handles[other := EMPTY]), h, s.handles[other])
    case NullAssign(h) => SwapIn(s, h, EMPTY)
    case Swap(h, other) => s.(handles := s.handles[h := s.handles[other]][other := s.handles[h]])
    case Call(h) => if s.handles[h].impl.None? then s else CallTarget(s, h)  // an empty handle throws
    case Destroy(h) => Release(s.(handles := s.handles - {h}), s.handles[h])
  }

  // ---------------------------------------------------------------------------
  // Single ownership
  // ---------------------------------------------------------------------------

  predicate Owns(s: State, h: nat, id: nat) {
    h in s.handles && s.handles[h].impl == Some(id)
  }

  /** Owned objects are alive, of the handle's type, and owned once; every live object has an owner. */
  ghost predicate Ownership(s: State) {
    && (forall h :: h in s.handles ==> Usable(s, s.handles[h]))
    && (forall h, k, id :: Owns(s, h, id) && Owns(s, k, id) ==> h == k)
    && (forall id :: id in s.live ==> exists h :: Owns(s, h, id))
  }

  /** Every object ever made is either alive or destroyed exactly once; it runs at most once, right after that. */
  ghost predicate History(live: map<nat, Type>, next: nat, log: seq<Entry>) {
    && (forall id :: id in live ==> id < next)
    && (forall id: nat :: multiset(log)[Destroyed(id)] == if id < next && id !in live then 1 else 0)
    && (forall id: nat :: multiset(log)[Invoked(id)] <= if id < next && id !in live then 1 else 0)
    && (forall k :: 0 <= k < |log| && log[k].Invoked? ==> k > 0 && log[k - 1] == Destroyed(log[k].id))
  }

  ghost predicate Inv(s: State) {
    Ownership(s) && History(s.live, s.next, s.log)
  }

  /** What one more entry does to the counts. */
  lemma Logged(log: seq<Entry>, e: Entry, f: Entry)
    ensures multiset(log + [e])[f] == multiset(log)[f] + if e == f then 1 else 0
  {
  }

  lemma DestroyKeepsHistory(live: map<nat, Type>, next: nat, log: seq<Entry>, id: nat)
    requires History(live, next, log) && id in live
    ensures History(live - {id}, next, log + [Destroyed(id)])
  {
    var after := log + [Destroyed(id)];
    forall k: nat
      ensures multiset(after)[Destroyed(k)] == if k < next && k !in live - {id} then 1 else 0
      ensures multiset(after)[Invoked(k)] <= if k < next && k !in live - {id} then 1 else 0
    {
      Logged(log, Destroyed(id), Destroyed(k));
      Logged(log, Destroyed(id), Invoked(k));
    }
  }

  lemma InvokeKeepsHistory(live: map<nat, Type>, next: nat, log: seq<Entry>, id: nat)
    requires History(live, next, log) && |log| > 0 && log[|log| - 1] == Destroyed(id)
    requires id < next && id !in live && multiset(log)[Invoked(id)] == 0
    ensures History(live, next, log + [Invoked(id)])
  {
    var after := log + [Invoked(id)];
    forall k: nat
      ensures multiset(after)[Destroyed(k)] == if k < next && k !in live then 1 else 0
      ensures multiset(after)[Invoked(k)] <= if k < next && k !in live then 1 else 0
    {
      Logged(log, Invoked(id), Destroyed(k));
      Logged(log, Invoked(id), Invoked(k));
    }
  }

  lemma CreateKeepsHistory(live: map<nat, Type>, next: nat, log: seq<Entry>, target: Type)
    requires History(live, next, log)
    ensures History(live[next := target], next + 1, log)
  {
  }

  /** Letting go of an object no handle owns any more. */
  lemma ReleaseKeepsInv(s: State, handle: Handle)
    requires Usable(s, handle) && History(s.live, s.next, s.log)
    requires forall h :: h in s.handles ==> Usable(s, s.handles[h])
    requires forall h, k, id :: Owns(s, h, id) && Owns(s, k, id) ==> h == k
    requires handle.impl.Some? ==> forall h :: !Owns(s, h, handle.impl.value)
    requires forall id :: id in s.live && handle.impl != Some(id) ==> exists h :: Owns(s, h, id)
    ensures Inv(Release(s, handle))
  {
    var r := Release(s, handle);
    if handle.impl.Some? {
      DestroyKeepsHistory(s.live, s.next, s.log, handle.impl.value);
      forall h | h in r.handles ensures Usable(r, r.handles[h]) {
        assert !Owns(s, h, handle.impl.value);
      }
      forall id | id in r.live ensures exists h :: Owns(r, h, id) {
        var h :| Owns(s, h, id);
        assert Owns(r, h, id);
      }
    }
    forall h, k, id | Owns(r, h, id) && Owns(r, k, id) ensures h == k {
      assert Owns(s, h, id) && Owns(s, k, id);
    }
  }

  /** Handle `h` gives up what it holds; its new value owns nothing. */
  lemma DropKeepsInv(s: State, h: nat, left: Handle)
    requires Inv(s) && h in s.handles && left.impl.None?
    ensures Inv(Release(s.(handles := s.handles[h := left]), s.handles[h]))
  {
    var t := s.(handles := s.handles[h := left]);
    OthersKeepOwning(s, t, h);
    ReleaseKeepsInv(t, s.handles[h]);
  }

  lemma OthersKeepOwning(s: State, t: State, h: nat)
    requires Inv(s) && h in s.handles && t.live == s.live
    requires forall k, id :: Owns(t, k, id) <==> Owns(s, k, id) && k != h
    ensures forall id :: id in t.live && s.handles[h].impl != Some(id) ==> exists k :: Owns(t, k, id)
    ensures s.handles[h].impl.Some? ==> forall k :: !Owns(t, k, s.handles[h].impl.value)
    ensures forall k, l, id :: Owns(t, k, id) && Owns(t, l, id) ==> k == l
  {
    forall id | id in t.live && s.handles[h].impl != Some(id) ensures exists k :: Owns(t, k, id) {
      var k :| Owns(s, k, id);
      assert Owns(t, k, id);
    }
    forall k | s.handles[h].impl.Some? ensures !Owns(t, k, s.handles[h].impl.value) {
      assert Owns(s, h, s.handles[h].impl.value);
    }
    forall k, l, id | Owns(t, k, id) && Owns(t, l, id) ensures k == l {
      assert Owns(s, k, id) && Owns(s, l, id);
    }
  }

  lemma DestroyKeepsInv(s: State, h: nat)
    requires Inv(s) && h in s.handles
    ensures Inv(Step(s, Destroy(h)))
  {
    var t := s.(handles := s.handles - {h});
    OthersKeepOwning(s, t, h);
    ReleaseKeepsInv(t, s.handles[h]);
  }

  /** Renaming owners one to one keeps single ownership. */
  lemma RelabelKeepsInv(s: State, t: State, from: nat -> nat)
    requires Inv(s) && t.live == s.live && t.next == s.next && t.log == s.log
    requires forall h, id :: Owns(t, h, id) <==> Owns(s, from(h), id)
    requires forall h :: from(from(h)) == h
    requires forall h :: h in t.handles ==> Usable(t, t.handles[h])
    ensures Inv(t)
  {
    forall h, k, id | Owns(t, h, id) && Owns(t, k, id) ensures h == k {
      assert Owns(s, from(h), id) && Owns(s, from(k), id);
      assert from(from(h)) == h && from(from(k)) == k;
    }
    forall id | id in t.live ensures exists h :: Owns(t, h, id) {
      var k :| Owns(s, k, id);
      assert from(from(k)) == k;
      assert Owns(t, from(k), id);
    }
  }

  function Exchanged(a: nat, b: nat, h: nat): nat {
    if h == a then b else if h == b then a else h
  }

  lemma SwapKeepsInv(s: State, a: nat, b: nat)
    requires Inv(s) && a in s.handles && b in s.handles
    ensures Inv(Step(s, Swap(a, b)))
  {
    var t := Step(s, Swap(a, b));
    forall h, id ensures Owns(t, h, id) <==> Owns(s, Exchanged(a, b, h), id) {
    }
    RelabelKeepsInv(s, t, h => Exchanged(a, b, h));
  }

  lemma MoveConstructKeepsInv(s: State, h: nat, other: nat)
    requires Inv(s) && h !in s.handles && other in s.handles
    ensures Inv(Step(s, MoveConstruct(h, other)))
  {
    var t := Step(s, MoveConstruct(h, other));
    forall k, id ensures Owns(t, k, id) <==> Owns(s, Exchanged(h, other, k), id) {
    }
    RelabelKeepsInv(s, t, k => Exchanged(h, other, k));
  }

  /** Assigning from another handle moves; from itself it does nothing at all. */
  lemma MoveAssignKeepsInv(s: State, h: nat, other: nat)
    requires Inv(s) && h in s.handles && other in s.handles
    ensures Inv(Step(s, MoveAssign(h, other)))
    ensures h == other ==> Step(s, MoveAssign(h, other)) == s
  {
    var t := Step(s, MoveAssign(h, other));
    if h == other {
      assert s.handles[other := EMPTY][h := s.handles[other]] == s.handles;
    } else {
      // The same as exchanging the two and dropping what `other` then holds.
      SwapKeepsInv(s, h, other);
      var u := Step(s, Swap(h, other));
      DropKeepsInv(u, other, EMPTY);
      assert u.handles[other := EMPTY] == s.handles[other := EMPTY][h := s.handles[other]];
    }
  }

  lemma ConstructKeepsInv(s: State, h: nat, target: Type)
    requires Inv(s) && h !in s.handles
    ensures Inv(Step(s, Construct(h, target)))
  {
    var t := Step(s, Construct(h, target));
    CreateKeepsHistory(s.live, s.next, s.log, target);
    forall k, id ensures Owns(t, k, id) <==> Owns(s, k, id) || (k == h && id == s.next) {
    }
    forall id | id in t.live ensures exists k :: Owns(t, k, id) {
      if id == s.next {
        assert Owns(t, h, id);
      } else {
        var k :| Owns(s, k, id);
        assert Owns(t, k, id);
      }
    }
    forall k, l, id | Owns(t, k, id) && Owns(t, l, id) ensures k == l {
      assert forall j :: Owns(s, j, id) ==> id in s.live;
    }
  }

  lemma ConstructEmptyKeepsInv(s: State, h: nat)
    requires Inv(s) && h !in s.handles
    ensures Inv(Step(s, ConstructEmpty(h)))
  {
    var t := Step(s, ConstructEmpty(h));
    forall k, id ensures Owns(t, k, id) <==> Owns(s, k, id) {
    }
    RelabelKeepsInv(s, t, k => k);
  }

  /** The log does not matter for ownership. */
  lemma LogKeepsOwnership(s: State, log: seq<Entry>)
    requires Ownership(s)
    ensures Ownership(s.(log := log))
  {
    var t := s.(log := log);
    assert forall k, id :: Owns(t, k, id) <==> Owns(s, k, id);
    forall id | id in t.live ensures exists k :: Owns(t, k, id) {
      var k :| Owns(s, k, id);
      assert Owns(t, k, id);
    }
  }

  lemma CallKeepsInv(s: State, h: nat)
    requires Inv(s) && h in s.handles
    ensures Inv(Step(s, Call(h)))
  {
    if s.handles[h].impl.Some? {
      var left, id := s.handles[h].(impl := None), s.handles[h].impl.value;
      var released := Release(s.(handles := s.handles[h := left]), s.handles[h]);
      DropKeepsInv(s, h, left);
      assert id in s.live && multiset(s.log)[Invoked(id)] == 0;
      assert released.log == s.log + [Destroyed(id)] && id !in released.live && id < released.next;
      InvokeKeepsHistory(released.live, released.next, released.log, id);
      LogKeepsOwnership(released, released.log + [Invoked(id)]);
    }
  }

  lemma StepKeepsInv(s: State, op: Op)
    requires Inv(s) && Enabled(s, op)
    ensures Inv(Step(s, op))
  {
    match op {
      case ConstructEmpty(h) => ConstructEmptyKeepsInv(s, h);
      case Construct(h, target) => ConstructKeepsInv(s, h, target);
      case MoveConstruct(h, other) => MoveConstructKeepsInv(s, h, other);
      case MoveAssign(h, other) => MoveAssignKeepsInv(s, h, other);
      case NullAssign(h) => DropKeepsInv(s, h, EMPTY);
      case Swap(h, other) => SwapKeepsInv(s, h, other);
      case Call(h) => CallKeepsInv(s, h);
      case Destroy(h) => DestroyKeepsInv(s, h);
    }
  }

  // ---------------------------------------------------------------------------
  // Whole runs
  // ---------------------------------------------------------------------------

  predicate ValidRun(s: State, ops: seq<Op>)
    requires Inv(s)
    decreases ops
  {
    ops == [] || (Enabled(s, ops[0]) && (StepKeepsInv(s, ops[0]); ValidRun(Step(s, ops[0]), ops[1..])))
  }

  function RunOf(s: State, ops: seq<Op>): (r: State)
    requires Inv(s) && ValidRun(s, ops)
    ensures Inv(r)
    decreases ops
  {
    if ops == [] then s else
      StepKeepsInv(s, ops[0]);
      RunOf(Step(s, ops[0]), ops[1..])
  }

  /**
   * Over every sequence of operations each object has at most one owner and is destroyed at most once; an
   * object that ran had been destroyed just before; and once the last handle is gone, every object ever made
   * has been destroyed exactly once.
   */
  lemma EveryRunOwnsOnce(ops: seq<Op>)
    requires ValidRun(INITIAL, ops)
    ensures var s := RunOf(INITIAL, ops);
            && (forall h, k, id :: Owns(s, h, id) && Owns(s, k, id) ==> h == k)
            && (forall h, id :: Owns(s, h, id) ==> id in s.live && s.handles[h].table == Some(s.live[id]))
            && (forall id: nat :: multiset(s.log)[Invoked(id)] <= multiset(s.log)[Destroyed(id)] <= 1)
            && (forall k :: 0 <= k < |s.log| && s.log[k].Invoked? ==> k > 0 && s.log[k - 1] == Destroyed(s.log[k].id))
            && (s.handles == map[] ==> forall id: nat :: id < s.next ==> multiset(s.log)[Destroyed(id)] == 1)
  {
    var s := RunOf(INITIAL, ops);
    if s.handles == map[] {
      forall id: nat ensures id !in s.live {
        assert !exists h :: Owns(s, h, id);
      }
    }
    assert forall h, id :: Owns(s, h, id) ==> Usable(s, s.handles[h]);
  }

  // ---------------------------------------------------------------------------
  // What each operation does
  // ---------------------------------------------------------------------------

  /** No other handle than these two changed, and no handle came or went. */
  predicate OthersKept(s: State, t: State, h: nat, other: nat) {
    t.handles.Keys == s.handles.Keys
    && forall k :: k in s.handles && k != h && k != other ==> t.handles[k] == s.handles[k]
  }

  /** `t` differs from `s` by the destruction of what `handle` owned, if anything. */
  predicate LetGo(s: State, t: State, handle: Handle) {
    && t.next == s.next
    && (handle.impl.None? ==> t.live == s.live && t.log == s.log)
    && (handle.impl.Some? ==> t.live == s.live - {handle.impl.value}
                              && t.log == s.log + [Destroyed(handle.impl.value)])
  }

  /** A call destroys the target and then runs it, once; the handle is empty, and no other handle notices. */
  lemma CallEffect(s: State, h: nat)
    requires Inv(s) && h in s.handles
    ensures var t := Step(s, Call(h));
            if s.handles[h].impl.None? then t == s
            else
              var id := s.handles[h].impl.value;
              && t.log == s.log + [Destroyed(id), Invoked(id)] && t.live == s.live - {id} && t.next == s.next
              && t.handles[h] == Handle(s.handles[h].table, None) && OthersKept(s, t, h, h)
  {
    if s.handles[h].impl.Some? {
      var id := s.handles[h].impl.value;
      assert s.log + [Destroyed(id)] + [Invoked(id)] == s.log + [Destroyed(id), Invoked(id)];
    }
  }

  /** Moving hands the target over, and destroys what the assigned handle held before. */
  lemma MoveEffect(s: State, h: nat, other: nat)
    requires Inv(s) && h in s.handles && other in s.handles && h != other
    ensures var t := Step(s, MoveAssign(h, other));
            && t.handles[h] == s.handles[other] && t.handles[other] == EMPTY
            && OthersKept(s, t, h, other) && LetGo(s, t, s.handles[h])
  {
  }

  lemma SwapEffect(s: State, h: nat, other: nat)
    requires Inv(s) && h in s.handles && other in s.handles
    ensures var t := Step(s, Swap(h, other));
            && t.handles[h] == s.handles[other] && t.handles[other] == s.handles[h]
            && OthersKept(s, t, h, other) && LetGo(s, t, EMPTY)
  {
  }

  lemma NullAssignEffect(s: State, h: nat)
    requires Inv(s) && h in s.handles
    ensures var t := Step(s, NullAssign(h));
            t.handles[h] == EMPTY && OthersKept(s, t, h, h) && LetGo(s, t, s.handles[h])
  {
  }

  lemma DestroyEffect(s: State, h: nat)
    requires Inv(s) && h in s.handles
    ensures var t := Step(s, Destroy(h));
            && t.handles.Keys == s.handles.Keys - {h}
            && (forall k :: k in t.handles ==> t.handles[k] == s.handles[k])
            && LetGo(s, t, s.handles[h])
  {
  }

  /** A new handle is empty, owns a new target of the given type, or takes over that of another handle. */
  lemma ConstructEffect(s: State, op: Op)
    requires Inv(s) && Enabled(s, op) && (op.ConstructEmpty? || op.Construct? || op.MoveConstruct?)
    ensures var t := Step(s, op);
            && t.handles.Keys == s.handles.Keys + {op.h} && t.log == s.log
            && (forall k :: k in s.handles && !(op.MoveConstruct? && k == op.other) ==> t.handles[k] == s.handles[k])
            && (op.ConstructEmpty? ==> t.handles[op.h] == EMPTY)
            && (op.Construct? ==> Owns(t, op.h, s.next) && t.live == s.live[s.next := op.target])
            && (op.MoveConstruct? ==> t.handles[op.h] == s.handles[op.other] && t.handles[op.other] == EMPTY)
            && (!op.Construct? ==> t.live == s.live && t.next == s.next)
  {
  }

  /** The targets that ran, in order. */
  function Ran(log: seq<Entry>): seq<nat> {
    if log == [] then []
    else
      var last := log[|log| - 1];
      Ran(log[..|log| - 1]) + if last.Invoked? then [last.id] else []
  }

  lemma RanSnoc(log: seq<Entry>, e: Entry)
    ensures Ran(log + [e]) == if e.Invoked? then Ran(log) + [e.id] else Ran(log)
  {
    assert (log + [e])[..|log|] == log;
    assert Ran(log) + [] == Ran(log);
  }

  /** The target of a call that meets one. */
  function CalledBy(s: State, op: Op): seq<nat>
    requires Enabled(s, op)
  {
    if op.Call? && s.handles[op.h].impl.Some? then [s.handles[op.h].impl.value] else []
  }

  function CalledIn(s: State, ops: seq<Op>): seq<nat>
    requires Inv(s) && ValidRun(s, ops)
    decreases ops
  {
    if ops == [] then []
    else
      StepKeepsInv(s, ops[0]);
      CalledBy(s, ops[0]) + CalledIn(Step(s, ops[0]), ops[1..])
  }

  lemma RunsWhenCalled(s: State, op: Op)
    requires Inv(s) && Enabled(s, op)
    ensures Ran(Step(s, op).log) == Ran(s.log) + CalledBy(s, op)
  {
    assert Ran(s.log) + [] == Ran(s.log);
    if op.Call? {
      CallEffect(s, op.h);
      if s.handles[op.h].impl.Some? {
        var id := s.handles[op.h].impl.value;
        assert s.log + [Destroyed(id), Invoked(id)] == s.log + [Destroyed(id)] + [Invoked(id)];
        RanSnoc(s.log, Destroyed(id));
        RanSnoc(s.log + [Destroyed(id)], Invoked(id));
      }
    } else {
      NoCallRunsNothing(s, op);
    }
  }

  lemma NoCallRunsNothing(s: State, op: Op)
    requires Inv(s) && Enabled(s, op) && !op.Call?
    ensures Ran(Step(s, op).log) == Ran(s.log)
  {
    var t := Step(s, op);
    if t.log != s.log {
      var e := t.log[|t.log| - 1];
      assert e.Destroyed? && t.log == s.log + [e];
      RanSnoc(s.log, e);
    }
  }

  lemma Bracketed(a: seq<nat>, b: seq<nat>, c: seq<nat>)
    ensures a + b + c == a + (b + c)
  {
  }

  /** Over every run the targets that run are exactly those called through a handle that had one, in that order. */
  lemma {:induction false} EveryCallRuns(s: State, ops: seq<Op>)
    requires Inv(s) && ValidRun(s, ops)
    ensures Ran(RunOf(s, ops).log) == Ran(s.log) + CalledIn(s, ops)
    decreases ops
  {
    if ops == [] {
      assert Ran(s.log) + [] == Ran(s.log);
    } else {
      StepKeepsInv(s, ops[0]);
      RunsWhenCalled(s, ops[0]);
      EveryCallRuns(Step(s, ops[0]), ops[1..]);
      Bracketed(Ran(s.log), CalledBy(s, ops[0]), CalledIn(Step(s, ops[0]), ops[1..]));
    }
  }

  // ---------------------------------------------------------------------------
  // The objects
  // ---------------------------------------------------------------------------

  /** The heap the targets live in. */
  class Heap {
    var live: map<nat, Type>
    var next: nat
    var log: seq<Entry>

    constructor ()
      ensures View() == INITIAL
    {
      live, next, log := map[], 0, [];
    }

    ghost function View(): State
      reads this
    {
      State(map[], live, next, log)
    }

    method Create(target: Type) returns (id: nat)
      modifies this
      ensures id == old(next)
      ensures View() == old(View()).(live := old(live)[id := target], next := old(next) + 1)
    {
      id := next;
      live, next := live[id := target], next + 1;
    }

    /** Destroys and deallocates through the table of the object's own type. */
    method DestroyTarget(table: Type, id: nat)
      requires id in live && live[id] == table
      modifies this
      ensures View() == Release(old(View()), Handle(Some(table), Some(id)))
    {
      live, log := live - {id}, log + [Destroyed(id)];
    }

    method CallTarget(table: Type, id: nat)
      requires id in live && live[id] == table
      modifies this
      ensures View() == old(View()).(live := old(live) - {id}, log := old(log) + [Destroyed(id), Invoked(id)])
    {
      DestroyTarget(table, id);
      log := log + [Invoked(id)];
    }
  }

  class AnyCompletionHandler {
    var fnTable: Option<Type>
    var impl: Option<nat>

    ghost function View(): Handle
      reads this
    {
      Handle(fnTable, impl)
    }

    constructor Empty()
      ensures View() == EMPTY
    {
      fnTable, impl := None, None;
    }

    constructor Of(heap: Heap, target: Type)
      modifies heap
      ensures View() == Handle(Some(target), Some(old(heap.next)))
      ensures heap.View()
              == old(heap.View()).(live := old(heap.live)[old(heap.next) := target], next := old(heap.next) + 1)
    {
      fnTable := Some(target);
      var id := heap.Create(target);
      impl := Some(id);
    }

    constructor Move(other: AnyCompletionHandler)
      modifies other
      ensures View() == old(other.View()) && other.View() == EMPTY
    {
      fnTable, impl := other.fnTable, other.impl;
      new;
      other.fnTable, other.impl := None, None;
    }

    method Exchange(other: AnyCompletionHandler)
      modifies this, other
      ensures View() == old(other.View()) && other.View() == old(View())
    {
      var table := fnTable;
      fnTable := other.fnTable;
      other.fnTable := table;
      var target := impl;
      impl := other.impl;
      other.impl := target;
    }

    /** The destructor. */
    method Finish(heap: Heap)
      requires Usable(heap.View(), View())
      modifies heap
      ensures heap.View() == Release(old(heap.View()), View())
    {
      if impl.Some? {
        heap.DestroyTarget(fnTable.value, impl.value);
      }
    }

    method Assign(other: AnyCompletionHandler, heap: Heap)
      requires Usable(heap.View(), View())
      modifies this, other, heap
      ensures View() == old(other.View())
      ensures other == this ==> heap.View() == old(heap.View())
      ensures other != this ==> other.View() == EMPTY && heap.View() == Release(old(heap.View()), old(View()))
    {
      var temporary := new AnyCompletionHandler.Move(other);
      temporary.Exchange(this);
      temporary.Finish(heap);
    }

    method AssignNull(heap: Heap)
      requires Usable(heap.View(), View())
      modifies this, heap
      ensures View() == EMPTY && heap.View() == Release(old(heap.View()), old(View()))
    {
      var temporary := new AnyCompletionHandler.Empty();
      temporary.Exchange(this);
      temporary.Finish(heap);
    }

    /** Throws on an empty handle; otherwise the handle is empty before the target runs. */
    method Invoke(heap: Heap) returns (threw: bool)
      requires Usable(heap.View(), View())
      modifies this, heap
      ensures threw <==> old(impl).None?
      ensures threw ==> View() == old(View()) && heap.View() == old(heap.View())
      ensures !threw ==>
                && View() == Handle(old(fnTable), None)
                && heap.live == old(heap.live) - {old(impl).value} && heap.next == old(heap.next)
                && heap.log == old(heap.log) + [Destroyed(old(impl).value), Invoked(old(impl).value)]
    {
      if impl.Some? {
        var target := impl.value;
        impl := None;
        heap.CallTarget(fnTable.value, target);
        return false;
      }
      return true;
    }
  }
}
