/** Address spaces that share object states until they write to them, seen next to spaces that
    copy everything at once. */
module AddressSpaces {

  type MemoryObject = nat
  type SpaceId = nat
  /** A reference to an object state. */
  type StateId = nat

  /** The owner is the epoch of the space that may write to the state. */
  datatype State = State(owner: nat, contents: seq<nat>)

  datatype Space = Space(cowKey: nat, objects: map<MemoryObject, StateId>)

  datatype World = World(spaces: map<SpaceId, Space>, states: map<StateId, State>)

  /** What a space can be asked to do; where a state may have to be created, with its reference. */
  datatype Op =
    | Create(s: SpaceId)
    | Fork(s: SpaceId, child: SpaceId)
    | Bind(s: SpaceId, mo: MemoryObject, contents: seq<nat>, spare: StateId)
    | Unbind(s: SpaceId, mo: MemoryObject)
    | Write(s: SpaceId, mo: MemoryObject, contents: seq<nat>, spare: StateId)

  predicate Bound(w: World, s: SpaceId, mo: MemoryObject) {
    s in w.spaces && mo in w.spaces[s].objects && w.spaces[s].objects[mo] in w.states
  }

  predicate Enabled(w: World, op: Op) {
    match op
    case Create(s) => s !in w.spaces
    case Fork(s, child) => s in w.spaces && child !in w.spaces
    case Bind(s, _, _, spare) => s in w.spaces && spare !in w.states
    case Unbind(s, _) => s in w.spaces
    case Write(s, mo, _, spare) => Bound(w, s, mo) && spare !in w.states
  }

  function SetObjects(w: World, s: SpaceId, objects: map<MemoryObject, StateId>): map<SpaceId, Space>
    requires s in w.spaces
  {
    w.spaces[s := Space(w.spaces[s].cowKey, objects)]
  }

  /** Makes the state of an object writeable: a state of an earlier epoch is copied first. */
  function Writeable(w: World, s: SpaceId, mo: MemoryObject, spare: StateId): World
    requires Bound(w, s, mo)
  {
    var space := w.spaces[s];
    var os := w.states[space.objects[mo]];
    if os.owner == space.cowKey then w
    else World(SetObjects(w, s, space.objects[mo := spare]), w.states[spare := State(space.cowKey, os.contents)])
  }

  function Step(w: World, op: Op): World
    requires Enabled(w, op)
  {
    match op
    case Create(s) => World(w.spaces[s := Space(1, map[])], w.states)
    case Fork(s, child) =>
      var parent := w.spaces[s];
      var next := Space(parent.cowKey + 1, parent.objects);
      World(w.spaces[s := next][child := next], w.states)
    case Bind(s, mo, contents, spare) =>
      var space := w.spaces[s];
      World(SetObjects(w, s, space.objects[mo := spare]), w.states[spare := State(space.cowKey, contents)])
    case Unbind(s, mo) => World(SetObjects(w, s, w.spaces[s].objects - {mo}), w.states)
    case Write(s, mo, contents, spare) =>
      var v := Writeable(w, s, mo, spare);
      var id := v.spaces[s].objects[mo];
      World(v.spaces, v.states[id := State(v.states[id].owner, contents)])
  }

  // ---------------------------------------------------------------- isolation

  /** The reference of an object in a space. */
  predicate Refers(w: World, s: SpaceId, mo: MemoryObject, id: StateId) {
    s in w.spaces && mo in w.spaces[s].objects && w.spaces[s].objects[mo] == id
  }

  /** Owners never exceed the epoch of a space; a state belongs to one memory object; and a state
      that two spaces share is owned by neither of them. */
  ghost predicate Isolated(w: World) {
    && (forall s :: s in w.spaces ==> w.spaces[s].cowKey > 0)
    && (forall s, mo, id :: Refers(w, s, mo, id) ==> id in w.states && 0 < w.states[id].owner <= w.spaces[s].cowKey)
    && (forall s, mo, id, t, other :: Refers(w, s, mo, id) && Refers(w, t, other, id) ==>
          mo == other && (s != t ==> w.states[id].owner < w.spaces[s].cowKey))
  }

  /** An object whose owner is the epoch of a space is reachable only from that space. */
  lemma OwnedIsPrivate(w: World, s: SpaceId, mo: MemoryObject, t: SpaceId, other: MemoryObject, id: StateId)
    requires Isolated(w) && Refers(w, s, mo, id) && w.states[id].owner == w.spaces[s].cowKey && Refers(w, t, other, id)
    ensures t == s && other == mo
  {
  }

  lemma CreateIsolated(w: World, s: SpaceId)
    requires Isolated(w) && s !in w.spaces
    ensures Isolated(Step(w, Create(s)))
  {
    var w' := Step(w, Create(s));
    assert forall t, mo, id :: Refers(w', t, mo, id) ==> Refers(w, t, mo, id);
  }

  lemma ForkIsolated(w: World, s: SpaceId, child: SpaceId)
    requires Isolated(w) && Enabled(w, Fork(s, child))
    ensures Isolated(Step(w, Fork(s, child)))
  {
    var w' := Step(w, Fork(s, child));
    assert forall t, mo, id :: Refers(w', t, mo, id) ==> Refers(w, if t == child then s else t, mo, id);
  }

  lemma BindIsolated(w: World, s: SpaceId, mo: MemoryObject, contents: seq<nat>, spare: StateId)
    requires Isolated(w) && Enabled(w, Bind(s, mo, contents, spare))
    ensures Isolated(Step(w, Bind(s, mo, contents, spare)))
  {
    var w' := Step(w, Bind(s, mo, contents, spare));
    forall t, other, id | Refers(w', t, other, id)
      ensures (t == s && other == mo && id == spare) || (Refers(w, t, other, id) && id != spare)
    {
      assert (t == s && other == mo) || Refers(w, t, other, id);
    }
  }

  lemma UnbindIsolated(w: World, s: SpaceId, mo: MemoryObject)
    requires Isolated(w) && Enabled(w, Unbind(s, mo))
    ensures Isolated(Step(w, Unbind(s, mo)))
  {
    var w' := Step(w, Unbind(s, mo));
    assert forall t, other, id :: Refers(w', t, other, id) ==> Refers(w, t, other, id);
  }

  lemma WriteableIsolated(w: World, s: SpaceId, mo: MemoryObject, spare: StateId)
    requires Isolated(w) && Bound(w, s, mo) && spare !in w.states
    ensures var v := Writeable(w, s, mo, spare);
            && Isolated(v) && Bound(v, s, mo)
            && v.states[v.spaces[s].objects[mo]].owner == v.spaces[s].cowKey
            && v.states[v.spaces[s].objects[mo]].contents == w.states[w.spaces[s].objects[mo]].contents
  {
    var v := Writeable(w, s, mo, spare);
    forall t, other, id | Refers(v, t, other, id)
      ensures (t == s && other == mo && id == v.spaces[s].objects[mo]) || (Refers(w, t, other, id) && id != spare)
    {
      if !(t == s && other == mo) {
        assert Refers(w, t, other, id);
      }
    }
    assert Refers(w, s, mo, w.spaces[s].objects[mo]);
  }

  lemma WriteIsolated(w: World, s: SpaceId, mo: MemoryObject, contents: seq<nat>, spare: StateId)
    requires Isolated(w) && Enabled(w, Write(s, mo, contents, spare))
    ensures Isolated(Step(w, Write(s, mo, contents, spare)))
  {
    hide Writeable;
    WriteableIsolated(w, s, mo, spare);
    var v, w' := Writeable(w, s, mo, spare), Step(w, Write(s, mo, contents, spare));
    assert forall t, other, id :: Refers(w', t, other, id) <==> Refers(v, t, other, id);
  }

  // ---------------------------------------------------------------- when states are copied

  /** The space may write to the state of the object as it is. */
  predicate Owned(w: World, s: SpaceId, mo: MemoryObject) {
    Bound(w, s, mo) && w.states[w.spaces[s].objects[mo]].owner == w.spaces[s].cowKey
  }

  /** A state is copied exactly if it is not owned. */
  lemma CopiesExactly(w: World, s: SpaceId, mo: MemoryObject, spare: StateId)
    requires Bound(w, s, mo) && spare !in w.states
    ensures var v := Writeable(w, s, mo, spare);
            && (v == w <==> Owned(w, s, mo))
            && (!Owned(w, s, mo) ==> v.states.Keys == w.states.Keys + {spare} && Refers(v, s, mo, spare))
            && Owned(v, s, mo)
  {
    var v := Writeable(w, s, mo, spare);
    assert !Owned(w, s, mo) ==> spare in v.states;
  }

  /** An object is owned from the time it is bound or written to until its space is forked. */
  lemma OwnedUntilFork(w: World, op: Op, s: SpaceId, mo: MemoryObject)
    requires Isolated(w) && Enabled(w, op)
    ensures Owned(Step(w, op), s, mo) <==>
            match op
            case Create(_) => Owned(w, s, mo)
            case Fork(parent, child) => Owned(w, s, mo) && s != parent && s != child
            case Bind(t, o, _, _) => Owned(w, s, mo) || (s == t && mo == o)
            case Unbind(t, o) => Owned(w, s, mo) && !(s == t && mo == o)
            case Write(t, o, _, _) => Owned(w, s, mo) || (s == t && mo == o)
  {
    if s in w.spaces && mo in w.spaces[s].objects {
      assert Refers(w, s, mo, w.spaces[s].objects[mo]);
    }
    match op
    case Create(t) => assert s == t ==> !Bound(Step(w, op), s, mo);
    case Fork(parent, child) =>
      if Bound(w, parent, mo) {
        assert Refers(w, parent, mo, w.spaces[parent].objects[mo]);
      }
    case Bind(t, o, _, spare) =>
    case Unbind(t, o) =>
    case Write(t, o, contents, spare) => OwnedAfterWrite(w, t, o, contents, spare, s, mo);
  }

  lemma OwnedAfterWrite(w: World, t: SpaceId, o: MemoryObject, contents: seq<nat>, spare: StateId, s: SpaceId,
      mo: MemoryObject)
    requires Isolated(w) && Enabled(w, Write(t, o, contents, spare))
    ensures Owned(Step(w, Write(t, o, contents, spare)), s, mo) <==> Owned(w, s, mo) || (s == t && mo == o)
  {
    if s in w.spaces && mo in w.spaces[s].objects {
      assert Refers(w, s, mo, w.spaces[s].objects[mo]);
    }
  }

  // ---------------------------------------------------------------- copying at once

  /** What every space reads. */
  type Views = map<SpaceId, map<MemoryObject, seq<nat>>>

  function View(w: World, s: SpaceId): map<MemoryObject, seq<nat>>
    requires s in w.spaces
  {
    map mo | mo in w.spaces[s].objects && w.spaces[s].objects[mo] in w.states ::
      w.states[w.spaces[s].objects[mo]].contents
  }

  function AllViews(w: World): Views {
    map s | s in w.spaces :: View(w, s)
  }

  /** The same operations on spaces that share nothing: a fork copies all contents. */
  function Eager(m: Views, op: Op): Views
    requires op.Create? || op.s in m
  {
    match op
    case Create(s) => m[s := map[]]
    case Fork(s, child) => m[child := m[s]]
    case Bind(s, mo, contents, _) => m[s := Put(m[s], mo, contents)]
    case Unbind(s, mo) => m[s := m[s] - {mo}]
    case Write(s, mo, contents, _) => m[s := Put(m[s], mo, contents)]
  }

  function Put(view: map<MemoryObject, seq<nat>>, mo: MemoryObject, contents: seq<nat>): map<MemoryObject, seq<nat>> {
    view[mo := contents]
  }

  /** A state no other reference leads to can be replaced without anyone else noticing. */
  lemma WriteSeenByOne(w: World, s: SpaceId, mo: MemoryObject, contents: seq<nat>, spare: StateId, t: SpaceId,
      other: MemoryObject)
    requires Isolated(w) && Enabled(w, Write(s, mo, contents, spare)) && t in w.spaces
    ensures var w' := Step(w, Write(s, mo, contents, spare));
            && t in w'.spaces && (other in View(w', t) <==> other in View(w, t))
            && (t == s && other == mo ==> other in View(w', t) && View(w', t)[other] == contents)
            && (!(t == s && other == mo) && other in View(w, t) ==> View(w', t)[other] == View(w, t)[other])
  {
    hide Isolated;
    var v, w' := Writeable(w, s, mo, spare), Step(w, Write(s, mo, contents, spare));
    WriteableIsolated(w, s, mo, spare);
    var id := v.spaces[s].objects[mo];
    assert Refers(v, s, mo, id);
    if Bound(v, t, other) && v.spaces[t].objects[other] == id {
      assert Refers(v, t, other, id);
      OwnedIsPrivate(v, s, mo, t, other, id);
    }
    if other in w.spaces[t].objects {
      AllBound(w, t, other);
    }
  }

  lemma AllBound(w: World, s: SpaceId, mo: MemoryObject)
    requires Isolated(w) && s in w.spaces && mo in w.spaces[s].objects
    ensures Bound(w, s, mo)
  {
    assert Refers(w, s, mo, w.spaces[s].objects[mo]);
  }

  lemma WriteRefines(w: World, s: SpaceId, mo: MemoryObject, contents: seq<nat>, spare: StateId)
    requires Isolated(w) && Enabled(w, Write(s, mo, contents, spare))
    ensures AllViews(Step(w, Write(s, mo, contents, spare))) == Eager(AllViews(w), Write(s, mo, contents, spare))
  {
    hide Isolated, Writeable, View;
    var w' := Step(w, Write(s, mo, contents, spare));
    WriteKeys(w, s, mo, contents, spare);
    forall t | t in w.spaces
      ensures View(w', t) == if t == s then Put(View(w, t), mo, contents) else View(w, t)
    {
      forall other
        ensures (other in View(w', t) <==> other in View(w, t) || (t == s && other == mo))
        ensures other in View(w', t) ==>
                View(w', t)[other] == if t == s && other == mo then contents else View(w, t)[other]
      {
        WriteSeenByOne(w, s, mo, contents, spare, t, other);
      }
    }
  }

  lemma WriteKeys(w: World, s: SpaceId, mo: MemoryObject, contents: seq<nat>, spare: StateId)
    requires Enabled(w, Write(s, mo, contents, spare))
    ensures Step(w, Write(s, mo, contents, spare)).spaces.Keys == w.spaces.Keys
  {
  }

  lemma BindSeen(w: World, s: SpaceId, mo: MemoryObject, contents: seq<nat>, spare: StateId, t: SpaceId,
      other: MemoryObject)
    requires Isolated(w) && Enabled(w, Bind(s, mo, contents, spare)) && t in w.spaces
    ensures var w' := Step(w, Bind(s, mo, contents, spare));
            && (other in View(w', t) <==> other in View(w, t) || (t == s && other == mo))
            && (other in View(w', t) ==>
                View(w', t)[other] == if t == s && other == mo then contents else View(w, t)[other])
  {
    hide Isolated;
    if other in w.spaces[t].objects {
      AllBound(w, t, other);
    }
  }

  lemma BindRefines(w: World, s: SpaceId, mo: MemoryObject, contents: seq<nat>, spare: StateId)
    requires Isolated(w) && Enabled(w, Bind(s, mo, contents, spare))
    ensures AllViews(Step(w, Bind(s, mo, contents, spare))) == Eager(AllViews(w), Bind(s, mo, contents, spare))
  {
    hide Isolated, View;
    var w' := Step(w, Bind(s, mo, contents, spare));
    forall t | t in w.spaces
      ensures View(w', t) == if t == s then Put(View(w, t), mo, contents) else View(w, t)
    {
      forall other
        ensures (other in View(w', t) <==> other in View(w, t) || (t == s && other == mo))
        ensures other in View(w', t) ==>
                View(w', t)[other] == if t == s && other == mo then contents else View(w, t)[other]
      {
        BindSeen(w, s, mo, contents, spare, t, other);
      }
    }
  }

  lemma SameView(w: World, t: SpaceId, w': World, u: SpaceId)
    requires t in w.spaces && u in w'.spaces && w'.spaces[u].objects == w.spaces[t].objects && w'.states == w.states
    ensures View(w', u) == View(w, t)
  {
  }

  lemma UnbindView(w: World, s: SpaceId, mo: MemoryObject)
    requires s in w.spaces
    ensures View(Step(w, Unbind(s, mo)), s) == View(w, s) - {mo}
  {
  }

  lemma SharingRefines(w: World, op: Op)
    requires Enabled(w, op) && (op.Create? || op.Fork? || op.Unbind?)
    ensures AllViews(Step(w, op)) == Eager(AllViews(w), op)
  {
    hide View;
    var w' := Step(w, op);
    forall t | t in w.spaces
      ensures View(w', t) == if op.Unbind? && t == op.s then View(w, t) - {op.mo} else View(w, t)
    {
      if op.Unbind? && t == op.s {
        UnbindView(w, t, op.mo);
      } else {
        SameView(w, t, w', t);
      }
    }
    if op.Fork? {
      SameView(w, op.s, w', op.child);
    }
    if op.Create? {
      EmptyView(w', op.s);
    }
  }

  lemma EmptyView(w: World, s: SpaceId)
    requires s in w.spaces && w.spaces[s].objects == map[]
    ensures View(w, s) == map[]
  {
  }

  /** Sharing is invisible: every operation does to what the spaces read exactly what it does to
      spaces that copy at once, and keeps the spaces isolated. */
  lemma StepRefines(w: World, op: Op)
    requires Isolated(w) && Enabled(w, op)
    ensures Isolated(Step(w, op)) && AllViews(Step(w, op)) == Eager(AllViews(w), op)
  {
    hide Isolated, AllViews, Step, Eager;
    match op
    case Create(s) =>
      CreateIsolated(w, s);
      SharingRefines(w, op);
    case Fork(s, child) =>
      ForkIsolated(w, s, child);
      SharingRefines(w, op);
    case Bind(s, mo, contents, spare) =>
      BindIsolated(w, s, mo, contents, spare);
      BindRefines(w, s, mo, contents, spare);
    case Unbind(s, mo) =>
      UnbindIsolated(w, s, mo);
      SharingRefines(w, op);
    case Write(s, mo, contents, spare) =>
      WriteIsolated(w, s, mo, contents, spare);
      WriteRefines(w, s, mo, contents, spare);
  }

  ghost predicate IsRun(run: seq<World>, ops: seq<Op>) {
    && |run| == |ops| + 1 && run[0] == World(map[], map[])
    && forall i :: 0 <= i < |ops| ==> Enabled(run[i], ops[i]) && run[i + 1] == Step(run[i], ops[i])
  }

  ghost function EagerRun(ops: seq<Op>, n: nat): Views
    requires n <= |ops|
  {
    if n == 0 then map[]
    else
      var m := EagerRun(ops, n - 1);
      if ops[n - 1].Create? || ops[n - 1].s in m then Eager(m, ops[n - 1]) else m
  }

  /** Over every sequence of operations on a tree of address spaces, each space reads what it would
      read had every fork copied everything. */
  lemma {:induction false} RunRefines(run: seq<World>, ops: seq<Op>, n: nat)
    requires IsRun(run, ops) && n < |run|
    ensures Isolated(run[n]) && AllViews(run[n]) == EagerRun(ops, n)
  {
    hide Isolated, Step, Eager;
    if n == 0 {
      NothingIsolated();
    } else {
      RunRefines(run, ops, n - 1);
      StepRefines(run[n - 1], ops[n - 1]);
    }
  }

  lemma NothingIsolated()
    ensures Isolated(World(map[], map[])) && AllViews(World(map[], map[])) == map[]
  {
  }

  // ---------------------------------------------------------------- in place

  class Forest {
    var spaces: map<SpaceId, Space>
    var states: map<StateId, State>

    ghost function Now(): World
      reads this
    {
      World(spaces, states)
    }

    constructor ()
      ensures Now() == World(map[], map[]) && Isolated(Now())
    {
      spaces, states := map[], map[];
    }

    method CreateSpace(s: SpaceId)
      requires Isolated(Now()) && s !in spaces
      modifies this
      ensures Isolated(Now()) && Now() == Step(old(Now()), Create(s))
    {
      StepRefines(Now(), Create(s));
      spaces := spaces[s := Space(1, map[])];
    }

    /** The copy constructor: the counter of the original goes up as well. */
    method CopySpace(s: SpaceId, child: SpaceId)
      requires Isolated(Now()) && s in spaces && child !in spaces
      modifies this
      ensures Isolated(Now()) && Now() == Step(old(Now()), Fork(s, child))
    {
      hide Isolated, AllViews;
      StepRefines(Now(), Fork(s, child));
      spaces := spaces[s := spaces[s].(cowKey := spaces[s].cowKey + 1)];
      spaces := spaces[child := Space(spaces[s].cowKey, spaces[s].objects)];
    }

    method BindObject(s: SpaceId, mo: MemoryObject, contents: seq<nat>, spare: StateId)
      requires Isolated(Now()) && s in spaces && spare !in states
      modifies this
      ensures Isolated(Now()) && Now() == Step(old(Now()), Bind(s, mo, contents, spare))
    {
      hide Isolated, AllViews;
      StepRefines(Now(), Bind(s, mo, contents, spare));
      states := states[spare := State(spaces[s].cowKey, contents)];
      spaces := spaces[s := Space(spaces[s].cowKey, spaces[s].objects[mo := spare])];
    }

    method GetWriteable(s: SpaceId, mo: MemoryObject, spare: StateId) returns (id: StateId)
      requires Isolated(Now()) && Bound(Now(), s, mo) && spare !in states
      modifies this
      ensures Isolated(Now()) && Now() == Writeable(old(Now()), s, mo, spare) && Refers(Now(), s, mo, id)
      ensures forall t, other :: Refers(Now(), t, other, id) ==> t == s && other == mo
      ensures forall t, other :: Bound(Now(), t, other) <==> Bound(old(Now()), t, other)
    {
      hide Isolated;
      ghost var w := Now();
      WriteableIsolated(w, s, mo, spare);
      ghost var v := Writeable(w, s, mo, spare);
      id := spaces[s].objects[mo];
      if states[id].owner != spaces[s].cowKey {
        states := states[spare := State(spaces[s].cowKey, states[id].contents)];
        spaces := spaces[s := Space(spaces[s].cowKey, spaces[s].objects[mo := spare])];
        id := spare;
      }
      forall t, other | Refers(v, t, other, id)
        ensures t == s && other == mo
      {
        OwnedIsPrivate(v, s, mo, t, other, id);
      }
      BoundAlike(w, s, mo, spare);
    }

    method WriteObject(s: SpaceId, mo: MemoryObject, contents: seq<nat>, spare: StateId)
      requires Isolated(Now()) && Bound(Now(), s, mo) && spare !in states
      modifies this
      ensures Isolated(Now()) && Now() == Step(old(Now()), Write(s, mo, contents, spare))
    {
      hide Isolated;
      StepRefines(Now(), Write(s, mo, contents, spare));
      var id := GetWriteable(s, mo, spare);
      states := states[id := State(states[id].owner, contents)];
    }
  }

  lemma BoundAlike(w: World, s: SpaceId, mo: MemoryObject, spare: StateId)
    requires Isolated(w) && Bound(w, s, mo) && spare !in w.states
    ensures forall t, other :: Bound(Writeable(w, s, mo, spare), t, other) <==> Bound(w, t, other)
  {
    forall t, other | t in w.spaces && other in w.spaces[t].objects
      ensures Bound(w, t, other)
    {
      AllBound(w, t, other);
    }
  }
}
