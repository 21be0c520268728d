/** Every handle and container of a program at once, with the collector as a
    second actor: which slot owns which cell, step by step and over whole runs.
    The steps are built from the functions that the methods of Handles and
    Containers are proved against. */
module HandleWorld {
  import opened Handles
  import opened ContainerSpec

  datatype MapObject = MapObject(info: MapInfo, twoPass: bool, impl: Impl)

  datatype World = World(
    heap: Heap,
    handles: map<nat, Address>,
    maps: map<nat, MapObject>,
    vectors: map<nat, seq<Address>>)

  const EMPTY_WORLD := World(EMPTY_HEAP, map[], map[], map[])

  /** A place that can own a cell. */
  datatype Slot = HandleSlot(g: nat) | MapSlot(m: nat, k: Key) | VectorSlot(v: nat, i: nat)

  function Held(w: World, s: Slot): Address {
    match s
    case HandleSlot(g) => if g in w.handles then w.handles[g] else NULL_ADDRESS
    case MapSlot(m, k) => if m in w.maps then Lookup(w.maps[m].impl, k) else NULL_ADDRESS
    case VectorSlot(v, i) =>
      if v in w.vectors && i < |w.vectors[v]| then w.vectors[v][i] else NULL_ADDRESS
  }

  predicate OfMap(s: Slot, m: nat) {
    s.MapSlot? && s.m == m
  }

  /** Only the cells of a weak map are weak, with data naming the map and the key. */
  predicate StateFits(w: World, s: Slot, state: NodeState) {
    if s.MapSlot? && s.m in w.maps then Expected(w.maps[s.m].info, s.k, state) else state == Normal
  }

  /** Ownership is linear: every live cell is held by exactly one slot, and no
      slot holds a cell that is not live. */
  ghost predicate Linear(w: World) {
    && (forall s :: Held(w, s) != NULL_ADDRESS ==>
          Held(w, s) in w.heap.cells && StateFits(w, s, w.heap.cells[Held(w, s)].state))
    && (forall s, t :: Held(w, s) == Held(w, t) != NULL_ADDRESS ==> s == t)
    && (forall a :: a in w.heap.cells ==> exists s :: Held(w, s) == a)
  }

  ghost predicate Inv(w: World) {
    && w.heap.Valid()
    && (forall m :: m in w.maps ==> w.maps[m].info.owner == m)
    && Linear(w)
  }

  function MapStateOf(w: World, m: nat): MapState
    requires m in w.maps
  {
    MapState(w.heap, w.maps[m].impl)
  }

  function WithMap(w: World, m: nat, s: MapState): World
    requires m in w.maps
  {
    w.(heap := s.heap, maps := w.maps[m := w.maps[m].(impl := s.impl)])
  }

  // ---------------------------------------------------------------------
  // Steps

  datatype Op =
    | NewHandle(g: nat, local: Local)        // Global(Isolate*, Local)
    | MoveHandle(g: nat, src: nat)           // move construction, Pass
    | AssignHandle(g: nat, src: nat)         // move assignment
    | CopyHandle(g: nat, src: nat)           // Persistent::Copy
    | ResetHandle(g: nat)
    | ResetHandleTo(g: nat, local: Local)
    | DropHandle(g: nat)                     // ~Global
    | NewMap(m: nat, callbackType: CallbackType, twoPass: bool)
    | NewVector(v: nat)
    | MapSet(m: nat, k: Key, g: nat, r: nat) // the displaced value goes to a new handle r
    | MapRemove(m: nat, k: Key, r: nat)
    | MapClear(m: nat, ds: seq<Drain>)       // also ~PersistentValueMapBase
    | VectorAppend(v: nat, g: nat)
    | VectorClear(v: nat)
    | Collect(m: nat, k: Key, es: seq<Entry>)
    | CollectFirstPass(m: nat, k: Key)
    | CollectSecondPass(d: CallbackData)

  predicate OnHandles(op: Op) {
    op.NewHandle? || op.MoveHandle? || op.AssignHandle? || op.CopyHandle?
    || op.ResetHandle? || op.ResetHandleTo? || op.DropHandle?
  }

  ghost predicate Enabled(w: World, op: Op) {
    match op
    case NewHandle(g, _) => g !in w.handles
    case MoveHandle(g, src) => g !in w.handles && src in w.handles
    case AssignHandle(g, src) => g in w.handles && src in w.handles
    case CopyHandle(g, src) => g in w.handles && src in w.handles
    case ResetHandle(g) => g in w.handles
    case ResetHandleTo(g, _) => g in w.handles
    case DropHandle(g) => g in w.handles
    case NewMap(m, _, _) => m !in w.maps
    case NewVector(v) => v !in w.vectors
    case MapSet(m, _, g, r) => m in w.maps && g in w.handles && r !in w.handles
    case MapRemove(m, _, r) => m in w.maps && r !in w.handles
    case MapClear(m, _) => m in w.maps
    case VectorAppend(v, g) => v in w.vectors && g in w.handles
    case VectorClear(v) => v in w.vectors
    // the collector picks an entry whose cell is weak
    case Collect(m, k, _) =>
      m in w.maps && !w.maps[m].twoPass && k in w.maps[m].impl && IsWeakCell(w.heap, w.maps[m].impl[k])
    case CollectFirstPass(m, k) =>
      m in w.maps && w.maps[m].twoPass && k in w.maps[m].impl && IsWeakCell(w.heap, w.maps[m].impl[k])
    case CollectSecondPass(d) => d in w.heap.inCallback
  }

  function Reset(w: World, g: nat): World
    requires g in w.handles
  {
    w.(heap := ResetHeap(w.heap, w.handles[g]), handles := w.handles[g := NULL_ADDRESS])
  }

  function Fill(w: World, g: nat, local: Local): World {
    w.(heap := NewHeap(w.heap, local), handles := w.handles[g := NewAddress(w.heap, local)])
  }

  function Copied(w: World, g: nat, v: Address): World {
    w.(heap := CopyHeap(w.heap, v), handles := w.handles[g := CopyAddress(w.heap, v)])
  }

  function Move(w: World, g: nat, src: nat): World
    requires src in w.handles
  {
    w.(handles := w.handles[g := w.handles[src]][src := NULL_ADDRESS])
  }

  function MapSetWorld(w: World, m: nat, k: Key, g: nat, r: nat): World
    requires m in w.maps && g in w.handles
  {
    var s := MapStateOf(w, m);
    WithMap(w, m, SetState(w.maps[m].info, s, k, w.handles[g]))
      .(handles := w.handles[g := NULL_ADDRESS][r := Lookup(s.impl, k)])
  }

  function MapRemoveWorld(w: World, m: nat, k: Key, r: nat): World
    requires m in w.maps
  {
    var s := MapStateOf(w, m);
    WithMap(w, m, RemoveState(w.maps[m].info, s, k))
      .(handles := w.handles[r := Lookup(s.impl, k)])
  }

  function VectorAppendWorld(w: World, v: nat, g: nat): World
    requires v in w.vectors && g in w.handles
  {
    w.(vectors := w.vectors[v := w.vectors[v] + [w.handles[g]]],
       handles := w.handles[g := NULL_ADDRESS])
  }

  function VectorClearWorld(w: World, v: nat): World
    requires v in w.vectors
  {
    w.(heap := DisposeSeq(w.heap, w.vectors[v]), vectors := w.vectors[v := []])
  }

  predicate MapClearStep(w: World, m: nat, ds: seq<Drain>, w': World)
    requires m in w.maps
  {
    var s' := MapState(w'.heap, map[]);
    w' == WithMap(w, m, s') && Clears(w.maps[m].info, MapStateOf(w, m), ds, s')
  }

  ghost predicate Next(w: World, op: Op, w': World) {
    Enabled(w, op) &&
    match op
    case NewHandle(g, local) => w' == Fill(w, g, local)
    case MoveHandle(g, src) => w' == Move(w, g, src)
    case AssignHandle(g, src) => w' == if g == src then w else Move(Reset(w, g), g, src)
    case CopyHandle(g, src) =>
      var w1 := Reset(w, g);
      w' == Copied(w1, g, w1.handles[src])
    case ResetHandle(g) => w' == Reset(w, g)
    case ResetHandleTo(g, local) => w' == Fill(Reset(w, g), g, local)
    case DropHandle(g) =>
      var w1 := Reset(w, g);
      w' == w1.(handles := w1.handles - {g})
    case NewMap(m, t, twoPass) =>
      w' == w.(maps := w.maps[m := MapObject(MapInfo(m, t), twoPass, map[])])
    case NewVector(v) => w' == w.(vectors := w.vectors[v := []])
    case MapSet(m, k, g, r) => w' == MapSetWorld(w, m, k, g, r)
    case MapRemove(m, k, r) => w' == MapRemoveWorld(w, m, k, r)
    case MapClear(m, ds) => MapClearStep(w, m, ds, w')
    case VectorAppend(v, g) => w' == VectorAppendWorld(w, v, g)
    case VectorClear(v) => w' == VectorClearWorld(w, v)
    case Collect(m, k, es) =>
      w' == WithMap(w, m, CollectState(w.maps[m].info, MapStateOf(w, m), k, es))
    case CollectFirstPass(m, k) =>
      w' == WithMap(w, m, CollectFirstPassState(w.maps[m].info, MapStateOf(w, m), k))
    case CollectSecondPass(d) => w' == w.(heap := FreeData(w.heap, d))
  }

  // ---------------------------------------------------------------------
  // Each step keeps ownership linear

  lemma MoveKeeps(w: World, g: nat, src: nat)
    requires Inv(w) && src in w.handles && g != src
    requires Held(w, HandleSlot(g)) == NULL_ADDRESS
    ensures Inv(Move(w, g, src))
  {
    var w' := Move(w, g, src);
    assert forall s ::
      Held(w', s) == (if s == HandleSlot(g) then Held(w, HandleSlot(src))
      else if s == HandleSlot(src) then NULL_ADDRESS else Held(w, s));
    forall a | a in w'.heap.cells
      ensures exists s :: Held(w', s) == a
    {
      var s :| Held(w, s) == a;
      assert Held(w', if s == HandleSlot(src) then HandleSlot(g) else s) == a;
    }
  }

  lemma ResetKeeps(w: World, g: nat)
    requires Inv(w) && g in w.handles
    ensures Inv(Reset(w, g))
  {
    var w' := Reset(w, g);
    var v := w.handles[g];
    assert v == Held(w, HandleSlot(g));
    if v != NULL_ADDRESS { DisposeKeepsValid(w.heap, v); }
    assert forall s :: Held(w', s) == if s == HandleSlot(g) then NULL_ADDRESS else Held(w, s);
    forall a | a in w'.heap.cells
      ensures exists s :: Held(w', s) == a
    {
      var s :| Held(w, s) == a;
      assert Held(w', s) == a;
    }
  }

  lemma DropKeeps(w: World, g: nat)
    requires Inv(w) && g in w.handles && w.handles[g] == NULL_ADDRESS
    ensures Inv(w.(handles := w.handles - {g}))
  {
    var w' := w.(handles := w.handles - {g});
    assert forall s :: Held(w', s) == Held(w, s);
    forall a | a in w'.heap.cells
      ensures exists s :: Held(w', s) == a
    {
      var s :| Held(w, s) == a;
      assert Held(w', s) == a;
    }
  }

  lemma FillHeld(w: World, g: nat, local: Local)
    ensures forall s ::
      Held(Fill(w, g, local), s) == (if s == HandleSlot(g) then NewAddress(w.heap, local) else Held(w, s))
  {
  }

  lemma FillKeeps(w: World, g: nat, local: Local)
    requires Inv(w) && Held(w, HandleSlot(g)) == NULL_ADDRESS
    ensures Inv(Fill(w, g, local))
  {
    var w' := Fill(w, g, local);
    if local.To? { GlobalizeKeepsValid(w.heap, local.obj); }
    FillHeld(w, g, local);
    forall a | a in w'.heap.cells
      ensures exists s :: Held(w', s) == a
    {
      if a in w.heap.cells {
        var s :| Held(w, s) == a;
        assert Held(w', s) == a;
      } else {
        assert Held(w', HandleSlot(g)) == a;
      }
    }
  }

  /** The cell a handle holds is live, so copying it works. */
  lemma CopyIsFill(w: World, g: nat, src: nat)
    requires Inv(w) && src in w.handles
    ensures Copied(w, g, w.handles[src]) == Fill(w, g, LocalOf(w.heap, w.handles[src]))
  {
    assert w.handles[src] == Held(w, HandleSlot(src));
  }

  lemma MapHolds(w: World, m: nat)
    requires Linear(w) && m in w.maps && w.maps[m].info.owner == m
    ensures Holds(w.maps[m].info, MapStateOf(w, m))
    ensures forall s :: !OfMap(s, m) && Held(w, s) != NULL_ADDRESS ==>
      !Owned(w.maps[m].impl, Held(w, s))
    ensures forall s :: OfMap(s, m) && Held(w, s) != NULL_ADDRESS ==> Owned(w.maps[m].impl, Held(w, s))
  {
    var impl := w.maps[m].impl;
    assert forall k :: k in impl ==> impl[k] == Held(w, MapSlot(m, k));
  }

  lemma OutsideSlots(w: World, m: nat, s': MapState)
    requires Linear(w) && m in w.maps && w.maps[m].info.owner == m
    requires Others(s') == Others(MapStateOf(w, m))
    ensures var w' := WithMap(w, m, s');
            forall s :: !OfMap(s, m) ==>
              && Held(w', s) == Held(w, s)
              && (Held(w, s) != NULL_ADDRESS ==>
                    && Held(w, s) in w'.heap.cells
                    && w'.heap.cells[Held(w, s)] == w.heap.cells[Held(w, s)]
                    && !Owned(s'.impl, Held(w, s)))
  {
    MapHolds(w, m);
    var others := Others(MapStateOf(w, m));
    forall s | !OfMap(s, m) && Held(w, s) != NULL_ADDRESS
      ensures Held(w, s) in Others(s') && s'.heap.cells[Held(w, s)] == w.heap.cells[Held(w, s)]
    {
      assert Held(w, s) in others;
      assert Others(s')[Held(w, s)] == others[Held(w, s)];
    }
  }

  lemma InsideNoLeak(w: World, m: nat, s': MapState, a: Address)
    requires Linear(w) && m in w.maps && w.maps[m].info.owner == m
    requires Others(s') == Others(MapStateOf(w, m)) && a in s'.heap.cells && a != NULL_ADDRESS
    ensures exists s :: Held(WithMap(w, m, s'), s) == a
  {
    MapHolds(w, m);
    var w' := WithMap(w, m, s');
    if Owned(s'.impl, a) {
      var k :| k in s'.impl && s'.impl[k] == a;
      assert Held(w', MapSlot(m, k)) == a;
    } else {
      assert a in Others(s') && a in Others(MapStateOf(w, m));
      var s :| Held(w, s) == a;
      assert !OfMap(s, m);
      assert Held(w', s) == a;
    }
  }

  /** A step inside one map that leaves every cell the map does not own alone. */
  lemma InsideMap(w: World, m: nat, s': MapState)
    requires Linear(w) && m in w.maps && w.maps[m].info.owner == m
    requires s'.heap.CellsInRange() && Holds(w.maps[m].info, s') && Others(s') == Others(MapStateOf(w, m))
    ensures Linear(WithMap(w, m, s'))
  {
    OutsideSlots(w, m, s');
    var w' := WithMap(w, m, s');
    forall k | Held(w', MapSlot(m, k)) != NULL_ADDRESS
      ensures Owned(s'.impl, Held(w', MapSlot(m, k)))
    {
      assert k in s'.impl && s'.impl[k] == Held(w', MapSlot(m, k));
    }
    forall a | a in w'.heap.cells
      ensures exists s :: Held(w', s) == a
    {
      InsideNoLeak(w, m, s', a);
    }
  }

  /** Moving cells between slots: `to` says where the cell of an old slot went,
      `from` where the cell of a new slot came from. */
  lemma Relinked(w: World, w': World, to: Slot -> Slot, from: Slot -> Slot)
    requires Linear(w) && w'.heap.cells.Keys == w.heap.cells.Keys && NULL_ADDRESS !in w.heap.cells
    requires forall s :: Held(w, s) != NULL_ADDRESS ==> Held(w', to(s)) == Held(w, s)
    requires forall s :: Held(w', s) != NULL_ADDRESS ==>
      Held(w', s) == Held(w, from(s)) && to(from(s)) == s
    requires forall s :: Held(w', s) != NULL_ADDRESS && Held(w', s) in w'.heap.cells ==>
      StateFits(w', s, w'.heap.cells[Held(w', s)].state)
    ensures Linear(w')
  {
    forall a | a in w'.heap.cells
      ensures exists s :: Held(w', s) == a
    {
      var s :| Held(w, s) == a;
      assert Held(w', to(s)) == a;
    }
  }

  /** What MapSet does to the slots, given only what storing does to the map. */
  lemma MapSetHeld(w: World, m: nat, k: Key, g: nat, r: nat, s': MapState, w': World)
    requires m in w.maps && g in w.handles && r !in w.handles
    requires s'.impl == w.maps[m].impl[k := w.handles[g]]
    requires w' == WithMap(w, m, s').(handles := w.handles[g := NULL_ADDRESS][r := Lookup(w.maps[m].impl, k)])
    ensures Held(w', HandleSlot(g)) == NULL_ADDRESS
    ensures Held(w', HandleSlot(r)) == Held(w, MapSlot(m, k))
    ensures Held(w', MapSlot(m, k)) == Held(w, HandleSlot(g))
    ensures forall t :: t != HandleSlot(g) && t != HandleSlot(r) && t != MapSlot(m, k) ==>
      Held(w', t) == Held(w, t)
  {
  }

  lemma MapSetSlots(w: World, m: nat, k: Key, g: nat, r: nat, s': MapState, w': World)
    requires Linear(w) && m in w.maps && w.maps[m].info.owner == m
    requires g in w.handles && r !in w.handles
    requires Stored(w.maps[m].info, MapStateOf(w, m), k, w.handles[g], s')
    requires w' == WithMap(w, m, s').(handles := w.handles[g := NULL_ADDRESS][r := Lookup(w.maps[m].impl, k)])
    ensures forall t :: Held(w', t) != NULL_ADDRESS ==>
      Held(w', t) in w'.heap.cells && StateFits(w', t, w'.heap.cells[Held(w', t)].state)
  {
    MapSetHeld(w, m, k, g, r, s', w');
    var v, previous := Held(w, HandleSlot(g)), Held(w, MapSlot(m, k));
    assert v == w.handles[g] && previous == Lookup(w.maps[m].impl, k);
    forall t | Held(w', t) != NULL_ADDRESS
      ensures Held(w', t) in w'.heap.cells && StateFits(w', t, w'.heap.cells[Held(w', t)].state)
    {
      if t == MapSlot(m, k) {
        assert s'.impl[k] == v;
      } else if t != HandleSlot(g) && t != HandleSlot(r) {
        assert Held(w, t) != v && Held(w, t) != previous;
        assert StateFits(w, t, w.heap.cells[Held(w, t)].state);
      }
    }
  }

  lemma MapSetLinear(w: World, m: nat, k: Key, g: nat, r: nat, s': MapState, w': World)
    requires Linear(w) && m in w.maps && w.maps[m].info.owner == m && NULL_ADDRESS !in w.heap.cells
    requires g in w.handles && r !in w.handles
    requires Stored(w.maps[m].info, MapStateOf(w, m), k, w.handles[g], s')
    requires w' == WithMap(w, m, s').(handles := w.handles[g := NULL_ADDRESS][r := Lookup(w.maps[m].impl, k)])
    ensures Linear(w')
  {
    MapSetHeld(w, m, k, g, r, s', w');
    MapSetSlots(w, m, k, g, r, s', w');
    Relinked(w, w',
      t => if t == HandleSlot(g) then MapSlot(m, k) else if t == MapSlot(m, k) then HandleSlot(r) else t,
      t => if t == MapSlot(m, k) then HandleSlot(g) else if t == HandleSlot(r) then MapSlot(m, k) else t);
  }

  lemma MapSetStores(w: World, m: nat, k: Key, g: nat, r: nat)
    requires Linear(w) && Enabled(w, MapSet(m, k, g, r)) && w.maps[m].info.owner == m
    ensures Storable(MapStateOf(w, m), w.handles[g])
    ensures Stored(w.maps[m].info, MapStateOf(w, m), k, w.handles[g],
                   SetState(w.maps[m].info, MapStateOf(w, m), k, w.handles[g]))
  {
    MapHolds(w, m);
    assert w.handles[g] == Held(w, HandleSlot(g));
    SetCells(w.maps[m].info, MapStateOf(w, m), k, w.handles[g]);
  }

  lemma MapSetKeeps(w: World, m: nat, k: Key, g: nat, r: nat, w': World)
    requires Inv(w) && Enabled(w, MapSet(m, k, g, r)) && w' == MapSetWorld(w, m, k, g, r)
    ensures Inv(w')
  {
    MapSetStores(w, m, k, g, r);
    MapSetLinear(w, m, k, g, r, SetState(w.maps[m].info, MapStateOf(w, m), k, w.handles[g]), w');
    SetLater(w.maps[m].info, MapStateOf(w, m), k, w.handles[g]);
  }

  lemma MapRemoveHeld(w: World, m: nat, k: Key, r: nat, s': MapState, w': World)
    requires m in w.maps && r !in w.handles && s'.impl == w.maps[m].impl - {k}
    requires w' == WithMap(w, m, s').(handles := w.handles[r := Lookup(w.maps[m].impl, k)])
    ensures Held(w', HandleSlot(r)) == Held(w, MapSlot(m, k))
    ensures Held(w', MapSlot(m, k)) == NULL_ADDRESS
    ensures forall t :: t != HandleSlot(r) && t != MapSlot(m, k) ==> Held(w', t) == Held(w, t)
  {
  }

  lemma MapRemoveSlots(w: World, m: nat, k: Key, r: nat, s': MapState, w': World)
    requires Linear(w) && m in w.maps && w.maps[m].info.owner == m && r !in w.handles
    requires Removed(w.maps[m].info, MapStateOf(w, m), k, s')
    requires w' == WithMap(w, m, s').(handles := w.handles[r := Lookup(w.maps[m].impl, k)])
    ensures forall t :: Held(w', t) != NULL_ADDRESS ==>
      Held(w', t) in w'.heap.cells && StateFits(w', t, w'.heap.cells[Held(w', t)].state)
  {
    MapRemoveHeld(w, m, k, r, s', w');
    var previous := Held(w, MapSlot(m, k));
    assert previous == Lookup(w.maps[m].impl, k);
    forall t | Held(w', t) != NULL_ADDRESS
      ensures Held(w', t) in w'.heap.cells && StateFits(w', t, w'.heap.cells[Held(w', t)].state)
    {
      if t != HandleSlot(r) {
        assert Held(w, t) != previous;
        assert StateFits(w, t, w.heap.cells[Held(w, t)].state);
      }
    }
  }

  lemma MapRemoveLinear(w: World, m: nat, k: Key, r: nat, s': MapState, w': World)
    requires Linear(w) && m in w.maps && w.maps[m].info.owner == m && NULL_ADDRESS !in w.heap.cells
    requires r !in w.handles && Removed(w.maps[m].info, MapStateOf(w, m), k, s')
    requires w' == WithMap(w, m, s').(handles := w.handles[r := Lookup(w.maps[m].impl, k)])
    ensures Linear(w')
  {
    MapRemoveHeld(w, m, k, r, s', w');
    MapRemoveSlots(w, m, k, r, s', w');
    Relinked(w, w',
      t => if t == MapSlot(m, k) then HandleSlot(r) else t,
      t => if t == HandleSlot(r) then MapSlot(m, k) else t);
  }

  lemma MapRemoveKeeps(w: World, m: nat, k: Key, r: nat, w': World)
    requires Inv(w) && m in w.maps && r !in w.handles && w' == MapRemoveWorld(w, m, k, r)
    ensures Inv(w')
  {
    MapHolds(w, m);
    RemoveCells(w.maps[m].info, MapStateOf(w, m), k);
    MapRemoveLinear(w, m, k, r, RemoveState(w.maps[m].info, MapStateOf(w, m), k), w');
    ReleaseLater(w.maps[m].info, w.heap, Lookup(w.maps[m].impl, k));
  }

  /** What a Clear that ended has done, seen from outside the map. */
  ghost predicate Cleared(w: World, m: nat, w': World)
    requires m in w.maps
  {
    && Later(w.heap, w'.heap)
    && w'.heap.cells == Others(MapStateOf(w, m))
    && w' == WithMap(w, m, MapState(w'.heap, map[]))
  }

  lemma MapClearClears(w: World, m: nat, ds: seq<Drain>, w': World)
    requires Inv(w) && m in w.maps && MapClearStep(w, m, ds, w')
    ensures Cleared(w, m, w')
  {
    MapHolds(w, m);
    ClearKeeps(w.maps[m].info, MapStateOf(w, m), ds, MapState(w'.heap, map[]));
  }

  lemma MapClearKeeps(w: World, m: nat, w': World)
    requires Inv(w) && m in w.maps && Cleared(w, m, w')
    ensures Inv(w')
  {
    var s' := MapState(w'.heap, map[]);
    assert Others(s') == w'.heap.cells;
    InsideMap(w, m, s');
  }

  lemma VectorAppendKeeps(w: World, v: nat, g: nat, w': World)
    requires Inv(w) && v in w.vectors && g in w.handles && w' == VectorAppendWorld(w, v, g)
    ensures Inv(w')
  {
    var last := VectorSlot(v, |w.vectors[v]|);
    VectorAppendHeld(w, v, g, w');
    Relinked(w, w',
      t => if t == HandleSlot(g) then last else t,
      t => if t == last then HandleSlot(g) else t);
  }

  lemma VectorAppendHeld(w: World, v: nat, g: nat, w': World)
    requires v in w.vectors && g in w.handles && w' == VectorAppendWorld(w, v, g)
    ensures forall t ::
      Held(w', t) == (if t == HandleSlot(g) then NULL_ADDRESS
                      else if t == VectorSlot(v, |w.vectors[v]|) then Held(w, HandleSlot(g))
                      else Held(w, t))
    ensures Held(w, VectorSlot(v, |w.vectors[v]|)) == NULL_ADDRESS
  {
  }

  predicate OfVector(s: Slot, v: nat) {
    s.VectorSlot? && s.v == v
  }

  lemma VectorClearCells(w: World, v: nat)
    requires Inv(w) && v in w.vectors
    ensures var h' := DisposeSeq(w.heap, w.vectors[v]);
            && Later(w.heap, h')
            && h'.cells == map a | a in w.heap.cells && a !in w.vectors[v] :: w.heap.cells[a]
    ensures forall s :: !OfVector(s, v) && Held(w, s) != NULL_ADDRESS ==> Held(w, s) !in w.vectors[v]
  {
    var vs := w.vectors[v];
    assert forall i :: 0 <= i < |vs| ==> vs[i] == Held(w, VectorSlot(v, i));
    DisposeSeqKeeps(w.heap, vs);
  }

  lemma VectorClearHeld(w: World, v: nat, w': World)
    requires v in w.vectors && w' == VectorClearWorld(w, v)
    ensures forall s :: Held(w', s) == if OfVector(s, v) then NULL_ADDRESS else Held(w, s)
    ensures forall s :: OfVector(s, v) && Held(w, s) != NULL_ADDRESS ==> Held(w, s) in w.vectors[v]
  {
  }

  lemma VectorClearKeeps(w: World, v: nat, w': World)
    requires Inv(w) && v in w.vectors && w' == VectorClearWorld(w, v)
    ensures Inv(w')
  {
    VectorClearCells(w, v);
    VectorClearHeld(w, v, w');
    forall a | a in w'.heap.cells
      ensures exists s :: Held(w', s) == a
    {
      var s :| Held(w, s) == a;
      assert Held(w', s) == a;
    }
  }

  lemma SecondPassKeeps(w: World, d: CallbackData, w': World)
    requires Inv(w) && d in w.heap.inCallback && w' == w.(heap := FreeData(w.heap, d))
    ensures Inv(w')
  {
    FreeInCallbackKeepsValid(w.heap, d);
    assert forall s :: Held(w', s) == Held(w, s);
    forall a | a in w'.heap.cells
      ensures exists s :: Held(w', s) == a
    {
      var s :| Held(w, s) == a;
      assert Held(w', s) == a;
    }
  }

  lemma NewContainerKeeps(w: World, w': World)
    requires Inv(w) && w'.heap == w.heap && w'.handles == w.handles
    requires forall m :: m in w'.maps ==> w'.maps[m].info.owner == m
    requires forall m :: m in w.maps ==> m in w'.maps && w'.maps[m] == w.maps[m]
    requires forall m :: m in w'.maps && m !in w.maps ==> w'.maps[m].impl == map[]
    requires forall v :: v in w.vectors ==> v in w'.vectors && w'.vectors[v] == w.vectors[v]
    requires forall v :: v in w'.vectors && v !in w.vectors ==> w'.vectors[v] == []
    ensures Inv(w')
  {
    assert forall s :: Held(w', s) == Held(w, s);
    forall a | a in w'.heap.cells
      ensures exists s :: Held(w', s) == a
    {
      var s :| Held(w, s) == a;
      assert Held(w', s) == a;
    }
  }

  lemma HandleStepKeeps(w: World, op: Op, w': World)
    requires Inv(w) && Next(w, op, w') && OnHandles(op)
    ensures Inv(w')
  {
    match op
    case NewHandle(g, local) => FillKeeps(w, g, local);
    case MoveHandle(g, src) => MoveKeeps(w, g, src);
    case AssignHandle(g, src) =>
      if g != src {
        ResetKeeps(w, g);
        MoveKeeps(Reset(w, g), g, src);
      }
    case CopyHandle(g, src) =>
      ResetKeeps(w, g);
      CopyIsFill(Reset(w, g), g, src);
      FillKeeps(Reset(w, g), g, LocalOf(Reset(w, g).heap, Reset(w, g).handles[src]));
    case ResetHandle(g) => ResetKeeps(w, g);
    case ResetHandleTo(g, local) =>
      ResetKeeps(w, g);
      FillKeeps(Reset(w, g), g, local);
    case DropHandle(g) =>
      ResetKeeps(w, g);
      DropKeeps(Reset(w, g), g);
  }

  lemma StepKeeps(w: World, op: Op, w': World)
    requires Inv(w) && Next(w, op, w')
    ensures Inv(w')
  {
    if OnHandles(op) { HandleStepKeeps(w, op, w'); return; }
    match op
    case NewMap(m, t, twoPass) => NewContainerKeeps(w, w');
    case NewVector(v) => NewContainerKeeps(w, w');
    case MapSet(m, k, g, r) => MapSetKeeps(w, m, k, g, r, w');
    case MapRemove(m, k, r) => MapRemoveKeeps(w, m, k, r, w');
    case MapClear(m, ds) =>
      MapClearClears(w, m, ds, w');
      MapClearKeeps(w, m, w');
    case VectorAppend(v, g) => VectorAppendKeeps(w, v, g, w');
    case VectorClear(v) => VectorClearKeeps(w, v, w');
    case Collect(m, k, es) =>
      MapHolds(w, m);
      CollectKeeps(w.maps[m].info, MapStateOf(w, m), k, es);
      InsideMap(w, m, CollectState(w.maps[m].info, MapStateOf(w, m), k, es));
    case CollectFirstPass(m, k) =>
      MapHolds(w, m);
      CollectFirstPassKeeps(w.maps[m].info, MapStateOf(w, m), k);
      InsideMap(w, m, CollectFirstPassState(w.maps[m].info, MapStateOf(w, m), k));
    case CollectSecondPass(d) => SecondPassKeeps(w, d, w');
  }

  // ---------------------------------------------------------------------
  // What goes wrong

  /** A Set with an empty handle, about which the engine is called all the same. */
  predicate SetsEmpty(w: World, op: Op) {
    op.MapSet? && Held(w, HandleSlot(op.g)) == NULL_ADDRESS
  }

  predicate FaultsGrow(w: World, op: Op, w': World) {
    w'.heap.faults == w.heap.faults + if SetsEmpty(w, op) then 1 else 0
  }

  lemma HandleFaults(w: World, op: Op, w': World)
    requires Inv(w) && Next(w, op, w') && OnHandles(op)
    ensures w'.heap.faults == w.heap.faults
  {
    match op
    case AssignHandle(g, _) => ResetLive(w, g);
    case CopyHandle(g, src) =>
      ResetLive(w, g);
      ResetKeeps(w, g);
      CopyIsFill(Reset(w, g), g, src);
    case ResetHandle(g) => ResetLive(w, g);
    case ResetHandleTo(g, _) => ResetLive(w, g);
    case DropHandle(g) => ResetLive(w, g);
    case _ =>
  }

  lemma ResetLive(w: World, g: nat)
    requires Inv(w) && g in w.handles
    ensures Reset(w, g).heap.faults == w.heap.faults
  {
    assert w.handles[g] == Held(w, HandleSlot(g));
  }

  lemma MapFaults(w: World, op: Op, w': World)
    requires Inv(w) && Next(w, op, w') && (op.MapSet? || op.MapRemove? || op.MapClear?)
    ensures FaultsGrow(w, op, w')
  {
    match op
    case MapSet(m, k, g, r) =>
      MapSetStores(w, m, k, g, r);
      SetLater(w.maps[m].info, MapStateOf(w, m), k, w.handles[g]);
    case MapRemove(m, k, _) => ReleaseLater(w.maps[m].info, w.heap, Lookup(w.maps[m].impl, k));
    case MapClear(m, ds) => MapClearClears(w, m, ds, w');
  }

  lemma CollectorFaults(w: World, op: Op, w': World)
    requires Inv(w) && Next(w, op, w') && (op.Collect? || op.CollectFirstPass?)
    ensures w'.heap.faults == w.heap.faults
  {
    MapHolds(w, op.m);
    if op.Collect? {
      CollectKeeps(w.maps[op.m].info, MapStateOf(w, op.m), op.k, op.es);
    } else {
      CollectFirstPassKeeps(w.maps[op.m].info, MapStateOf(w, op.m), op.k);
    }
  }

  lemma StepFaults(w: World, op: Op, w': World)
    requires Inv(w) && Next(w, op, w')
    ensures FaultsGrow(w, op, w')
  {
    if OnHandles(op) {
      HandleFaults(w, op, w');
    } else if op.MapSet? || op.MapRemove? || op.MapClear? {
      MapFaults(w, op, w');
    } else if op.Collect? || op.CollectFirstPass? {
      CollectorFaults(w, op, w');
    } else if op.VectorClear? {
      VectorClearCells(w, op.v);
    }
  }

  // ---------------------------------------------------------------------
  // Runs

  ghost predicate IsRun(ws: seq<World>, ops: seq<Op>) {
    && |ws| == |ops| + 1
    && ws[0] == EMPTY_WORLD
    && forall i :: 0 <= i < |ops| ==> Next(ws[i], ops[i], ws[i + 1])
  }

  lemma {:induction false} RunKeeps(ws: seq<World>, ops: seq<Op>, n: nat)
    requires IsRun(ws, ops) && n < |ws|
    ensures Inv(ws[n])
  {
    if n > 0 {
      RunKeeps(ws, ops, n - 1);
      assert Next(ws[n - 1], ops[n - 1], ws[n]);
      StepKeeps(ws[n - 1], ops[n - 1], ws[n]);
    }
  }

  /** How many of the first `n` operations were a Set with an empty handle. */
  function EmptySets(ws: seq<World>, ops: seq<Op>, n: nat): nat
    requires n <= |ws| && n <= |ops|
  {
    if n == 0 then 0
    else EmptySets(ws, ops, n - 1) + if SetsEmpty(ws[n - 1], ops[n - 1]) then 1 else 0
  }

  /** At any point of any run, the engine was called about a cell that was not
      live exactly as often as a map was given an empty handle. */
  lemma FaultsAreEmptySets(ws: seq<World>, ops: seq<Op>, n: nat)
    requires IsRun(ws, ops) && n < |ws|
    ensures ws[n].heap.faults == EmptySets(ws, ops, n)
  {
    forall i | 0 <= i < |ops|
      ensures FaultsGrow(ws[i], ops[i], ws[i + 1])
    {
      RunFaults(ws, ops, i);
    }
    FaultsAdd(ws, ops, n);
  }

  lemma {:induction false} FaultsAdd(ws: seq<World>, ops: seq<Op>, n: nat)
    requires |ws| == |ops| + 1 && ws[0] == EMPTY_WORLD && n < |ws|
    requires forall i :: 0 <= i < |ops| ==> FaultsGrow(ws[i], ops[i], ws[i + 1])
    ensures ws[n].heap.faults == EmptySets(ws, ops, n)
  {
    if n > 0 {
      FaultsAdd(ws, ops, n - 1);
      assert FaultsGrow(ws[n - 1], ops[n - 1], ws[n - 1 + 1]);
    }
  }

  lemma RunFaults(ws: seq<World>, ops: seq<Op>, n: nat)
    requires IsRun(ws, ops) && n < |ops|
    ensures FaultsGrow(ws[n], ops[n], ws[n + 1])
  {
    RunKeeps(ws, ops, n);
    StepFaults(ws[n], ops[n], ws[n + 1]);
  }

  /** Conservation, at any point of any run: every live cell is in exactly one
      slot, every slot's cell is live, no cell was disposed twice, and cells
      created are cells live plus cells disposed; and no dead cell was ever used,
      if and only if no map was given an empty handle. */
  lemma OwnershipConserved(ws: seq<World>, ops: seq<Op>, n: nat)
    requires IsRun(ws, ops) && n < |ws|
    ensures var w := ws[n];
            && (w.heap.faults == 0 <==> EmptySets(ws, ops, n) == 0)
            && (forall a :: a in w.heap.cells ==> exists s :: Held(w, s) == a)
            && (forall s, t :: Held(w, s) == Held(w, t) != NULL_ADDRESS ==> s == t)
            && (forall s :: Held(w, s) != NULL_ADDRESS ==> Held(w, s) in w.heap.cells)
            && (forall a :: w.heap.disposed[a] <= 1 && (w.heap.disposed[a] == 1 ==> a !in w.heap.cells))
            && w.heap.next - 1 == |w.heap.cells| + |w.heap.disposed|
  {
    RunKeeps(ws, ops, n);
    FaultsAreEmptySets(ws, ops, n);
    CreatedIsLivePlusDisposed(ws[n].heap);
  }

  /** Weak-callback data, at any point of any run: no data is freed twice, and
      whatever is not yet freed is on the one weak cell it was issued for, in
      the entry it names, or with a callback under way, unless it was lost to a
      Set with an empty handle, each of which loses at most one. */
  lemma CallbackDataFreedOnce(ws: seq<World>, ops: seq<Op>, n: nat, d: CallbackData)
    requires IsRun(ws, ops) && n < |ws| && ws[n].heap.Issued(d)
    ensures var w := ws[n];
            var entry := Held(w, MapSlot(d.owner, d.key));
            var attached := entry in w.heap.cells && w.heap.cells[entry].state == Weak(d);
            && w.heap.freed[d] <= 1
            && (w.heap.freed[d] == 0 <==> attached || d in w.heap.inCallback || d in w.heap.lost)
            && !(attached && d in w.heap.inCallback)
            && (d in w.heap.lost ==> !attached && d !in w.heap.inCallback)
            && |w.heap.lost| <= EmptySets(ws, ops, n)
  {
    RunKeeps(ws, ops, n);
    FaultsAreEmptySets(ws, ops, n);
    var w := ws[n];
    var entry := Held(w, MapSlot(d.owner, d.key));
    var attached := entry in w.heap.cells && w.heap.cells[entry].state == Weak(d);
    var h := w.heap;
    assert h.AttachedTo(d, entry) <==> attached;
    if h.Attached(d) {
      var a :| h.AttachedTo(d, a);
      var s :| Held(w, s) == a;
      assert StateFits(w, s, Weak(d));
      assert s == MapSlot(d.owner, d.key);
    }
  }

  // ---------------------------------------------------------------------
  // Refinement: cells are invisible

  /** What a slot denotes: the object a Get on it would return, if any. */
  function Denotes(w: World, s: Slot): Local {
    LocalOf(w.heap, Held(w, s))
  }

  /** The object of the last entry inserted at k. */
  function LastInserted(es: seq<Entry>, k: Key): Local {
    if es == [] then Empty
    else if es[|es| - 1].0 == k then To(es[|es| - 1].1)
    else LastInserted(es[..|es| - 1], k)
  }

  lemma ResetDenotes(w: World, g: nat)
    requires Inv(w) && g in w.handles
    ensures var w' := Reset(w, g);
            && w'.heap.CellsInRange() && 1 <= w'.heap.next == w.heap.next
            && forall s :: Held(w', s) != w'.heap.next
    ensures forall s :: Denotes(Reset(w, g), s) == if s == HandleSlot(g) then Empty else Denotes(w, s)
  {
    var w' := Reset(w, g);
    assert w.handles[g] == Held(w, HandleSlot(g));
    assert forall s :: Held(w', s) == if s == HandleSlot(g) then NULL_ADDRESS else Held(w, s);
  }

  lemma FillDenotes(w: World, g: nat, local: Local)
    requires w.heap.CellsInRange() && 1 <= w.heap.next
    requires forall s :: Held(w, s) != w.heap.next
    ensures forall s :: Denotes(Fill(w, g, local), s) == if s == HandleSlot(g) then local else Denotes(w, s)
  {
    var w' := Fill(w, g, local);
    assert Held(w', HandleSlot(g)) == NewAddress(w.heap, local);
    assert forall s :: s != HandleSlot(g) ==> Held(w', s) == Held(w, s);
  }

  lemma MapSetDenotes(w: World, m: nat, k: Key, g: nat, r: nat, s': MapState, w': World)
    requires Inv(w) && m in w.maps && g in w.handles && r !in w.handles
    requires Stored(w.maps[m].info, MapStateOf(w, m), k, w.handles[g], s')
    requires w' == WithMap(w, m, s').(handles := w.handles[g := NULL_ADDRESS][r := Lookup(w.maps[m].impl, k)])
    ensures forall t ::
      Denotes(w', t) == (if t == MapSlot(m, k) then Denotes(w, HandleSlot(g))
       else if t == HandleSlot(g) then Empty
       else if t == HandleSlot(r) then Denotes(w, MapSlot(m, k))
       else Denotes(w, t))
  {
    MapSetHeld(w, m, k, g, r, s', w');
    assert forall a :: LocalOf(w'.heap, a) == LocalOf(w.heap, a);
  }

  lemma MapRemoveDenotes(w: World, m: nat, k: Key, r: nat, s': MapState, w': World)
    requires Inv(w) && m in w.maps && r !in w.handles
    requires Removed(w.maps[m].info, MapStateOf(w, m), k, s')
    requires w' == WithMap(w, m, s').(handles := w.handles[r := Lookup(w.maps[m].impl, k)])
    ensures forall t ::
      Denotes(w', t) == (if t == MapSlot(m, k) then Empty
       else if t == HandleSlot(r) then Denotes(w, MapSlot(m, k))
       else Denotes(w, t))
  {
    MapRemoveHeld(w, m, k, r, s', w');
    assert forall a :: LocalOf(w'.heap, a) == LocalOf(w.heap, a);
  }

  lemma SetDenotes(w: World, m: nat, k: Key, g: nat, r: nat, w': World)
    requires Inv(w) && Next(w, MapSet(m, k, g, r), w')
    ensures forall t ::
      Denotes(w', t) == (if t == MapSlot(m, k) then Denotes(w, HandleSlot(g))
       else if t == HandleSlot(g) then Empty
       else if t == HandleSlot(r) then Denotes(w, MapSlot(m, k))
       else Denotes(w, t))
  {
    MapSetStores(w, m, k, g, r);
    MapSetDenotes(w, m, k, g, r, SetState(w.maps[m].info, MapStateOf(w, m), k, w.handles[g]), w');
  }

  lemma RemoveDenotes(w: World, m: nat, k: Key, r: nat, w': World)
    requires Inv(w) && Next(w, MapRemove(m, k, r), w')
    ensures forall t ::
      Denotes(w', t) == (if t == MapSlot(m, k) then Empty
       else if t == HandleSlot(r) then Denotes(w, MapSlot(m, k))
       else Denotes(w, t))
  {
    MapHolds(w, m);
    RemoveCells(w.maps[m].info, MapStateOf(w, m), k);
    MapRemoveDenotes(w, m, k, r, RemoveState(w.maps[m].info, MapStateOf(w, m), k), w');
  }

  lemma MapClearDenotes(w: World, m: nat, w': World)
    requires Inv(w) && m in w.maps && Cleared(w, m, w')
    ensures forall s :: Denotes(w', s) == if OfMap(s, m) then Empty else Denotes(w, s)
  {
    var s' := MapState(w'.heap, map[]);
    assert Others(s') == w'.heap.cells;
    OutsideSlots(w, m, s');
  }

  lemma VectorClearDenotes(w: World, v: nat, w': World)
    requires Inv(w) && v in w.vectors && w' == VectorClearWorld(w, v)
    ensures forall s :: Denotes(w', s) == if OfVector(s, v) then Empty else Denotes(w, s)
  {
    VectorClearCells(w, v);
    VectorClearHeld(w, v, w');
  }

  lemma InsertDenotes(info: MapInfo, s: MapState, e: Entry, k: Key)
    requires s.heap.Valid() && Holds(info, s)
    requires InsertState(info, s, e).heap.CellsInRange()
    ensures var s' := InsertState(info, s, e);
            LocalOf(s'.heap, Lookup(s'.impl, k)) ==
              if e.0 == k then To(e.1) else LocalOf(s.heap, Lookup(s.impl, k))
  {
    InsertOthers(info, s, e);
    if k != e.0 { assert KeyKept(s, InsertState(info, s, e), k); }
  }

  lemma {:induction false} InsertAllDenotes(info: MapInfo, s: MapState, es: seq<Entry>, k: Key)
    requires s.heap.Valid() && Holds(info, s)
    ensures var s' := InsertAll(info, s, es);
            LocalOf(s'.heap, Lookup(s'.impl, k)) ==
              if LastInserted(es, k).To? then LastInserted(es, k)
              else LocalOf(s.heap, Lookup(s.impl, k))
  {
    if es != [] {
      var init, last := es[..|es| - 1], es[|es| - 1];
      InsertAllDenotes(info, s, init, k);
      InsertAllKeeps(info, s, init);
      InsertAllKeeps(info, s, es);
      InsertDenotes(info, InsertAll(info, s, init), last, k);
    }
  }

  lemma CollectDenotesInside(info: MapInfo, s: MapState, key: Key, es: seq<Entry>, k: Key)
    requires s.heap.Valid() && Holds(info, s) && Collectable(info, s, key)
    requires IsWeakCell(s.heap, s.impl[key])
    ensures var s' := CollectState(info, s, key, es);
            LocalOf(s'.heap, Lookup(s'.impl, k)) ==
              if LastInserted(es, k).To? then LastInserted(es, k)
              else if k == key then Empty
              else LocalOf(s.heap, Lookup(s.impl, k))
  {
    PendingKeeps(info, s, key);
    var v := s.impl[key];
    var s1 := MapState(MarkPending(s.heap, v), s.impl - {key});
    InsertAllDenotes(info, s1, es, k);
    InsertAllKeeps(info, s1, es);
    var s2 := InsertAll(info, s1, es);
    assert v in Others(s2);
    assert k in s2.impl ==> Owned(s2.impl, s2.impl[k]);
    if k != key { assert KeyKept(s, s1, k); }
    assert s.heap.CellsInRange() && s1.heap.CellsInRange() && s2.heap.CellsInRange();
  }

  lemma CollectDenotesOutside(w: World, m: nat, s': MapState, s: Slot)
    requires Inv(w) && m in w.maps && Others(s') == Others(MapStateOf(w, m)) && s'.heap.CellsInRange()
    requires !OfMap(s, m)
    ensures Denotes(WithMap(w, m, s'), s) == Denotes(w, s)
  {
    OutsideSlots(w, m, s');
  }

  lemma CollectDenotes(w: World, m: nat, k: Key, es: seq<Entry>, w': World)
    requires Inv(w) && Next(w, Collect(m, k, es), w')
    ensures forall s ::
      Denotes(w', s) == (if OfMap(s, m) && LastInserted(es, s.k).To? then LastInserted(es, s.k)
       else if s == MapSlot(m, k) then Empty
       else Denotes(w, s))
  {
    MapHolds(w, m);
    var info, s0 := w.maps[m].info, MapStateOf(w, m);
    CollectKeeps(info, s0, k, es);
    forall s | OfMap(s, m)
      ensures Denotes(w', s) == if LastInserted(es, s.k).To? then LastInserted(es, s.k)
                                else if s.k == k then Empty else Denotes(w, s)
    {
      CollectDenotesInside(info, s0, k, es, s.k);
    }
    forall s | !OfMap(s, m)
      ensures Denotes(w', s) == Denotes(w, s)
    {
      CollectDenotesOutside(w, m, CollectState(info, s0, k, es), s);
    }
  }

  lemma CollectFirstPassDenotes(w: World, m: nat, k: Key, w': World)
    requires Inv(w) && Next(w, CollectFirstPass(m, k), w')
    ensures forall s :: Denotes(w', s) == if s == MapSlot(m, k) then Empty else Denotes(w, s)
  {
    MapHolds(w, m);
    var info, s0 := w.maps[m].info, MapStateOf(w, m);
    CollectFirstPassKeeps(info, s0, k);
    var s' := CollectFirstPassState(info, s0, k);
    OutsideSlots(w, m, s');
    forall s | OfMap(s, m) && s.k != k
      ensures Denotes(w', s) == Denotes(w, s)
    {
      assert KeyKept(s0, s', s.k);
    }
  }

  /** What a slot denotes once src has been moved to g. */
  function MovedDenotes(w: World, g: nat, src: nat, s: Slot): Local {
    if s == HandleSlot(g) then Denotes(w, HandleSlot(src))
    else if s == HandleSlot(src) then Empty
    else Denotes(w, s)
  }

  lemma MoveDenotes(w: World, g: nat, src: nat, s: Slot)
    requires src in w.handles && g != src && NULL_ADDRESS !in w.heap.cells
    ensures Denotes(Move(w, g, src), s) == MovedDenotes(w, g, src, s)
  {
  }

  lemma AssignDenotes(w: World, g: nat, src: nat, w': World)
    requires Inv(w) && Next(w, AssignHandle(g, src), w') && g != src
    ensures forall s :: Denotes(w', s) == MovedDenotes(w, g, src, s)
  {
    ResetDenotes(w, g);
    forall s
      ensures Denotes(w', s) == MovedDenotes(w, g, src, s)
    {
      MoveDenotes(Reset(w, g), g, src, s);
    }
  }

  lemma ResetToDenotes(w: World, g: nat, local: Local, w': World)
    requires Inv(w) && Next(w, ResetHandleTo(g, local), w')
    ensures forall s :: Denotes(w', s) == if s == HandleSlot(g) then local else Denotes(w, s)
  {
    ResetDenotes(w, g);
    FillDenotes(Reset(w, g), g, local);
  }

  lemma DropDenotes(w: World, g: nat, w': World)
    requires Inv(w) && Next(w, DropHandle(g), w')
    ensures forall s :: Denotes(w', s) == if s == HandleSlot(g) then Empty else Denotes(w, s)
  {
    ResetDenotes(w, g);
    assert forall s :: Held(w', s) == Held(Reset(w, g), s);
  }

  lemma CopyDenotes(w: World, g: nat, src: nat, w': World)
    requires Inv(w) && Next(w, CopyHandle(g, src), w')
    ensures forall s ::
      Denotes(w', s) == (if s != HandleSlot(g) then Denotes(w, s)
       else if g == src then Empty else Denotes(w, HandleSlot(src)))
  {
    ResetDenotes(w, g);
    var w1 := Reset(w, g);
    var local := LocalOf(w1.heap, w1.handles[src]);
    ResetKeeps(w, g);
    CopyIsFill(w1, g, src);
    assert local == Denotes(w1, HandleSlot(src));
    FillDenotes(w1, g, local);
  }

  lemma VectorAppendDenotes(w: World, v: nat, g: nat, w': World)
    requires Inv(w) && v in w.vectors && g in w.handles && w' == VectorAppendWorld(w, v, g)
    ensures forall s ::
      Denotes(w', s) == (if s == VectorSlot(v, |w.vectors[v]|) then Denotes(w, HandleSlot(g))
       else if s == HandleSlot(g) then Empty
       else Denotes(w, s))
  {
    VectorAppendHeld(w, v, g, w');
  }

  // ---------------------------------------------------------------------
  // Entries a step leaves alone

  /** Whether a step concerns the entry at k of map m. */
  ghost predicate Touches(op: Op, m: nat, k: Key) {
    match op
    case MapSet(m', k', _, _) => m' == m && k' == k
    case MapRemove(m', k', _) => m' == m && k' == k
    case MapClear(m', _) => m' == m
    case Collect(m', k', es) => m' == m && (k' == k || Inserts(es, k))
    case CollectFirstPass(m', k') => m' == m && k' == k
    case _ => false
  }

  ghost predicate EntryKept(w: World, w': World, m: nat, k: Key)
    requires m in w.maps
  {
    && m in w'.maps
    && (k in w'.maps[m].impl <==> k in w.maps[m].impl)
    && (k in w.maps[m].impl ==> w'.maps[m].impl[k] == w.maps[m].impl[k])
  }

  lemma CollectKeepsEntry(w: World, op: Op, w': World, k: Key)
    requires Inv(w) && Next(w, op, w') && op.Collect? && !Touches(op, op.m, k)
    ensures EntryKept(w, w', op.m, k)
  {
    MapHolds(w, op.m);
    CollectKeeps(w.maps[op.m].info, MapStateOf(w, op.m), op.k, op.es);
    assert KeyKept(MapStateOf(w, op.m), CollectState(w.maps[op.m].info, MapStateOf(w, op.m), op.k, op.es), k);
  }

  lemma CollectFirstPassKeepsEntry(w: World, op: Op, w': World, k: Key)
    requires Inv(w) && Next(w, op, w') && op.CollectFirstPass? && !Touches(op, op.m, k)
    ensures EntryKept(w, w', op.m, k)
  {
    MapHolds(w, op.m);
    CollectFirstPassKeeps(w.maps[op.m].info, MapStateOf(w, op.m), op.k);
  }

  lemma StepKeepsEntry(w: World, op: Op, w': World, m: nat, k: Key)
    requires Inv(w) && Next(w, op, w') && m in w.maps && !Touches(op, m, k)
    ensures EntryKept(w, w', m, k)
  {
    if op.Collect? && op.m == m {
      CollectKeepsEntry(w, op, w', k);
    } else if op.CollectFirstPass? && op.m == m {
      CollectFirstPassKeepsEntry(w, op, w', k);
    }
  }
}
