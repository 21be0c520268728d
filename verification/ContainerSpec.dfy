/** PersistentValueMap, GlobalValueMap and PersistentValueVector: containers that
    store raw cell addresses and move ownership of the cells in and out of
    handles.  Each method is proved against a function of the old heap and the
    old container; the lemmas say what those functions keep. */
module ContainerSpec {
  import opened Handles

  datatype CallbackType = NotWeak | WeakWithParameter | WeakWithInternalFields

  /** What a map's traits and identity contribute. */
  datatype MapInfo = MapInfo(owner: nat, callbackType: CallbackType)

  type Impl = map<Key, Address>

  datatype MapState = MapState(heap: Heap, impl: Impl)

  /** An entry a disposal inserts. */
  type Entry = (Key, Obj)

  // ---------------------------------------------------------------------
  // What the operations do

  function Lookup(impl: Impl, key: Key): Address {
    if key in impl then impl[key] else NULL_ADDRESS
  }

  function ReleaseHeap(info: MapInfo, h: Heap, v: Address): Heap {
    if info.callbackType != NotWeak && v != NULL_ADDRESS && IsWeakCell(h, v)
    then FreeData(MarkState(h, v, Normal), h.cells[v].state.data)
    else h
  }

  /** What SetUnique tells the engine about the cell it is about to store; an
      empty handle has none, and counts as a fault. */
  function Introduced(info: MapInfo, h: Heap, key: Key, v: Address): Heap {
    if info.callbackType == NotWeak then Annotate(h, v) else Attach(h, v, info.owner, key)
  }

  function SetState(info: MapInfo, s: MapState, key: Key, v: Address): MapState {
    MapState(ReleaseHeap(info, Introduced(info, s.heap, key, v), Lookup(s.impl, key)),
             s.impl[key := v])
  }

  function RemoveState(info: MapInfo, s: MapState, key: Key): MapState {
    MapState(ReleaseHeap(info, s.heap, Lookup(s.impl, key)), s.impl - {key})
  }

  /** Set of a new Global, dropping the Global that Set returns. */
  function InsertState(info: MapInfo, s: MapState, e: Entry): MapState {
    var s' := SetState(info, MapState(Globalize(s.heap, e.1), s.impl), e.0, s.heap.next);
    s'.(heap := ResetHeap(s'.heap, Lookup(s.impl, e.0)))
  }

  ghost predicate Inserts(es: seq<Entry>, k: Key) {
    exists i :: 0 <= i < |es| && es[i].0 == k
  }

  function InsertAll(info: MapInfo, s: MapState, es: seq<Entry>): MapState {
    if es == [] then s
    else InsertState(info, InsertAll(info, s, es[..|es| - 1]), es[|es| - 1])
  }

  /** Traits::Dispose: user code that may insert again; the value it was given
      is destroyed when it returns. */
  function DisposeState(info: MapInfo, s: MapState, v: Address, es: seq<Entry>): MapState {
    var s' := InsertAll(info, s, es);
    s'.(heap := ResetHeap(s'.heap, v))
  }

  /** PersistentValueMap::WeakCallback. */
  function WeakCallbackState(info: MapInfo, s: MapState, d: CallbackData, es: seq<Entry>): MapState {
    if info.callbackType == NotWeak then s else
    var s1 := RemoveState(info, s, d.key);
    var s2 := DisposeState(info, s1, Lookup(s.impl, d.key), es);
    s2.(heap := FreeData(s2.heap, d))
  }

  /** GlobalValueMap::OnWeakCallback, the first pass: the data stays with the
      collector until the second pass. */
  function OnWeakCallbackState(info: MapInfo, s: MapState, d: CallbackData): MapState {
    if info.callbackType == NotWeak then s else
    MapState(ResetHeap(s.heap, Lookup(s.impl, d.key)), s.impl - {d.key})
  }

  /** PersistentValueVector::Clear. */
  function DisposeSeq(h: Heap, vs: seq<Address>): Heap {
    if vs == [] then h else ResetHeap(DisposeSeq(h, vs[..|vs| - 1]), vs[|vs| - 1])
  }

  // ---------------------------------------------------------------------
  // Linear ownership by one map

  predicate Expected(info: MapInfo, key: Key, s: NodeState) {
    if info.callbackType == NotWeak then s == Normal
    else s.Weak? && s.data.owner == info.owner && s.data.key == key
  }

  ghost predicate Owned(impl: Impl, a: Address) {
    exists k :: k in impl && impl[k] == a
  }

  ghost predicate Holds(info: MapInfo, s: MapState) {
    && (forall k :: k in s.impl && s.impl[k] != NULL_ADDRESS ==>
          s.impl[k] in s.heap.cells && Expected(info, k, s.heap.cells[s.impl[k]].state))
    && Injective(s.impl)
  }

  ghost function Outside(cells: map<Address, Node>, impl: Impl): map<Address, Node> {
    map a | a in cells && !Owned(impl, a) :: cells[a]
  }

  /** The cells that are not the map's. */
  ghost function Others(s: MapState): map<Address, Node> {
    Outside(s.heap.cells, s.impl)
  }

  ghost predicate Injective(impl: Impl) {
    forall j, k :: j in impl && k in impl && impl[j] == impl[k] != NULL_ADDRESS ==> j == k
  }

  lemma OwnedAfterUpdate(impl: Impl, key: Key, v: Address)
    requires Injective(impl) && (!Owned(impl, v) || v == NULL_ADDRESS)
    ensures Owned(impl[key := v], v)
    ensures forall a :: a != v && a != NULL_ADDRESS ==>
      (Owned(impl[key := v], a) <==> Owned(impl, a) && a != Lookup(impl, key))
  {
    var impl' := impl[key := v];
    assert impl'[key] == v;
    forall a | a != v && a != NULL_ADDRESS && Owned(impl, a) && a != Lookup(impl, key)
      ensures Owned(impl', a)
    {
      var k :| k in impl && impl[k] == a;
      assert k in impl' && impl'[k] == a;
    }
    forall a | a != v && a != NULL_ADDRESS && Owned(impl', a)
      ensures Owned(impl, a) && a != Lookup(impl, key)
    {
      var k :| k in impl' && impl'[k] == a;
      assert k in impl && impl[k] == a;
    }
  }

  lemma OwnedAfterRemove(impl: Impl, key: Key)
    requires Injective(impl)
    ensures forall a :: a != NULL_ADDRESS ==>
      (Owned(impl - {key}, a) <==> Owned(impl, a) && a != Lookup(impl, key))
  {
    var impl' := impl - {key};
    forall a | a != NULL_ADDRESS && Owned(impl, a) && a != Lookup(impl, key)
      ensures Owned(impl', a)
    {
      var k :| k in impl && impl[k] == a;
      assert k in impl' && impl'[k] == a;
    }
  }

  // The lemmas below come in pairs: one about cells and ownership, one about
  // the engine's accounts.

  lemma IntroducedCells(info: MapInfo, h: Heap, key: Key, v: Address)
    ensures var h' := Introduced(info, h, key, v);
            && h'.cells.Keys == h.cells.Keys
            && (forall a :: a in h.cells ==> h'.cells[a].obj == h.cells[a].obj)
            && (forall a :: a in h.cells && a != v ==> h'.cells[a] == h.cells[a])
            && (v in h.cells && h.cells[v].state == Normal ==> Expected(info, key, h'.cells[v].state))
  {
  }

  /** Storing a cell that nothing in the map holds yet: the map owns it, the
      displaced cell is an ordinary strong cell again, and nothing else changes. */
  lemma SetCells(info: MapInfo, s: MapState, key: Key, v: Address)
    requires Holds(info, s) && Storable(s, v)
    ensures Stored(info, s, key, v, SetState(info, s, key, v))
  {
    IntroducedCells(info, s.heap, key, v);
    var previous := Lookup(s.impl, key);
    assert previous != NULL_ADDRESS ==> Owned(s.impl, previous);
    forall j | j in s.impl && j != key && s.impl[j] != NULL_ADDRESS
      ensures s.impl[j] != v && s.impl[j] != previous
    {
      assert Owned(s.impl, s.impl[j]);
    }
  }

  ghost predicate Stored(info: MapInfo, s: MapState, key: Key, v: Address, s': MapState) {
    var previous := Lookup(s.impl, key);
    && Holds(info, s')
    && s'.impl == s.impl[key := v]
    && s'.heap.cells.Keys == s.heap.cells.Keys
    && (forall a :: a in s.heap.cells ==> s'.heap.cells[a].obj == s.heap.cells[a].obj)
    && (forall a :: a in s.heap.cells && a != v && a != previous ==> s'.heap.cells[a] == s.heap.cells[a])
    && (previous != NULL_ADDRESS ==>
          previous in s.heap.cells && s'.heap.cells[previous].state == Normal)
  }

  /** What a handle that is not the map's may hold: no cell, or one that is live,
      strong and not in the map. */
  ghost predicate Storable(s: MapState, v: Address) {
    v != NULL_ADDRESS ==> !Owned(s.impl, v) && v in s.heap.cells && s.heap.cells[v].state == Normal
  }

  /** A later heap with its accounts in order. */
  ghost predicate Later(h: Heap, h': Heap) {
    && h'.Valid()
    && h.next <= h'.next
    && h.issued <= h'.issued
    && h.inCallback == h'.inCallback
    && h.lost == h'.lost
    && h.faults == h'.faults
  }

  lemma ReleaseLater(info: MapInfo, h: Heap, v: Address)
    requires h.Valid()
    ensures Later(h, ReleaseHeap(info, h, v))
  {
    if IsWeakCell(h, v) {
      ReleaseWeakKeepsValid(h, v);
      assert h.AttachedTo(h.cells[v].state.data, v);
    }
  }

  /** Storing keeps the accounts; an empty handle is the one thing to go wrong. */
  lemma SetLater(info: MapInfo, s: MapState, key: Key, v: Address)
    requires s.heap.Valid() && Storable(s, v)
    ensures var h := SetState(info, s, key, v).heap;
            && h.Valid() && h.next == s.heap.next
            && h.faults == s.heap.faults + (if v == NULL_ADDRESS then 1 else 0)
            && (v != NULL_ADDRESS ==> Later(s.heap, h))
  {
    if v == NULL_ADDRESS && info.callbackType == NotWeak {
      FaultKeepsValid(s.heap);
    } else if v == NULL_ADDRESS {
      AttachNowhereKeepsValid(s.heap, v, info.owner, key);
    } else if info.callbackType != NotWeak {
      AttachKeepsValid(s.heap, v, info.owner, key);
    }
    ReleaseLater(info, Introduced(info, s.heap, key, v), Lookup(s.impl, key));
  }

  ghost predicate KeyKept(s: MapState, s': MapState, k: Key) {
    && (k in s'.impl <==> k in s.impl)
    && (k in s.impl ==>
          && s'.impl[k] == s.impl[k]
          && LocalOf(s'.heap, s'.impl[k]) == LocalOf(s.heap, s.impl[k]))
  }

  lemma InsertCells(info: MapInfo, s: MapState, e: Entry)
    requires Holds(info, s) && s.heap.CellsInRange() && 1 <= s.heap.next
    ensures var s' := InsertState(info, s, e);
            var v, previous := s.heap.next, Lookup(s.impl, e.0);
            && Holds(info, s')
            && s'.heap.cells.Keys == s.heap.cells.Keys + {v} - {previous}
            && s'.heap.cells[v].obj == e.1
            && (forall a :: a in s.heap.cells && a != previous ==>
                  s'.heap.cells[a].obj == s.heap.cells[a].obj
                  && (!Owned(s.impl, a) ==> s'.heap.cells[a] == s.heap.cells[a]))
  {
    var v := s.heap.next;
    var s0 := MapState(Globalize(s.heap, e.1), s.impl);
    assert Holds(info, s0);
    assert !Owned(s.impl, v);
    SetCells(info, s0, e.0, v);
    var s1 := SetState(info, s0, e.0, v);
    var previous := Lookup(s.impl, e.0);
    forall k | k in s1.impl && s1.impl[k] != NULL_ADDRESS
      ensures s1.impl[k] != previous
    {}
  }

  lemma InsertLater(info: MapInfo, s: MapState, e: Entry)
    requires s.heap.Valid() && Holds(info, s)
    ensures Later(s.heap, InsertState(info, s, e).heap)
  {
    var s0 := MapState(Globalize(s.heap, e.1), s.impl);
    GlobalizeKeepsValid(s.heap, e.1);
    assert !Owned(s.impl, s.heap.next);
    SetLater(info, s0, e.0, s.heap.next);
    var previous := Lookup(s.impl, e.0);
    if previous != NULL_ADDRESS {
      assert Holds(info, s0);
      SetCells(info, s0, e.0, s.heap.next);
      DisposeKeepsValid(SetState(info, s0, e.0, s.heap.next).heap, previous);
    }
  }

  lemma InsertOthers(info: MapInfo, s: MapState, e: Entry)
    requires Holds(info, s) && s.heap.CellsInRange() && 1 <= s.heap.next
    ensures var s' := InsertState(info, s, e);
            && Holds(info, s')
            && Others(s') == Others(s)
            && LocalOf(s'.heap, Lookup(s'.impl, e.0)) == To(e.1)
            && (forall k :: k != e.0 ==> KeyKept(s, s', k))
  {
    InsertCells(info, s, e);
    assert !Owned(s.impl, s.heap.next);
    OwnedAfterUpdate(s.impl, e.0, s.heap.next);
    var s' := InsertState(info, s, e);
    var previous := Lookup(s.impl, e.0);
    assert previous != NULL_ADDRESS ==> Owned(s.impl, previous);
    assert forall a :: a in Others(s') <==> a in Others(s);
    forall k | k != e.0
      ensures KeyKept(s, s', k)
    {
      assert k in s.impl && s.impl[k] != NULL_ADDRESS ==> s.impl[k] != previous;
    }
  }

  lemma {:induction false} InsertAllKeeps(info: MapInfo, s: MapState, es: seq<Entry>)
    requires s.heap.Valid() && Holds(info, s)
    ensures var s' := InsertAll(info, s, es);
            && Later(s.heap, s'.heap) && Holds(info, s')
            && Others(s') == Others(s)
            && (forall k :: !Inserts(es, k) ==> KeyKept(s, s', k))
  {
    if es != [] {
      var init, last := es[..|es| - 1], es[|es| - 1];
      InsertAllKeeps(info, s, init);
      InsertLater(info, InsertAll(info, s, init), last);
      InsertOthers(info, InsertAll(info, s, init), last);
      KeepMore(s, InsertAll(info, s, init), InsertAll(info, s, es), es);
    }
  }

  lemma KeepMore(s: MapState, s1: MapState, s2: MapState, es: seq<Entry>)
    requires es != []
    requires forall k :: !Inserts(es[..|es| - 1], k) ==> KeyKept(s, s1, k)
    requires forall k :: k != es[|es| - 1].0 ==> KeyKept(s1, s2, k)
    ensures forall k :: !Inserts(es, k) ==> KeyKept(s, s2, k)
  {
    forall k | !Inserts(es, k)
      ensures KeyKept(s, s2, k)
    {
      assert !Inserts(es[..|es| - 1], k) && k != es[|es| - 1].0;
      assert KeyKept(s, s1, k) && KeyKept(s1, s2, k);
    }
  }

  /** A released cell is an ordinary strong cell that nobody else holds. */
  lemma RemoveCells(info: MapInfo, s: MapState, key: Key)
    requires Holds(info, s)
    ensures Removed(info, s, key, RemoveState(info, s, key))
  {
    OwnedAfterRemove(s.impl, key);
    var s' := RemoveState(info, s, key);
    assert forall j :: j in s'.impl ==> s'.impl[j] == s.impl[j];
  }

  ghost predicate Removed(info: MapInfo, s: MapState, key: Key, s': MapState) {
    var v := Lookup(s.impl, key);
    && Holds(info, s')
    && s'.impl == s.impl - {key}
    && s'.heap.cells.Keys == s.heap.cells.Keys
    && (forall a :: a in s.heap.cells ==> s'.heap.cells[a].obj == s.heap.cells[a].obj)
    && (forall a :: a in s.heap.cells && a != v ==> s'.heap.cells[a] == s.heap.cells[a])
    && (v != NULL_ADDRESS ==>
          v in s.heap.cells && s'.heap.cells[v].state == Normal && !Owned(s'.impl, v))
  }

  /** Traits::Dispose of a cell the map does not hold. */
  lemma DisposeKeeps(info: MapInfo, s: MapState, v: Address, es: seq<Entry>)
    requires s.heap.Valid() && Holds(info, s)
    requires v != NULL_ADDRESS ==> v in Others(s) && !s.heap.cells[v].state.Weak?
    ensures var s' := DisposeState(info, s, v, es);
            && Later(s.heap, s'.heap) && Holds(info, s')
            && Others(s') == Others(s) - {v}
            && (forall k :: !Inserts(es, k) ==> KeyKept(s, s', k))
  {
    InsertAllKeeps(info, s, es);
    var s1 := InsertAll(info, s, es);
    if v == NULL_ADDRESS {
      assert v !in Others(s) by { assert s.heap.CellsInRange(); }
    } else {
      DisposeLast(info, s, s1, v, es);
    }
  }

  lemma DisposeLast(info: MapInfo, s: MapState, s1: MapState, v: Address, es: seq<Entry>)
    requires s1.heap.Valid() && Holds(info, s1) && Others(s1) == Others(s)
    requires v in Others(s) && !s.heap.cells[v].state.Weak?
    requires forall k :: !Inserts(es, k) ==> KeyKept(s, s1, k)
    ensures var s' := s1.(heap := Dispose(s1.heap, v));
            && Later(s1.heap, s'.heap) && Holds(info, s')
            && Others(s') == Others(s) - {v}
            && (forall k :: !Inserts(es, k) ==> KeyKept(s, s', k))
  {
    assert v in Others(s1) && Others(s1)[v] == Others(s)[v];
    DisposeKeepsValid(s1.heap, v);
    DisposeOutside(info, s1, v);
    var s' := s1.(heap := Dispose(s1.heap, v));
    forall k | !Inserts(es, k)
      ensures KeyKept(s, s', k)
    {
      assert KeyKept(s, s1, k) && KeyKept(s1, s', k);
    }
  }

  lemma DisposeOutside(info: MapInfo, s: MapState, v: Address)
    requires Holds(info, s) && v in s.heap.cells && !Owned(s.impl, v)
    ensures var s' := s.(heap := Dispose(s.heap, v));
            && Holds(info, s') && Others(s') == Others(s) - {v}
            && forall k :: KeyKept(s, s', k)
  {
    forall k | k in s.impl
      ensures s.impl[k] != v
    {
      assert Owned(s.impl, s.impl[k]);
    }
  }

  /** The collector takes the weak cell stored at `key` and runs
      PersistentValueMap's callback on it, in one step. */
  function CollectState(info: MapInfo, s: MapState, key: Key, es: seq<Entry>): MapState
    requires key in s.impl && IsWeakCell(s.heap, s.impl[key])
  {
    var v := s.impl[key];
    WeakCallbackState(info, MapState(MarkPending(s.heap, v), s.impl), s.heap.cells[v].state.data, es)
  }

  function CollectFirstPassState(info: MapInfo, s: MapState, key: Key): MapState
    requires key in s.impl && IsWeakCell(s.heap, s.impl[key])
  {
    var v := s.impl[key];
    OnWeakCallbackState(info, MapState(MarkPending(s.heap, v), s.impl), s.heap.cells[v].state.data)
  }

  ghost predicate Collectable(info: MapInfo, s: MapState, key: Key) {
    info.callbackType != NotWeak && key in s.impl && s.impl[key] != NULL_ADDRESS
  }

  /** Marking an entry pending and taking it out of the map. */
  lemma PendingCells(info: MapInfo, s: MapState, key: Key)
    requires Holds(info, s) && s.heap.CellsInRange() && Collectable(info, s, key)
    ensures var v := s.impl[key];
            && IsWeakCell(s.heap, v) && s.heap.cells[v].state.data.key == key
            && var s1 := MapState(MarkPending(s.heap, v), s.impl - {key});
            && Holds(info, s1)
            && !Owned(s1.impl, v)
            && Others(s1) == Others(s)[v := Node(s.heap.cells[v].obj, Pending)]
            && v !in Others(s)
            && (forall k :: k != key ==> KeyKept(s, s1, k))
  {
    OwnedAfterRemove(s.impl, key);
    assert Owned(s.impl, s.impl[key]);
  }

  /** A collected entry loses its cell, and its data is freed: once, by the
      callback, because the pending cell makes Release leave the data alone. */
  lemma CollectKeeps(info: MapInfo, s: MapState, key: Key, es: seq<Entry>)
    requires s.heap.Valid() && Holds(info, s) && Collectable(info, s, key)
    ensures IsWeakCell(s.heap, s.impl[key])
    ensures var s' := CollectState(info, s, key, es);
            && Later(s.heap, s'.heap) && Holds(info, s')
            && Others(s') == Others(s)
            && s'.heap.freed[s.heap.cells[s.impl[key]].state.data] == 1
            && (forall k :: k != key && !Inserts(es, k) ==> KeyKept(s, s', k))
  {
    PendingKeeps(info, s, key);
    var v := s.impl[key];
    var d := s.heap.cells[v].state.data;
    var s1 := MapState(MarkPending(s.heap, v), s.impl - {key});
    DisposeKeeps(info, s1, v, es);
    var s2 := DisposeState(info, s1, v, es);
    CollectLast(info, s, s1, s2, d, key, es);
  }

  lemma PendingKeeps(info: MapInfo, s: MapState, key: Key)
    requires s.heap.Valid() && Holds(info, s) && Collectable(info, s, key)
    ensures var v := s.impl[key];
            && IsWeakCell(s.heap, v) && s.heap.cells[v].state.data.key == key
            && var d := s.heap.cells[v].state.data;
            var s1 := MapState(MarkPending(s.heap, v), s.impl - {key});
            && s1.heap.Valid() && Holds(info, s1)
            && RemoveState(info, MapState(s1.heap, s.impl), key) == s1
            && v in Others(s1) && s1.heap.cells[v].state == Pending
            && Others(s1) - {v} == Others(s)
            && s1.heap.inCallback == s.heap.inCallback + {d}
            && d !in s.heap.inCallback
            && (forall k :: k != key ==> KeyKept(s, s1, k))
  {
    PendingCells(info, s, key);
    var v := s.impl[key];
    MarkPendingKeepsValid(s.heap, v);
    assert s.heap.AttachedTo(s.heap.cells[v].state.data, v);
  }

  lemma CollectLast(info: MapInfo, s: MapState, s1: MapState, s2: MapState,
                    d: CallbackData, key: Key, es: seq<Entry>)
    requires s2.heap.Valid() && d in s2.heap.inCallback && d !in s.heap.inCallback
    requires Holds(info, s2)
    requires forall k :: k != key ==> KeyKept(s, s1, k)
    requires forall k :: !Inserts(es, k) ==> KeyKept(s1, s2, k)
    ensures var s' := s2.(heap := FreeData(s2.heap, d));
            && s'.heap.Valid() && s'.heap.freed[d] == 1 && Holds(info, s')
            && Others(s') == Others(s2)
            && s'.heap.inCallback == s2.heap.inCallback - {d}
            && (forall k :: k != key && !Inserts(es, k) ==> KeyKept(s, s', k))
  {
    FreeInCallbackKeepsValid(s2.heap, d);
    var s' := s2.(heap := FreeData(s2.heap, d));
    forall k | k != key && !Inserts(es, k)
      ensures KeyKept(s, s', k)
    {
      assert KeyKept(s, s1, k) && KeyKept(s1, s2, k);
    }
  }

  lemma CollectFirstPassKeeps(info: MapInfo, s: MapState, key: Key)
    requires s.heap.Valid() && Holds(info, s) && Collectable(info, s, key)
    ensures IsWeakCell(s.heap, s.impl[key])
    ensures var s' := CollectFirstPassState(info, s, key);
            && s'.heap.Valid() && Holds(info, s')
            && Others(s') == Others(s)
            && s'.impl == s.impl - {key}
            && s'.heap.inCallback == s.heap.inCallback + {s.heap.cells[s.impl[key]].state.data}
            && s'.heap.next == s.heap.next && s'.heap.issued == s.heap.issued
            && (forall k :: k != key ==> KeyKept(s, s', k))
  {
    PendingCells(info, s, key);
    var v := s.impl[key];
    MarkPendingKeepsValid(s.heap, v);
    var s1 := MapState(MarkPending(s.heap, v), s.impl - {key});
    DisposeKeepsValid(s1.heap, v);
    DisposeOutside(info, s1, v);
    var s' := CollectFirstPassState(info, s, key);
    assert s' == MapState(Dispose(s1.heap, v), s1.impl);
    forall k | k != key
      ensures KeyKept(s, s', k)
    {
      assert KeyKept(s, s1, k) && KeyKept(s1, s', k);
    }
  }

  /** Destroying the handles of a vector. */
  lemma {:induction false} DisposeSeqKeeps(h: Heap, vs: seq<Address>)
    requires h.Valid()
    requires forall i :: 0 <= i < |vs| && vs[i] != NULL_ADDRESS ==>
      vs[i] in h.cells && !IsWeakCell(h, vs[i])
    requires forall i, j :: 0 <= i < j < |vs| && vs[i] == vs[j] ==> vs[i] == NULL_ADDRESS
    ensures var h' := DisposeSeq(h, vs);
            && Later(h, h')
            && h'.cells == map a | a in h.cells && a !in vs :: h.cells[a]
  {
    if vs != [] {
      var init, v := vs[..|vs| - 1], vs[|vs| - 1];
      assert vs == init + [v];
      DisposeSeqKeeps(h, init);
      assert v != NULL_ADDRESS ==> v !in init;
      if v != NULL_ADDRESS {
        DisposeKeepsValid(DisposeSeq(h, init), v);
      }
    }
  }

  // ---------------------------------------------------------------------
  // Disposal that inserts again

  /** What user code inserts when it is asked to dispose of an entry; it may
      depend on how many entries were disposed of before. */
  type DisposeScript = (nat, Key, Local) -> seq<Entry>

  /** How much an entry may still bring about, after so many disposals; negative
      for an entry that has no rank. */
  type Ranking = (nat, Key, Local) -> int

  /** What has a rank keeps one that does not grow as disposals go by, and what
      its disposal inserts ranks below it. */
  ghost predicate Decreasing(script: DisposeScript, rank: Ranking) {
    && (forall m: nat, n: nat, k, l :: m <= n && 0 <= rank(m, k, l) ==> 0 <= rank(n, k, l) <= rank(m, k, l))
    && (forall n: nat, k, l, i :: 0 <= i < |script(n, k, l)| && 0 <= rank(n, k, l) ==>
          0 <= rank(n + 1, script(n, k, l)[i].0, To(script(n, k, l)[i].1)) < rank(n, k, l))
  }

  ghost predicate HasRanks(rank: Ranking, n: nat, s: MapState) {
    forall k :: k in s.impl ==> 0 <= rank(n, k, LocalOf(s.heap, s.impl[k]))
  }

  /** A script that at some point stops inserting is decreasing, whatever keys
      and objects it puts back until then. */
  lemma StoppingScriptDecreases(script: DisposeScript, stop: nat)
    requires forall n: nat, k, l :: stop <= n ==> script(n, k, l) == []
    ensures Decreasing(script, (n: nat, k: Key, l: Local) => if n < stop then stop - n else 0)
  {
    var rank: Ranking := (n: nat, k: Key, l: Local) => if n < stop then stop - n else 0;
    forall n: nat, k, l, i | 0 <= i < |script(n, k, l)|
      ensures rank(n + 1, script(n, k, l)[i].0, To(script(n, k, l)[i].1)) < rank(n, k, l)
    {
      assert n < stop;
    }
  }

  ghost predicate RankBelow(rank: Ranking, n: nat, s: MapState, b: int) {
    forall k :: k in s.impl ==> 0 <= rank(n, k, LocalOf(s.heap, s.impl[k])) < b
  }

  lemma SomeKey(keys: set<Key>)
    ensures keys != {} ==> exists k :: k in keys
  {
    if forall k :: k !in keys { assert keys == {}; }
  }

  lemma {:induction false} RankBound(rank: Ranking, n: nat, s: MapState) returns (b: nat)
    requires HasRanks(rank, n, s)
    ensures RankBelow(rank, n, s, b)
    decreases |s.impl|
  {
    if s.impl == map[] { return 0; }
    SomeKey(s.impl.Keys);
    var k :| k in s.impl.Keys;
    var rest := s.(impl := s.impl - {k});
    var b' := RankBound(rank, n, rest);
    var r := rank(n, k, LocalOf(s.heap, s.impl[k]));
    b := if b' <= r then r + 1 else b';
    forall j | j in s.impl
      ensures 0 <= rank(n, j, LocalOf(s.heap, s.impl[j])) < b
    {
      assert j == k || (j in rest.impl && rest.impl[j] == s.impl[j]);
    }
  }

  lemma {:induction false} InsertAllRank(info: MapInfo, rank: Ranking, n: nat, s: MapState, es: seq<Entry>, b: int)
    requires s.heap.Valid() && Holds(info, s)
    requires RankBelow(rank, n, s, b)
    requires forall i :: 0 <= i < |es| ==> 0 <= rank(n, es[i].0, To(es[i].1)) < b
    ensures RankBelow(rank, n, InsertAll(info, s, es), b)
  {
    if es != [] {
      var init, last := es[..|es| - 1], es[|es| - 1];
      InsertAllRank(info, rank, n, s, init, b);
      InsertAllKeeps(info, s, init);
      var s1 := InsertAll(info, s, init);
      InsertOthers(info, s1, last);
      var s2 := InsertAll(info, s, es);
      forall k | k in s2.impl
        ensures 0 <= rank(n, k, LocalOf(s2.heap, s2.impl[k])) < b
      {
        if k != last.0 { assert k in s1.impl && KeyKept(s1, s2, k); }
      }
    }
  }

  /** One iteration of the inner loop of Clear: the entry at `key` of the map
      swapped out is released and handed to Traits::Dispose. */
  function DrainState(info: MapInfo, s: MapState, work: Impl, key: Key, es: seq<Entry>): MapState
    requires key in work
  {
    DisposeState(info, s.(heap := ReleaseHeap(info, s.heap, work[key])), work[key], es)
  }

  /** The map swapped out and the map being refilled own different cells. */
  ghost predicate Draining(info: MapInfo, s: MapState, work: Impl) {
    && s.heap.Valid() && Holds(info, s)
    && Holds(info, MapState(s.heap, work))
    && forall k :: k in work && work[k] != NULL_ADDRESS ==> !Owned(s.impl, work[k])
  }

  lemma ReleaseWork(info: MapInfo, s: MapState, work: Impl, key: Key)
    requires Draining(info, s, work) && key in work
    ensures var s1 := s.(heap := ReleaseHeap(info, s.heap, work[key]));
            && Later(s.heap, s1.heap) && Holds(info, s1)
            && Holds(info, MapState(s1.heap, work - {key}))
            && (work[key] != NULL_ADDRESS ==>
                  work[key] in Others(s1) && s1.heap.cells[work[key]].state == Normal)
            && Others(s1) - {work[key]} == Others(s) - {work[key]}
            && (forall a :: LocalOf(s1.heap, a) == LocalOf(s.heap, a))
  {
    ReleaseLater(info, s.heap, work[key]);
    RemoveCells(info, MapState(s.heap, work), key);
    forall k | k in s.impl && s.impl[k] != NULL_ADDRESS
      ensures s.impl[k] != work[key]
    {
      assert Owned(s.impl, s.impl[k]);
    }
  }

  lemma DrainKeeps(info: MapInfo, s: MapState, work: Impl, key: Key, es: seq<Entry>)
    requires Draining(info, s, work) && key in work
    ensures var s' := DrainState(info, s, work, key, es);
            && Later(s.heap, s'.heap)
            && Draining(info, s', work - {key})
            && Outside(Others(s'), work - {key}) == Outside(Others(s), work)
            && (forall k :: k in work && k != key ==> LocalOf(s'.heap, work[k]) == LocalOf(s.heap, work[k]))
  {
    var s1 := s.(heap := ReleaseHeap(info, s.heap, work[key]));
    ReleaseWork(info, s, work, key);
    DisposeKeeps(info, s1, work[key], es);
    var s' := DrainState(info, s, work, key, es);
    OwnedAfterRemove(work, key);
    DrainRest(info, s, s', work, key);
  }

  lemma DrainRest(info: MapInfo, s: MapState, s': MapState, work: Impl, key: Key)
    requires key in work && s.heap.CellsInRange() && s'.heap.CellsInRange()
    requires Holds(info, MapState(s.heap, work)) && Holds(info, s')
    requires forall k :: k in work && work[k] != NULL_ADDRESS ==> !Owned(s.impl, work[k])
    requires Others(s') == Others(s) - {work[key]}
    ensures Holds(info, MapState(s'.heap, work - {key}))
    ensures forall k :: k in work && k != key && work[k] != NULL_ADDRESS ==> !Owned(s'.impl, work[k])
    ensures Outside(Others(s'), work - {key}) == Outside(Others(s), work)
    ensures forall k :: k in work && k != key ==> LocalOf(s'.heap, work[k]) == LocalOf(s.heap, work[k])
  {
    OwnedAfterRemove(work, key);
    forall k | k in work && k != key && work[k] != NULL_ADDRESS
      ensures work[k] in Others(s') && s'.heap.cells[work[k]] == s.heap.cells[work[k]]
    {
      assert work[k] in Others(s);
      assert Others(s')[work[k]] == Others(s)[work[k]];
    }
    forall a
      ensures a in Outside(Others(s'), work - {key}) <==> a in Outside(Others(s), work)
    {
      if a == work[key] && a != NULL_ADDRESS { assert Owned(work, a); }
    }
  }

  lemma DrainRank(info: MapInfo, rank: Ranking, n: nat, s: MapState, work: Impl, key: Key, es: seq<Entry>, b: int)
    requires Draining(info, s, work) && key in work
    requires RankBelow(rank, n, s, b)
    requires forall i :: 0 <= i < |es| ==> 0 <= rank(n, es[i].0, To(es[i].1)) < b
    ensures RankBelow(rank, n, DrainState(info, s, work, key, es), b)
  {
    var s1 := s.(heap := ReleaseHeap(info, s.heap, work[key]));
    ReleaseWork(info, s, work, key);
    InsertAllRank(info, rank, n, s1, es, b);
    InsertAllKeeps(info, s1, es);
    var s2, v := InsertAll(info, s1, es), work[key];
    assert v != NULL_ADDRESS ==> v in Others(s2);
    assert DrainState(info, s, work, key, es) == s2.(heap := ResetHeap(s2.heap, v));
    ResetRank(rank, n, s2, v, b);
  }

  lemma ResetRank(rank: Ranking, n: nat, s: MapState, v: Address, b: int)
    requires RankBelow(rank, n, s, b) && (v == NULL_ADDRESS || !Owned(s.impl, v))
    ensures RankBelow(rank, n, s.(heap := ResetHeap(s.heap, v)), b)
  {
    assert forall k :: k in s.impl ==> Owned(s.impl, s.impl[k]);
    assert forall a :: a != v ==> LocalOf(ResetHeap(s.heap, v), a) == LocalOf(s.heap, a);
  }

  /** Clear on its way: what the map holds again, and what was swapped out of it
      and is not yet drained. */
  datatype Stage = Stage(state: MapState, work: Impl)

  /** A drained entry, its object, and what its disposal inserts. */
  datatype Drain = Drain(key: Key, local: Local, es: seq<Entry>)

  /** The swap at the start of each round. */
  function Swapped(g: Stage): Stage {
    if g.work == map[] then Stage(MapState(g.state.heap, map[]), g.state.impl) else g
  }

  function DrainNext(info: MapInfo, g: Stage, d: Drain): Stage
    requires d.key in g.work
  {
    Swapped(Stage(DrainState(info, g.state, g.work, d.key, d.es), g.work - {d.key}))
  }

  predicate Drainable(g: Stage, d: Drain) {
    d.key in g.work && d.local == LocalOf(g.state.heap, g.work[d.key])
  }

  /** Draining the entries `ds` one after the other leads from one stage to another. */
  predicate Drains(info: MapInfo, g: Stage, ds: seq<Drain>, g': Stage)
    decreases |ds|
  {
    if ds == [] then g' == g
    else Drainable(g, ds[0]) && Drains(info, DrainNext(info, g, ds[0]), ds[1..], g')
  }

  /** The disposals insert what the script says, `n` of them having gone before. */
  predicate Scripted(script: DisposeScript, n: nat, ds: seq<Drain>) {
    forall i :: 0 <= i < |ds| ==> ds[i].es == script(n + i, ds[i].key, ds[i].local)
  }

  /** PersistentValueMapBase::Clear: drains until there is nothing left to swap out. */
  predicate Clears(info: MapInfo, s: MapState, ds: seq<Drain>, s': MapState) {
    s'.impl == map[] && Drains(info, Swapped(Stage(s, map[])), ds, Stage(s', map[]))
  }

  lemma {:induction false} DrainsAppend(info: MapInfo, g: Stage, ds: seq<Drain>, g': Stage, d: Drain)
    requires Drains(info, g, ds, g') && Drainable(g', d)
    ensures Drains(info, g, ds + [d], DrainNext(info, g', d))
    decreases |ds|
  {
    if ds == [] {
      assert [d][1..] == [];
    } else {
      DrainsAppend(info, DrainNext(info, g, ds[0]), ds[1..], g', d);
      assert (ds + [d])[1..] == ds[1..] + [d];
    }
  }

  /** What lies between two stages of Clear: the accounts are in order, and the
      cells that were never the map's are as they were. */
  ghost predicate Kept(info: MapInfo, g: Stage, g': Stage) {
    && Later(g.state.heap, g'.state.heap)
    && Draining(info, g'.state, g'.work)
    && Outside(Others(g'.state), g'.work) == Outside(Others(g.state), g.work)
  }

  lemma SwapKeeps(info: MapInfo, g: Stage)
    requires Draining(info, g.state, g.work)
    ensures Kept(info, g, Swapped(g))
  {
    if g.work == map[] {
      assert Outside(g.state.heap.cells, map[]) == g.state.heap.cells;
      assert Outside(Others(g.state), map[]) == Others(g.state);
    }
  }

  lemma {:induction false} DrainsKeep(info: MapInfo, g: Stage, ds: seq<Drain>, g': Stage)
    requires Draining(info, g.state, g.work) && Drains(info, g, ds, g')
    ensures Kept(info, g, g')
    decreases |ds|
  {
    if ds != [] {
      var d := ds[0];
      DrainKeeps(info, g.state, g.work, d.key, d.es);
      SwapKeeps(info, Stage(DrainState(info, g.state, g.work, d.key, d.es), g.work - {d.key}));
      DrainsKeep(info, DrainNext(info, g, d), ds[1..], g');
    }
  }

  /** However often and whatever its disposals insert, a Clear that ends has
      disposed of the cells it held or was given, each once, and of no others. */
  lemma ClearKeeps(info: MapInfo, s: MapState, ds: seq<Drain>, s': MapState)
    requires s.heap.Valid() && Holds(info, s) && Clears(info, s, ds, s')
    ensures Later(s.heap, s'.heap) && s'.impl == map[] && s'.heap.cells == Others(s)
    ensures forall a :: a != NULL_ADDRESS && Owned(s.impl, a) && a in s.heap.cells ==> s'.heap.disposed[a] == 1
    ensures forall a :: s.heap.next <= a < s'.heap.next ==> s'.heap.disposed[a] == 1
  {
    SwapKeeps(info, Stage(s, map[]));
    DrainsKeep(info, Swapped(Stage(s, map[])), ds, Stage(s', map[]));
    assert Outside(Others(s), map[]) == Others(s);
    assert Outside(Others(s'), map[]) == s'.heap.cells;
  }

  /** Ranks within a round: what is being refilled ranks below what is drained. */
  ghost predicate Ranked(rank: Ranking, n: nat, b: int, s: MapState, work: Impl) {
    RankBelow(rank, n, s, b - 1) && RankBelow(rank, n, MapState(s.heap, work), b)
  }

  lemma RankLater(script: DisposeScript, rank: Ranking, n: nat, s: MapState, b: int)
    requires Decreasing(script, rank) && RankBelow(rank, n, s, b)
    ensures RankBelow(rank, n + 1, s, b)
  {
  }

  lemma DrainRanked(info: MapInfo, script: DisposeScript, rank: Ranking, n: nat, b: int,
                    s: MapState, work: Impl, key: Key)
    requires Decreasing(script, rank) && Draining(info, s, work) && key in work
    requires Ranked(rank, n, b, s, work)
    ensures var es := script(n, key, LocalOf(s.heap, work[key]));
            Ranked(rank, n + 1, b, DrainState(info, s, work, key, es), work - {key})
  {
    var es := script(n, key, LocalOf(s.heap, work[key]));
    RankLater(script, rank, n, s, b - 1);
    RankLater(script, rank, n, MapState(s.heap, work), b);
    DrainKeeps(info, s, work, key, es);
    DrainRank(info, rank, n + 1, s, work, key, es, b - 1);
  }

  /** In whatever order entries are drained, there are at most `bound` of them. */
  ghost predicate Bounded(info: MapInfo, script: DisposeScript, n: nat, g: Stage, bound: int) {
    forall ds: seq<Drain>, g' :: Drains(info, g, ds, g') && Scripted(script, n, ds) ==> |ds| <= bound
  }

  /** What both loops of Clear keep, `ds` being the drains so far. */
  ghost predicate Clearing(info: MapInfo, script: DisposeScript, start: Stage, ds: seq<Drain>,
                           s: MapState, work: Impl)
  {
    Drains(info, start, ds, Swapped(Stage(s, work))) && Scripted(script, 0, ds)
  }

  lemma ClearingStep(info: MapInfo, script: DisposeScript, start: Stage, ds: seq<Drain>,
                     s: MapState, work: Impl, d: Drain, bound: int)
    requires Clearing(info, script, start, ds, s, work) && Bounded(info, script, 0, start, bound)
    requires Drainable(Stage(s, work), d) && d.es == script(|ds|, d.key, d.local)
    ensures Clearing(info, script, start, ds + [d], DrainState(info, s, work, d.key, d.es), work - {d.key})
    ensures |ds| < bound
  {
    DrainsAppend(info, start, ds, Stage(s, work), d);
    assert |ds + [d]| <= bound;
  }

  /** The stage after the disposal of `key`. */
  function ScriptedNext(info: MapInfo, script: DisposeScript, n: nat, g: Stage, key: Key): Stage
    requires key in g.work
  {
    var local := LocalOf(g.state.heap, g.work[key]);
    DrainNext(info, g, Drain(key, local, script(n, key, local)))
  }

  lemma BoundedByNext(info: MapInfo, script: DisposeScript, n: nat, g: Stage, bound: nat)
    requires forall key :: key in g.work ==>
      Bounded(info, script, n + 1, ScriptedNext(info, script, n, g, key), bound)
    ensures Bounded(info, script, n, g, bound + 1)
  {
    forall ds: seq<Drain>, g' | Drains(info, g, ds, g') && Scripted(script, n, ds)
      ensures |ds| <= bound + 1
    {
      if ds != [] {
        var next := ScriptedNext(info, script, n, g, ds[0].key);
        assert ds[0].es == script(n + 0, ds[0].key, ds[0].local);
        assert next == DrainNext(info, g, ds[0]);
        forall i | 0 <= i < |ds[1..]|
          ensures ds[1..][i].es == script(n + 1 + i, ds[1..][i].key, ds[1..][i].local)
        {
          assert ds[1..][i] == ds[i + 1];
        }
        assert Bounded(info, script, n + 1, next, bound);
        assert Drains(info, next, ds[1..], g');
      }
    }
  }

  lemma {:induction false} BoundOf(info: MapInfo, script: DisposeScript, rank: Ranking, n: nat, b: nat,
                                   s: MapState, work: Impl) returns (bound: nat)
    requires Decreasing(script, rank) && Draining(info, s, work) && Ranked(rank, n, b, s, work)
    ensures Bounded(info, script, n, Swapped(Stage(s, work)), bound)
    decreases b, |work|, 1, 0
  {
    if work != map[] {
      var bound' := BoundOfNext(info, script, rank, n, b, s, work, work.Keys);
      BoundedByNext(info, script, n, Stage(s, work), bound');
      bound := bound' + 1;
    } else if s.impl != map[] {
      SomeKey(s.impl.Keys);
      var k :| k in s.impl.Keys;
      assert b > 1;
      SwapKeeps(info, Stage(s, work));
      bound := BoundOf(info, script, rank, n, b - 1, MapState(s.heap, map[]), s.impl);
    } else {
      bound := 0;
    }
  }

  lemma {:induction false} BoundOfNext(info: MapInfo, script: DisposeScript, rank: Ranking, n: nat, b: nat,
                                       s: MapState, work: Impl, keys: set<Key>) returns (bound: nat)
    requires Decreasing(script, rank) && Draining(info, s, work) && Ranked(rank, n, b, s, work)
    requires keys <= work.Keys
    ensures forall key :: key in keys ==>
      Bounded(info, script, n + 1, ScriptedNext(info, script, n, Stage(s, work), key), bound)
    decreases b, |work|, 0, |keys|
  {
    if keys == {} { return 0; }
    SomeKey(keys);
    var key :| key in keys;
    var es := script(n, key, LocalOf(s.heap, work[key]));
    var others := BoundOfNext(info, script, rank, n, b, s, work, keys - {key});
    DrainRanked(info, script, rank, n, b, s, work, key);
    DrainKeeps(info, s, work, key, es);
    var these := BoundOf(info, script, rank, n + 1, b, DrainState(info, s, work, key, es), work - {key});
    bound := if these <= others then others else these;
  }

  /** If every inserted entry ranks below the one whose disposal inserts it,
      Clear ends, in whatever order it drains. */
  lemma RankedClearEnds(info: MapInfo, script: DisposeScript, rank: Ranking, s: MapState) returns (bound: nat)
    requires s.heap.Valid() && Holds(info, s) && Decreasing(script, rank) && HasRanks(rank, 0, s)
    ensures Bounded(info, script, 0, Swapped(Stage(s, map[])), bound)
  {
    var b := RankBound(rank, 0, s);
    bound := BoundOf(info, script, rank, 0, b + 1, s, map[]);
  }

  lemma {:induction false} InsertAllKeys(info: MapInfo, s: MapState, es: seq<Entry>)
    ensures forall k :: k in s.impl || Inserts(es, k) ==> k in InsertAll(info, s, es).impl
  {
    if es != [] {
      InsertAllKeys(info, s, es[..|es| - 1]);
      forall k | Inserts(es, k)
        ensures Inserts(es[..|es| - 1], k) || k == es[|es| - 1].0
      {
        var i :| 0 <= i < |es| && es[i].0 == k;
        if i < |es| - 1 { assert es[..|es| - 1][i].0 == k; }
      }
    }
  }

  /** A disposal that puts its own key back leaves it in the map, and no later
      disposal of the round takes it out. */
  lemma ReinsertionStays(info: MapInfo, s: MapState, work: Impl, key: Key, es: seq<Entry>)
    requires key in work
    ensures var impl := DrainState(info, s, work, key, es).impl;
            && (Inserts(es, key) ==> key in impl)
            && (forall k :: k in s.impl ==> k in impl)
  {
    InsertAllKeys(info, s.(heap := ReleaseHeap(info, s.heap, work[key])), es);
  }

  lemma {:induction false} ReinsertedRemains(info: MapInfo, g: Stage, ds: seq<Drain>, g': Stage, key: Key)
    requires Drains(info, g, ds, g')
    requires forall i :: 0 <= i < |ds| && ds[i].key == key ==> Inserts(ds[i].es, key)
    requires key in g.work || key in g.state.impl
    ensures key in g'.work || key in g'.state.impl
    decreases |ds|
  {
    if ds != [] {
      ReinsertionStays(info, g.state, g.work, ds[0].key, ds[0].es);
      ReinsertedRemains(info, DrainNext(info, g, ds[0]), ds[1..], g', key);
    }
  }

  /** Why inserted entries must rank lower: if every disposal of some entry puts
      its key back, no number of disposals, in whatever order, ends Clear. */
  lemma ClearNeverEnds(info: MapInfo, s: MapState, ds: seq<Drain>, key: Key)
    requires key in s.impl
    requires forall i :: 0 <= i < |ds| && ds[i].key == key ==> Inserts(ds[i].es, key)
    ensures forall s' :: !Clears(info, s, ds, s')
  {
    forall s' | Clears(info, s, ds, s')
      ensures false
    {
      ReinsertedRemains(info, Swapped(Stage(s, map[])), ds, Stage(s', map[]), key);
    }
  }

  // ---------------------------------------------------------------------
  // Reading back

  /** Get and Contains after Set. */
  lemma SetReads(info: MapInfo, s: MapState, key: Key, v: Address, k: Key)
    ensures var s' := SetState(info, s, key, v);
      && LocalOf(s'.heap, Lookup(s'.impl, k)) ==
           LocalOf(s.heap, if k == key then v else Lookup(s.impl, k))
      && (Lookup(s'.impl, k) != NULL_ADDRESS <==>
           if k == key then v != NULL_ADDRESS else Lookup(s.impl, k) != NULL_ADDRESS)
  {
    var h := Introduced(info, s.heap, key, v);
    assert forall a :: LocalOf(h, a) == LocalOf(s.heap, a);
    assert forall a :: LocalOf(ReleaseHeap(info, h, Lookup(s.impl, key)), a) == LocalOf(h, a);
  }

  /** Get and Contains after Remove. */
  lemma RemoveReads(info: MapInfo, s: MapState, key: Key, k: Key)
    requires NULL_ADDRESS !in s.heap.cells
    ensures var s' := RemoveState(info, s, key);
      && LocalOf(s'.heap, Lookup(s'.impl, k)) == (if k == key then Empty else LocalOf(s.heap, Lookup(s.impl, k)))
      && (Lookup(s'.impl, k) != NULL_ADDRESS <==> k != key && Lookup(s.impl, k) != NULL_ADDRESS)
  {
  }
}
