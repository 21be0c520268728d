/** The storage cells behind V8's persistent handles, the engine operations that
    the inline code of v8.h calls on them, and the handles themselves.

    A `Heap` is the engine's view as a value: which cells are live, what each
    refers to, and where every piece of weak-callback data has got to.  Engine
    operations are total: using a cell that is not live is recorded in `faults`
    instead of being ruled out by a precondition, so that "no dead cell is ever
    used" is something to prove. */
module Handles {

  type Address = nat
  const NULL_ADDRESS: Address := 0

  type Key = int

  /** Identity of a JavaScript object. */
  type Obj = nat

  /** A possibly empty `Local`. */
  datatype Local = Empty | To(obj: Obj)

  /** What WeakCallbackParameter allocates for an entry: it names the map and the key. */
  datatype CallbackData = CallbackData(id: nat, owner: nat, key: Key)

  datatype NodeState = Normal | Weak(data: CallbackData) | Pending

  datatype Node = Node(obj: Obj, state: NodeState)

  datatype Heap = Heap(
    cells: map<Address, Node>,          // live cells
    next: Address,                      // next address handed out
    disposed: multiset<Address>,        // how often each cell was disposed
    issued: seq<CallbackData>,          // all callback data ever allocated
    inCallback: set<CallbackData>,      // data held by a collector callback still under way
    freed: multiset<CallbackData>,      // how often each data reached its disposer
    lost: set<CallbackData>,            // data handed to the engine with no cell to keep it
    faults: nat)                        // uses of a cell that is not live
  {
    ghost predicate Issued(d: CallbackData) {
      d.id < |issued| && issued[d.id] == d
    }

    ghost predicate AttachedTo(d: CallbackData, a: Address) {
      a in cells && cells[a].state == Weak(d)
    }

    ghost predicate Attached(d: CallbackData) {
      exists a :: AttachedTo(d, a)
    }

    /** Every address handed out is either live, or disposed exactly once. */
    ghost predicate CellsAccounted() {
      && 1 <= next
      && forall a: Address ::
        disposed[a] == if 1 <= a < next && a !in cells then 1 else 0
    }

    ghost predicate CellsInRange() {
      forall a :: a in cells ==> 1 <= a < next
    }

    ghost predicate Placed(d: CallbackData) {
      Attached(d) || d in inCallback || freed[d] == 1 || d in lost
    }

    /** Every data issued is in exactly one place: on one weak cell, with a
        callback under way, freed once, or lost, each loss being a fault. */
    ghost predicate DataAccounted() {
      && (forall i :: 0 <= i < |issued| ==> issued[i].id == i)
      && (forall d, a :: AttachedTo(d, a) ==> Issued(d) && d !in inCallback && freed[d] == 0 && d !in lost)
      && (forall d, a, b :: AttachedTo(d, a) && AttachedTo(d, b) ==> a == b)
      && (forall d :: d in inCallback ==> Issued(d) && freed[d] == 0)
      && (forall d :: d in lost ==> Issued(d) && freed[d] == 0 && d !in inCallback)
      && (forall d :: freed[d] <= 1 && (freed[d] == 1 ==> Issued(d)))
      && (forall d :: Issued(d) ==> Placed(d))
      && |lost| <= faults
    }

    ghost predicate Valid() {
      CellsAccounted() && CellsInRange() && DataAccounted()
    }
  }

  const EMPTY_HEAP := Heap(map[], 1, multiset{}, [], {}, multiset{}, {}, 0)

  // ---------------------------------------------------------------------
  // Engine operations

  function Fault(h: Heap): Heap {
    h.(faults := h.faults + 1)
  }

  /** V8::GlobalizeReference; the new cell is at `h.next`. */
  function Globalize(h: Heap, obj: Obj): Heap {
    h.(cells := h.cells[h.next := Node(obj, Normal)], next := h.next + 1)
  }

  /** V8::DisposeGlobal */
  function Dispose(h: Heap, a: Address): Heap {
    var h' := h.(cells := h.cells - {a}, disposed := h.disposed + multiset{a});
    if a in h.cells then h' else Fault(h')
  }

  function MarkState(h: Heap, a: Address, s: NodeState): Heap {
    if a in h.cells then h.(cells := h.cells[a := h.cells[a].(state := s)]) else Fault(h)
  }

  /** V8::AnnotateStrongRetainer, which labels a live cell. */
  function Annotate(h: Heap, a: Address): Heap {
    if a in h.cells then h else Fault(h)
  }

  /** Makes a cell weak, with callback data allocated for it. */
  function Attach(h: Heap, a: Address, owner: nat, key: Key): Heap {
    var d := CallbackData(|h.issued|, owner, key);
    var h' := h.(issued := h.issued + [d]);
    if a in h.cells then MarkState(h', a, Weak(d)) else Fault(h').(lost := h.lost + {d})
  }

  /** DisposeCallbackData, whoever held the data. */
  function FreeData(h: Heap, d: CallbackData): Heap {
    h.(freed := h.freed + multiset{d}, inCallback := h.inCallback - {d})
  }

  predicate IsWeakCell(h: Heap, a: Address) {
    a in h.cells && h.cells[a].state.Weak?
  }

  /** The collector takes a weak cell: it becomes pending and its data passes to
      the callback that is about to run. */
  function MarkPending(h: Heap, a: Address): Heap
    requires IsWeakCell(h, a)
  {
    MarkState(h, a, Pending).(inCallback := h.inCallback + {h.cells[a].state.data})
  }

  /** PersistentBase::Reset on a handle holding `v`. */
  function ResetHeap(h: Heap, v: Address): Heap {
    if v == NULL_ADDRESS then h else Dispose(h, v)
  }

  /** PersistentBase::New for a non-null or null local. */
  function NewHeap(h: Heap, local: Local): Heap {
    if local.To? then Globalize(h, local.obj) else h
  }

  function NewAddress(h: Heap, local: Local): Address {
    if local.To? then h.next else NULL_ADDRESS
  }

  /** What a handle holding `v` denotes. */
  function LocalOf(h: Heap, v: Address): Local {
    if v in h.cells then To(h.cells[v].obj) else Empty
  }

  // ---------------------------------------------------------------------
  // The engine operations keep the accounts

  lemma GlobalizeKeepsValid(h: Heap, obj: Obj)
    requires h.Valid()
    ensures Globalize(h, obj).Valid()
  {
    var h' := Globalize(h, obj);
    assert forall d, a :: h'.AttachedTo(d, a) <==> h.AttachedTo(d, a);
    forall d | h'.Issued(d)
      ensures h'.Placed(d)
    {
      assert h.Issued(d);
      if h.Attached(d) {
        var a :| h.AttachedTo(d, a);
        assert h'.AttachedTo(d, a);
      }
    }
  }

  lemma DisposeKeepsValid(h: Heap, a: Address)
    requires h.Valid() && a in h.cells && !IsWeakCell(h, a)
    ensures Dispose(h, a).Valid() && Dispose(h, a).faults == h.faults
  {
    var h' := Dispose(h, a);
    assert forall d, b :: h'.AttachedTo(d, b) <==> h.AttachedTo(d, b);
    forall d | h'.Issued(d)
      ensures h'.Placed(d)
    {
      assert h.Issued(d);
      if h.Attached(d) {
        var b :| h.AttachedTo(d, b);
        assert h'.AttachedTo(d, b);
      }
    }
  }

  /** Attaching freshly issued data to a cell that is not yet weak. */
  lemma AttachKeepsValid(h: Heap, a: Address, owner: nat, key: Key)
    requires h.Valid() && a in h.cells && !IsWeakCell(h, a)
    ensures Attach(h, a, owner, key).Valid()
  {
    var d0 := CallbackData(|h.issued|, owner, key);
    var h' := Attach(h, a, owner, key);
    assert forall d, b :: h'.AttachedTo(d, b) <==> h.AttachedTo(d, b) || (d == d0 && b == a);
    assert forall d :: h'.Issued(d) <==> h.Issued(d) || d == d0;
    assert h'.AttachedTo(d0, a);
    assert h.freed[d0] == 0 && d0 !in h.inCallback && d0 !in h.lost by { assert !h.Issued(d0); }
    forall d | h.Issued(d)
      ensures h'.Placed(d)
    {
      if h.Attached(d) {
        var b :| h.AttachedTo(d, b);
        assert h'.AttachedTo(d, b);
      }
    }
  }

  lemma FaultKeepsValid(h: Heap)
    requires h.Valid()
    ensures Fault(h).Valid() && |h.lost| < Fault(h).faults
  {
    var h' := Fault(h);
    assert forall d, b :: h'.AttachedTo(d, b) <==> h.AttachedTo(d, b);
    forall d | h'.Issued(d)
      ensures h'.Placed(d)
    {
      assert h.Issued(d);
      if h.Attached(d) {
        var b :| h.AttachedTo(d, b);
        assert h'.AttachedTo(d, b);
      }
    }
  }

  /** Attaching to no cell loses the data. */
  lemma AttachNowhereKeepsValid(h: Heap, a: Address, owner: nat, key: Key)
    requires h.Valid() && a !in h.cells
    ensures Attach(h, a, owner, key).Valid()
  {
    FaultKeepsValid(h);
    LossKeepsAccounts(Fault(h), CallbackData(|h.issued|, owner, key));
  }

  lemma LossKeepsAccounts(h: Heap, d0: CallbackData)
    requires h.DataAccounted() && d0.id == |h.issued| && |h.lost| < h.faults
    ensures h.(issued := h.issued + [d0], lost := h.lost + {d0}).DataAccounted()
  {
    var h' := h.(issued := h.issued + [d0], lost := h.lost + {d0});
    assert forall d, b :: h'.AttachedTo(d, b) <==> h.AttachedTo(d, b);
    assert forall d :: h'.Issued(d) <==> h.Issued(d) || d == d0;
    assert h.freed[d0] == 0 && d0 !in h.inCallback by { assert !h.Issued(d0); }
    forall d | h.Issued(d)
      ensures h'.Placed(d)
    {
      if h.Attached(d) {
        var b :| h.AttachedTo(d, b);
        assert h'.AttachedTo(d, b);
      }
    }
  }

  /** ClearWeak followed by DisposeCallbackData on what it returned. */
  lemma ReleaseWeakKeepsValid(h: Heap, a: Address)
    requires h.Valid() && IsWeakCell(h, a)
    ensures FreeData(MarkState(h, a, Normal), h.cells[a].state.data).Valid()
  {
    var d0 := h.cells[a].state.data;
    var h' := FreeData(MarkState(h, a, Normal), d0);
    assert h.AttachedTo(d0, a);
    assert forall d, b :: h'.AttachedTo(d, b) <==> h.AttachedTo(d, b) && b != a;
    assert h'.inCallback == h.inCallback;
    assert forall d :: d != d0 ==> h'.freed[d] == h.freed[d];
    forall d | h'.Issued(d)
      ensures h'.Placed(d)
    {
      assert h.Issued(d);
      if d != d0 && h.Attached(d) {
        var b :| h.AttachedTo(d, b);
        assert h'.AttachedTo(d, b);
      }
    }
  }

  lemma MarkPendingKeepsValid(h: Heap, a: Address)
    requires h.Valid() && IsWeakCell(h, a)
    ensures MarkPending(h, a).Valid()
  {
    var d0 := h.cells[a].state.data;
    var h' := MarkPending(h, a);
    assert h.AttachedTo(d0, a);
    assert forall d, b :: h'.AttachedTo(d, b) <==> h.AttachedTo(d, b) && b != a;
    forall d | h'.Issued(d)
      ensures h'.Placed(d)
    {
      assert h.Issued(d);
      if d != d0 && h.Attached(d) {
        var b :| h.AttachedTo(d, b);
        assert h'.AttachedTo(d, b);
      }
    }
  }

  lemma FreeInCallbackKeepsValid(h: Heap, d0: CallbackData)
    requires h.Valid() && d0 in h.inCallback
    ensures FreeData(h, d0).Valid()
  {
    var h' := FreeData(h, d0);
    assert forall d, b :: h'.AttachedTo(d, b) <==> h.AttachedTo(d, b);
    assert forall d :: d != d0 ==> h'.freed[d] == h.freed[d];
    forall d | h'.Issued(d)
      ensures h'.Placed(d)
    {
      assert h.Issued(d);
      if h.Attached(d) {
        var b :| h.AttachedTo(d, b);
        assert h'.AttachedTo(d, b);
      }
    }
  }

  // ---------------------------------------------------------------------
  // Counting cells

  function Range(n: nat): (s: set<nat>)
    ensures forall a :: a in s <==> 1 <= a < n
    ensures |s| == if n == 0 then 0 else n - 1
  {
    if n <= 1 then {} else Range(n - 1) + {n - 1}
  }

  lemma {:induction false} MultisetOfSet(s: set<Address>)
    ensures |multiset(s)| == |s|
  {
    if s != {} {
      var a :| a in s;
      MultisetOfSet(s - {a});
      assert multiset(s) == multiset(s - {a}) + multiset{a};
    }
  }

  /** Conservation: cells created equal cells live plus cells disposed. */
  lemma CreatedIsLivePlusDisposed(h: Heap)
    requires h.Valid()
    ensures h.next - 1 == |h.cells| + |h.disposed|
  {
    assert multiset(Range(h.next)) == multiset(h.cells.Keys) + h.disposed;
    MultisetOfSet(Range(h.next));
    MultisetOfSet(h.cells.Keys);
    assert |h.cells| == |h.cells.Keys|;
  }

  // ---------------------------------------------------------------------
  // The isolate and the handles

  class Isolate {
    var heap: Heap

    constructor ()
      ensures heap == EMPTY_HEAP
    {
      heap := EMPTY_HEAP;
    }

    method GlobalizeReference(obj: Obj) returns (a: Address)
      modifies this
      ensures a == old(heap).next && heap == Globalize(old(heap), obj)
    {
      a := heap.next;
      heap := Globalize(heap, obj);
    }

    method DisposeGlobal(a: Address)
      modifies this
      ensures heap == Dispose(old(heap), a)
    {
      heap := Dispose(heap, a);
    }

    method AnnotateStrongRetainer(a: Address)
      modifies this
      ensures heap == Annotate(old(heap), a)
    {
      heap := Annotate(heap, a);
    }

    /** WeakCallbackParameter and V8::MakeWeak. */
    method MakeWeak(a: Address, owner: nat, key: Key)
      modifies this
      ensures heap == Attach(old(heap), a, owner, key)
    {
      heap := Attach(heap, a, owner, key);
    }

    method ClearWeak(a: Address) returns (d: CallbackData)
      requires IsWeakCell(heap, a)
      modifies this
      ensures d == old(heap).cells[a].state.data
      ensures heap == MarkState(old(heap), a, Normal)
    {
      d := heap.cells[a].state.data;
      heap := MarkState(heap, a, Normal);
    }

    /** The collector finds the object of a weak cell dead. */
    method TakeWeak(a: Address) returns (d: CallbackData)
      requires IsWeakCell(heap, a)
      modifies this
      ensures d == old(heap).cells[a].state.data
      ensures heap == MarkPending(old(heap), a)
    {
      d := heap.cells[a].state.data;
      heap := MarkPending(heap, a);
    }

    method DisposeCallbackData(d: CallbackData)
      modifies this
      ensures heap == FreeData(old(heap), d)
    {
      heap := FreeData(heap, d);
    }
  }

  /** PersistentBase, with the operations that Global and the copyable
      Persistent add to it.  Destructors are explicit calls of Reset. */
  class Handle {
    var val: Address

    constructor ()
      ensures val == NULL_ADDRESS
    {
      val := NULL_ADDRESS;
    }

    /** Global(Isolate*, Local) */
    constructor FromLocal(isolate: Isolate, local: Local)
      modifies isolate
      ensures val == NewAddress(old(isolate.heap), local)
      ensures isolate.heap == NewHeap(old(isolate.heap), local)
    {
      if local.Empty? {
        val := NULL_ADDRESS;
      } else {
        var a := isolate.GlobalizeReference(local.obj);
        val := a;
      }
    }

    /** Adopts a raw container value, as Release does by writing val_. */
    constructor Adopt(v: Address)
      ensures val == v
    {
      val := v;
    }

    /** Global(Global&&), also what Pass() does. */
    constructor Move(other: Handle)
      modifies other
      ensures val == old(other.val) && other.val == NULL_ADDRESS
    {
      val := other.val;
      new;
      if other.val != NULL_ADDRESS {
        other.val := NULL_ADDRESS;
      }
    }

    /** Global::operator=(Global&&) */
    method MoveAssign(isolate: Isolate, rhs: Handle)
      modifies this, rhs, isolate
      ensures this == rhs ==> val == old(val) && isolate.heap == old(isolate.heap)
      ensures this != rhs ==>
                && val == old(rhs.val) && rhs.val == NULL_ADDRESS
                && isolate.heap == ResetHeap(old(isolate.heap), old(val))
    {
      if this != rhs {
        Reset(isolate);
        if rhs.val != NULL_ADDRESS {
          val := rhs.val;
          rhs.val := NULL_ADDRESS;
        }
      }
    }

    method Reset(isolate: Isolate)
      modifies this, isolate
      ensures val == NULL_ADDRESS
      ensures isolate.heap == ResetHeap(old(isolate.heap), old(val))
    {
      if val == NULL_ADDRESS { return; }
      isolate.DisposeGlobal(val);
      val := NULL_ADDRESS;
    }

    /** Reset(Isolate*, Local) */
    method ResetTo(isolate: Isolate, local: Local)
      modifies this, isolate
      ensures var h := ResetHeap(old(isolate.heap), old(val));
              val == NewAddress(h, local) && isolate.heap == NewHeap(h, local)
    {
      Reset(isolate);
      if local.Empty? { return; }
      val := isolate.GlobalizeReference(local.obj);
    }

    /** Persistent::Copy: a new cell with the same object.  Copying a handle onto
        itself empties it, because it is reset first. */
    method Copy(isolate: Isolate, that: Handle)
      modifies this, isolate
      ensures this == that ==>
                val == NULL_ADDRESS && isolate.heap == ResetHeap(old(isolate.heap), old(val))
      ensures this != that ==>
                var h := ResetHeap(old(isolate.heap), old(val));
                && val == CopyAddress(h, that.val)
                && isolate.heap == CopyHeap(h, that.val)
                && that.val == old(that.val)
    {
      Reset(isolate);
      if that.val == NULL_ADDRESS { return; }
      var p := that.val;
      if p in isolate.heap.cells {
        val := isolate.GlobalizeReference(isolate.heap.cells[p].obj);
      } else {
        isolate.heap := Fault(isolate.heap);
      }
    }

    method IsWeak(isolate: Isolate) returns (weak: bool)
      ensures weak == (val != NULL_ADDRESS && IsWeakCell(isolate.heap, val))
    {
      if val == NULL_ADDRESS { return false; }
      weak := IsWeakCell(isolate.heap, val);
    }
  }

  /** V8::CopyGlobalReference behind Persistent::Copy. */
  function CopyHeap(h: Heap, v: Address): Heap {
    if v == NULL_ADDRESS then h
    else if v in h.cells then Globalize(h, h.cells[v].obj)
    else Fault(h)
  }

  function CopyAddress(h: Heap, v: Address): Address {
    if v in h.cells && v != NULL_ADDRESS then h.next else NULL_ADDRESS
  }
}
