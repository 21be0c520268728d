/** The container classes of v8-util.h, working in place on a backing map or
    vector of raw cell addresses.  Every temporary Global of the source is a
    Handle object here, and its destructor an explicit Reset. */
module Containers {
  import opened Handles
  import opened ContainerSpec

  /** PersistentValueMapBase with what PersistentValueMap and GlobalValueMap add.
      The two differ only in the weak callback: the former runs WeakCallback, the
      latter OnWeakCallback and later SecondWeakCallback. */
  class ValueMap {
    const isolate: Isolate
    const info: MapInfo
    var impl: Impl

    constructor (isolate: Isolate, info: MapInfo)
      ensures this.isolate == isolate && this.info == info && impl == map[]
    {
      this.isolate := isolate;
      this.info := info;
      impl := map[];
    }

    function State(): MapState
      reads this, isolate
    {
      MapState(isolate.heap, impl)
    }

    method Size() returns (n: nat)
      ensures n == |impl|
    {
      n := |impl|;
    }

    method Get(key: Key) returns (local: Local)
      ensures local == LocalOf(isolate.heap, Lookup(impl, key))
    {
      var v := Lookup(impl, key);
      local := LocalOf(isolate.heap, v);
    }

    method Contains(key: Key) returns (b: bool)
      ensures b <==> Lookup(impl, key) != NULL_ADDRESS
    {
      b := Lookup(impl, key) != NULL_ADDRESS;
    }

    /** A PersistentValueReference is the raw address. */
    method GetReference(key: Key) returns (reference: Address)
      ensures reference == Lookup(impl, key)
    {
      reference := Lookup(impl, key);
    }

    static method ClearAndLeak(persistent: Handle) returns (v: Address)
      modifies persistent
      ensures v == old(persistent.val) && persistent.val == NULL_ADDRESS
    {
      v := persistent.val;
      persistent.val := NULL_ADDRESS;
    }

    /** All removal goes through here: weak-callback data is disposed of if the
        cell is still weak, and left to the collector's callback if it is pending. */
    method Release(v: Address) returns (g: Handle)
      modifies isolate
      ensures fresh(g) && g.val == v
      ensures isolate.heap == ReleaseHeap(info, old(isolate.heap), v)
    {
      var p := new Handle.Adopt(v);
      var weak := p.IsWeak(isolate);
      if info.callbackType != NotWeak && weak {
        var d := isolate.ClearWeak(p.val);
        isolate.DisposeCallbackData(d);
      }
      g := new Handle.Move(p);
      p.Reset(isolate);
    }

    method Remove(key: Key) returns (g: Handle)
      modifies this, isolate
      ensures fresh(g) && g.val == Lookup(old(impl), key)
      ensures State() == RemoveState(info, old(State()), key)
    {
      var v := Lookup(impl, key);
      impl := impl - {key};
      var p := Release(v);
      g := new Handle.Move(p);
      p.Reset(isolate);
    }

    method SetUnique(key: Key, persistent: Handle) returns (g: Handle)
      modifies this, isolate, persistent
      ensures fresh(g) && g.val == Lookup(old(impl), key)
      ensures persistent.val == NULL_ADDRESS
      ensures State() == SetState(info, old(State()), key, old(persistent.val))
    {
      if info.callbackType == NotWeak {
        isolate.AnnotateStrongRetainer(persistent.val);
      } else {
        isolate.MakeWeak(persistent.val, info.owner, key);
      }
      var v := ClearAndLeak(persistent);
      var previous := Lookup(impl, key);
      impl := impl[key := v];
      var p := Release(previous);
      g := new Handle.Move(p);
      p.Reset(isolate);
    }

    /** Set(const K&, Local<V>) */
    method SetLocal(key: Key, value: Local) returns (g: Handle)
      modifies this, isolate
      ensures fresh(g) && g.val == Lookup(old(impl), key)
      ensures State() == SetState(info, MapState(NewHeap(old(isolate.heap), value), old(impl)), key,
                                  NewAddress(old(isolate.heap), value))
    {
      var persistent := new Handle.FromLocal(isolate, value);
      g := SetUnique(key, persistent);
      persistent.Reset(isolate);
    }

    /** Set(const K&, Global<V>): the argument is moved in. */
    method Set(key: Key, value: Handle) returns (g: Handle)
      modifies this, isolate, value
      ensures fresh(g) && g.val == Lookup(old(impl), key)
      ensures value.val == NULL_ADDRESS
      ensures State() == SetState(info, old(State()), key, old(value.val))
    {
      var moved := new Handle.Move(value);
      g := SetUnique(key, moved);
      moved.Reset(isolate);
    }

    /** Set(const K&, Global<V>, PersistentValueReference*) */
    method SetWithReference(key: Key, value: Handle) returns (g: Handle, reference: Address)
      modifies this, isolate, value
      ensures fresh(g) && g.val == Lookup(old(impl), key)
      ensures value.val == NULL_ADDRESS
      ensures reference == Lookup(impl, key)
      ensures State() == SetState(info, old(State()), key, old(value.val))
    {
      var moved := new Handle.Move(value);
      reference := moved.val;
      g := SetUnique(key, moved);
      moved.Reset(isolate);
    }

    /** Traits::Dispose of a user who inserts `es` and lets the value go. */
    method Dispose(value: Handle, es: seq<Entry>)
      modifies this, isolate, value
      ensures value.val == NULL_ADDRESS
      ensures State() == DisposeState(info, old(State()), old(value.val), es)
    {
      var i := 0;
      while i < |es|
        invariant 0 <= i <= |es|
        invariant value.val == old(value.val)
        invariant State() == InsertAll(info, old(State()), es[..i])
      {
        var displaced := SetLocal(es[i].0, To(es[i].1));
        displaced.Reset(isolate);
        assert es[..i + 1][..i] == es[..i];
        i := i + 1;
      }
      assert es[..|es|] == es;
      value.Reset(isolate);
    }

    /** Traits::Dispose(isolate, Release(value).Pass(), key) for one entry. */
    method ReleaseAndDispose(work: Impl, key: Key, es: seq<Entry>)
      requires key in work
      modifies this, isolate
      ensures State() == DrainState(info, old(State()), work, key, es)
    {
      var p := Release(work[key]);
      var value := new Handle.Move(p);
      p.Reset(isolate);
      Dispose(value, es);
    }

    /** Swaps the map out and drains it, again and again, because disposal may
        insert.  Entries are drained in any order.  If there is any bound to the
        number of disposals this ends, with nothing left of the map and every
        cell it held or was given disposed exactly once. */
    method Clear(script: DisposeScript, ghost bound: nat) returns (ghost ds: seq<Drain>)
      requires isolate.heap.Valid() && Holds(info, State())
      requires Bounded(info, script, 0, Swapped(Stage(State(), map[])), bound)
      modifies this, isolate
      ensures Clears(info, old(State()), ds, State()) && Scripted(script, 0, ds)
      ensures impl == map[]
      ensures Later(old(isolate.heap), isolate.heap)
      ensures isolate.heap.cells == old(Others(State()))
      ensures forall a :: a != NULL_ADDRESS && old(Owned(impl, a)) ==> isolate.heap.disposed[a] == 1
      ensures forall a :: old(isolate.heap.next) <= a < isolate.heap.next ==>
                isolate.heap.disposed[a] == 1
    {
      ghost var start := Swapped(Stage(State(), map[]));
      ds := [];
      var n := 0;
      while impl != map[]
        invariant n == |ds| && Clearing(info, script, start, ds, State(), map[])
        decreases bound - n
      {
        ghost var before, impl0 := n, impl;
        var work := impl;
        impl := map[];
        while work != map[]
          invariant n == |ds| && Clearing(info, script, start, ds, State(), work)
          invariant (work == impl0 && n == before) || before < n <= bound
          decreases |work|
        {
          SomeKey(work.Keys);
          var key :| key in work.Keys;
          var local := LocalOf(isolate.heap, work[key]);
          var es := script(n, key, local);
          ClearingStep(info, script, start, ds, State(), work, Drain(key, local, es), bound);
          ReleaseAndDispose(work, key, es);
          work := work - {key};
          ds := ds + [Drain(key, local, es)];
          n := n + 1;
        }
      }
      ClearKeeps(info, old(State()), ds, State());
    }

    /** PersistentValueMap::WeakCallback; `es` is what Traits::Dispose inserts. */
    method WeakCallback(d: CallbackData, es: seq<Entry>)
      modifies this, isolate
      ensures State() == WeakCallbackState(info, old(State()), d, es)
    {
      if info.callbackType != NotWeak {
        var key := d.key;
        var g := Remove(key);
        var value := new Handle.Move(g);
        g.Reset(isolate);
        Dispose(value, es);
        isolate.DisposeCallbackData(d);
      }
    }

    /** The collector takes the weak cell at `key` and runs the callback on it. */
    method CollectEntry(key: Key, es: seq<Entry>)
      requires key in impl && IsWeakCell(isolate.heap, impl[key])
      modifies this, isolate
      ensures State() == CollectState(info, old(State()), key, es)
    {
      var d := isolate.TakeWeak(impl[key]);
      WeakCallback(d, es);
    }

    method RemoveWeak(key: Key)
      modifies this, isolate
      ensures State() == MapState(ResetHeap(old(isolate.heap), Lookup(old(impl), key)), old(impl) - {key})
    {
      var p := new Handle.Adopt(Lookup(impl, key));
      impl := impl - {key};
      p.Reset(isolate);
    }

    /** GlobalValueMap::OnWeakCallback: the second pass is left to the collector. */
    method OnWeakCallback(d: CallbackData)
      modifies this, isolate
      ensures State() == OnWeakCallbackState(info, old(State()), d)
    {
      if info.callbackType != NotWeak {
        var key := d.key;
        RemoveWeak(key);
      }
    }

    method CollectEntryFirstPass(key: Key) returns (d: CallbackData)
      requires key in impl && IsWeakCell(isolate.heap, impl[key])
      modifies this, isolate
      ensures State() == CollectFirstPassState(info, old(State()), key)
      ensures d == old(isolate.heap).cells[old(impl)[key]].state.data
    {
      d := isolate.TakeWeak(impl[key]);
      OnWeakCallback(d);
    }

    /** GlobalValueMap::SecondWeakCallback: DisposeWeak disposes of the data. */
    method SecondWeakCallback(d: CallbackData)
      modifies isolate
      ensures isolate.heap == FreeData(old(isolate.heap), d)
    {
      isolate.DisposeCallbackData(d);
    }
  }

  /** PersistentValueVector */
  class ValueVector {
    const isolate: Isolate
    var impl: seq<Address>

    constructor (isolate: Isolate)
      ensures this.isolate == isolate && impl == []
    {
      this.isolate := isolate;
      impl := [];
    }

    method Append(persistent: Handle)
      modifies this, persistent, isolate
      ensures impl == old(impl) + [old(persistent.val)]
      ensures persistent.val == NULL_ADDRESS && isolate.heap == old(isolate.heap)
    {
      var moved := new Handle.Move(persistent);
      var v := ValueMap.ClearAndLeak(moved);
      impl := impl + [v];
      moved.Reset(isolate);
    }

    method AppendLocal(value: Local)
      modifies this, isolate
      ensures impl == old(impl) + [NewAddress(old(isolate.heap), value)]
      ensures isolate.heap == NewHeap(old(isolate.heap), value)
    {
      var persistent := new Handle.FromLocal(isolate, value);
      var v := ValueMap.ClearAndLeak(persistent);
      impl := impl + [v];
      persistent.Reset(isolate);
    }

    method IsEmpty() returns (b: bool)
      ensures b <==> |impl| == 0
    {
      b := impl == [];
    }

    method Get(index: nat) returns (local: Local)
      ensures local == LocalOf(isolate.heap, if index < |impl| then impl[index] else NULL_ADDRESS)
    {
      var v := if index < |impl| then impl[index] else NULL_ADDRESS;
      local := LocalOf(isolate.heap, v);
    }

    method Clear()
      modifies this, isolate
      ensures impl == []
      ensures isolate.heap == DisposeSeq(old(isolate.heap), old(impl))
    {
      var length := |impl|;
      var i := 0;
      while i < length
        invariant 0 <= i <= length == |impl| && impl == old(impl)
        invariant isolate.heap == DisposeSeq(old(isolate.heap), impl[..i])
      {
        var p := new Handle.Adopt(impl[i]);
        p.Reset(isolate);
        assert impl[..i + 1][..i] == impl[..i];
        i := i + 1;
      }
      assert impl[..length] == impl;
      impl := [];
    }
  }
}
