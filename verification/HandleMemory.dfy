/** What a program of handles, maps and vectors computes, with no cells in it:
    variables, partial maps and sequences of objects, driven by the operations
    alone.  The world of HandleWorld refines it over every run. */
module HandleMemory {
  import opened Handles
  import opened ContainerSpec
  import opened HandleWorld

  datatype Memory = Memory(
    handles: map<nat, Local>,
    maps: map<nat, map<Key, Local>>,
    vectors: map<nat, seq<Local>>)

  const EMPTY_MEMORY := Memory(map[], map[], map[])

  function At<K>(m: map<K, Local>, k: K): Local {
    if k in m then m[k] else Empty
  }

  function Entries(mem: Memory, m: nat): map<Key, Local> {
    if m in mem.maps then mem.maps[m] else map[]
  }

  function Elements(mem: Memory, v: nat): seq<Local> {
    if v in mem.vectors then mem.vectors[v] else []
  }

  function Inserted(entries: map<Key, Local>, es: seq<Entry>): map<Key, Local> {
    if es == [] then entries
    else Inserted(entries, es[..|es| - 1])[es[|es| - 1].0 := To(es[|es| - 1].1)]
  }

  function Moved(mem: Memory, g: nat, src: nat): Memory {
    mem.(handles := mem.handles[g := At(mem.handles, src)][src := Empty])
  }

  function Apply(mem: Memory, op: Op): Memory {
    match op
    case NewHandle(g, local) => mem.(handles := mem.handles[g := local])
    case MoveHandle(g, src) => Moved(mem, g, src)
    case AssignHandle(g, src) => if g == src then mem else Moved(mem, g, src)
    case CopyHandle(g, src) =>
      mem.(handles := mem.handles[g := if g == src then Empty else At(mem.handles, src)])
    case ResetHandle(g) => mem.(handles := mem.handles[g := Empty])
    case ResetHandleTo(g, local) => mem.(handles := mem.handles[g := local])
    case DropHandle(g) => mem.(handles := mem.handles - {g})
    case NewMap(m, _, _) => mem.(maps := mem.maps[m := map[]])
    case NewVector(v) => mem.(vectors := mem.vectors[v := []])
    case MapSet(m, k, g, r) =>
      mem.(handles := mem.handles[g := Empty][r := At(Entries(mem, m), k)],
           maps := mem.maps[m := Entries(mem, m)[k := At(mem.handles, g)]])
    case MapRemove(m, k, r) =>
      mem.(handles := mem.handles[r := At(Entries(mem, m), k)],
           maps := mem.maps[m := Entries(mem, m) - {k}])
    case MapClear(m, _) => mem.(maps := mem.maps[m := map[]])
    case VectorAppend(v, g) =>
      mem.(handles := mem.handles[g := Empty],
           vectors := mem.vectors[v := Elements(mem, v) + [At(mem.handles, g)]])
    case VectorClear(v) => mem.(vectors := mem.vectors[v := []])
    case Collect(m, k, es) => mem.(maps := mem.maps[m := Inserted(Entries(mem, m) - {k}, es)])
    case CollectFirstPass(m, k) => mem.(maps := mem.maps[m := Entries(mem, m) - {k}])
    case CollectSecondPass(_) => mem
  }

  function Run(ops: seq<Op>): Memory {
    if ops == [] then EMPTY_MEMORY else Apply(Run(ops[..|ops| - 1]), ops[|ops| - 1])
  }

  // ---------------------------------------------------------------------
  // The memory a world stands for

  function Reads(mem: Memory, s: Slot): Local {
    match s
    case HandleSlot(g) => At(mem.handles, g)
    case MapSlot(m, k) => At(Entries(mem, m), k)
    case VectorSlot(v, i) => if i < |Elements(mem, v)| then Elements(mem, v)[i] else Empty
  }

  /** The same variables, keys and lengths. */
  ghost predicate SameShape(w: World, mem: Memory) {
    && w.handles.Keys == mem.handles.Keys
    && w.maps.Keys == mem.maps.Keys
    && (forall m :: m in w.maps ==> w.maps[m].impl.Keys == mem.maps[m].Keys)
    && w.vectors.Keys == mem.vectors.Keys
    && (forall v :: v in w.vectors ==> |w.vectors[v]| == |mem.vectors[v]|)
  }

  /** The memory is what the world denotes. */
  ghost predicate Refines(w: World, mem: Memory) {
    SameShape(w, mem) && forall s :: Denotes(w, s) == Reads(mem, s)
  }

  // ---------------------------------------------------------------------
  // One step

  lemma {:induction false} ReadsInserted(entries: map<Key, Local>, es: seq<Entry>, k: Key)
    ensures At(Inserted(entries, es), k) ==
      if LastInserted(es, k).To? then LastInserted(es, k) else At(entries, k)
    ensures k in Inserted(entries, es) <==> k in entries || LastInserted(es, k).To?
  {
    if es != [] { ReadsInserted(entries, es[..|es| - 1], k); }
  }

  lemma HandleAssigned(w: World, mem: Memory, g: nat, local: Local, w': World)
    requires Refines(w, mem)
    requires forall s :: Denotes(w', s) == if s == HandleSlot(g) then local else Denotes(w, s)
    ensures forall s :: Denotes(w', s) == Reads(mem.(handles := mem.handles[g := local]), s)
  {
  }

  lemma HandleDropped(w: World, mem: Memory, g: nat, w': World)
    requires Refines(w, mem)
    requires forall s :: Denotes(w', s) == if s == HandleSlot(g) then Empty else Denotes(w, s)
    ensures forall s :: Denotes(w', s) == Reads(mem.(handles := mem.handles - {g}), s)
  {
  }

  lemma HandleMoved(w: World, mem: Memory, g: nat, src: nat, w': World)
    requires Refines(w, mem)
    requires forall s :: Denotes(w', s) == MovedDenotes(w, g, src, s)
    requires g != src
    ensures forall s :: Denotes(w', s) == Reads(Moved(mem, g, src), s)
  {
    assert Denotes(w, HandleSlot(src)) == Reads(mem, HandleSlot(src));
  }

  lemma HandleReads(w: World, mem: Memory, op: Op, w': World)
    requires Inv(w) && Next(w, op, w') && Refines(w, mem) && OnHandles(op)
    ensures forall s :: Denotes(w', s) == Reads(Apply(mem, op), s)
  {
    match op
    case NewHandle(g, local) =>
      FillDenotes(w, g, local);
      HandleAssigned(w, mem, g, local, w');
    case MoveHandle(g, src) =>
      forall s ensures Denotes(w', s) == MovedDenotes(w, g, src, s) { MoveDenotes(w, g, src, s); }
      HandleMoved(w, mem, g, src, w');
    case AssignHandle(g, src) =>
      if g != src {
        AssignDenotes(w, g, src, w');
        HandleMoved(w, mem, g, src, w');
      }
    case CopyHandle(g, src) =>
      CopyDenotes(w, g, src, w');
      assert Denotes(w, HandleSlot(src)) == Reads(mem, HandleSlot(src));
      HandleAssigned(w, mem, g, if g == src then Empty else At(mem.handles, src), w');
    case ResetHandle(g) =>
      ResetDenotes(w, g);
      HandleAssigned(w, mem, g, Empty, w');
    case ResetHandleTo(g, local) =>
      ResetToDenotes(w, g, local, w');
      HandleAssigned(w, mem, g, local, w');
    case DropHandle(g) =>
      DropDenotes(w, g, w');
      HandleDropped(w, mem, g, w');
  }

  lemma EntrySet(w: World, mem: Memory, m: nat, k: Key, g: nat, r: nat, w': World)
    requires Refines(w, mem) && r !in mem.handles && g in mem.handles
    requires forall t ::
      Denotes(w', t) == (if t == MapSlot(m, k) then Denotes(w, HandleSlot(g))
       else if t == HandleSlot(g) then Empty
       else if t == HandleSlot(r) then Denotes(w, MapSlot(m, k))
       else Denotes(w, t))
    ensures forall s :: Denotes(w', s) == Reads(Apply(mem, MapSet(m, k, g, r)), s)
  {
    assert Denotes(w, HandleSlot(g)) == Reads(mem, HandleSlot(g));
    assert Denotes(w, MapSlot(m, k)) == Reads(mem, MapSlot(m, k));
    forall s
      ensures Denotes(w', s) == Reads(Apply(mem, MapSet(m, k, g, r)), s)
    {
      ReadsAfterSet(mem, m, k, g, r, s);
      assert Denotes(w, s) == Reads(mem, s);
    }
  }

  lemma ReadsAfterSet(mem: Memory, m: nat, k: Key, g: nat, r: nat, s: Slot)
    requires g != r
    ensures Reads(Apply(mem, MapSet(m, k, g, r)), s) ==
      if s == MapSlot(m, k) then Reads(mem, HandleSlot(g))
      else if s == HandleSlot(g) then Empty
      else if s == HandleSlot(r) then Reads(mem, MapSlot(m, k))
      else Reads(mem, s)
  {
  }

  lemma EntryRemoved(w: World, mem: Memory, m: nat, k: Key, r: nat, w': World)
    requires Refines(w, mem)
    requires forall t ::
      Denotes(w', t) == (if t == MapSlot(m, k) then Empty
       else if t == HandleSlot(r) then Denotes(w, MapSlot(m, k))
       else Denotes(w, t))
    ensures forall s :: Denotes(w', s) == Reads(Apply(mem, MapRemove(m, k, r)), s)
  {
    assert Denotes(w, MapSlot(m, k)) == Reads(mem, MapSlot(m, k));
  }

  lemma EntryReads(w: World, mem: Memory, op: Op, w': World)
    requires Inv(w) && Next(w, op, w') && Refines(w, mem) && (op.MapSet? || op.MapRemove?)
    ensures forall s :: Denotes(w', s) == Reads(Apply(mem, op), s)
  {
    match op
    case MapSet(m, k, g, r) =>
      SetDenotes(w, m, k, g, r, w');
      EntrySet(w, mem, m, k, g, r, w');
    case MapRemove(m, k, r) =>
      RemoveDenotes(w, m, k, r, w');
      EntryRemoved(w, mem, m, k, r, w');
  }

  lemma EntriesReplaced(w: World, mem: Memory, m: nat, entries: map<Key, Local>, w': World)
    requires Refines(w, mem)
    requires forall s :: Denotes(w', s) == if OfMap(s, m) then At(entries, s.k) else Denotes(w, s)
    ensures forall s :: Denotes(w', s) == Reads(mem.(maps := mem.maps[m := entries]), s)
  {
  }

  lemma ClearReads(w: World, mem: Memory, m: nat, ds: seq<Drain>, w': World)
    requires Inv(w) && Next(w, MapClear(m, ds), w') && Refines(w, mem)
    ensures forall s :: Denotes(w', s) == Reads(Apply(mem, MapClear(m, ds)), s)
  {
    MapClearClears(w, m, ds, w');
    MapClearDenotes(w, m, w');
    EntriesReplaced(w, mem, m, map[], w');
  }

  lemma CollectReads(w: World, mem: Memory, m: nat, k: Key, es: seq<Entry>, w': World)
    requires Inv(w) && Next(w, Collect(m, k, es), w') && Refines(w, mem)
    ensures forall s :: Denotes(w', s) == Reads(Apply(mem, Collect(m, k, es)), s)
  {
    CollectDenotes(w, m, k, es, w');
    var entries := Inserted(Entries(mem, m) - {k}, es);
    forall s | OfMap(s, m)
      ensures Denotes(w', s) == At(entries, s.k)
    {
      ReadsInserted(Entries(mem, m) - {k}, es, s.k);
      assert Denotes(w, s) == Reads(mem, s);
    }
    EntriesReplaced(w, mem, m, entries, w');
  }

  lemma EntryDropped(w: World, mem: Memory, m: nat, k: Key, w': World)
    requires Refines(w, mem)
    requires forall s :: Denotes(w', s) == if s == MapSlot(m, k) then Empty else Denotes(w, s)
    ensures forall s :: Denotes(w', s) == Reads(Apply(mem, CollectFirstPass(m, k)), s)
  {
  }

  lemma CollectFirstPassReads(w: World, mem: Memory, m: nat, k: Key, w': World)
    requires Inv(w) && Next(w, CollectFirstPass(m, k), w') && Refines(w, mem)
    ensures forall s :: Denotes(w', s) == Reads(Apply(mem, CollectFirstPass(m, k)), s)
  {
    CollectFirstPassDenotes(w, m, k, w');
    EntryDropped(w, mem, m, k, w');
  }

  lemma ElementAppended(w: World, mem: Memory, v: nat, g: nat, w': World)
    requires Refines(w, mem) && v in w.vectors
    requires forall s ::
      Denotes(w', s) == (if s == VectorSlot(v, |w.vectors[v]|) then Denotes(w, HandleSlot(g))
       else if s == HandleSlot(g) then Empty
       else Denotes(w, s))
    ensures forall s :: Denotes(w', s) == Reads(Apply(mem, VectorAppend(v, g)), s)
  {
    assert Denotes(w, HandleSlot(g)) == Reads(mem, HandleSlot(g));
  }

  lemma VectorReads(w: World, mem: Memory, op: Op, w': World)
    requires Inv(w) && Next(w, op, w') && Refines(w, mem) && (op.VectorAppend? || op.VectorClear?)
    ensures forall s :: Denotes(w', s) == Reads(Apply(mem, op), s)
  {
    if op.VectorAppend? {
      VectorAppendDenotes(w, op.v, op.g, w');
      ElementAppended(w, mem, op.v, op.g, w');
    } else {
      VectorClearDenotes(w, op.v, w');
    }
  }

  lemma StepReads(w: World, mem: Memory, op: Op, w': World)
    requires Inv(w) && Next(w, op, w') && Refines(w, mem)
    ensures forall s :: Denotes(w', s) == Reads(Apply(mem, op), s)
  {
    if OnHandles(op) {
      HandleReads(w, mem, op, w');
    } else if op.MapSet? || op.MapRemove? {
      EntryReads(w, mem, op, w');
    } else if op.MapClear? {
      ClearReads(w, mem, op.m, op.ds, w');
    } else if op.Collect? {
      CollectReads(w, mem, op.m, op.k, op.es, w');
    } else if op.CollectFirstPass? {
      CollectFirstPassReads(w, mem, op.m, op.k, w');
    } else if op.VectorAppend? || op.VectorClear? {
      VectorReads(w, mem, op, w');
    } else {
      OthersRead(w, mem, op, w');
    }
  }

  lemma OthersRead(w: World, mem: Memory, op: Op, w': World)
    requires Next(w, op, w') && Refines(w, mem)
    requires op.NewMap? || op.NewVector? || op.CollectSecondPass?
    ensures forall s :: Denotes(w', s) == Reads(Apply(mem, op), s)
  {
    assert forall s :: Held(w', s) == Held(w, s);
    assert w'.heap.cells == w.heap.cells;
    forall s
      ensures Reads(Apply(mem, op), s) == Reads(mem, s)
    {
    }
  }

  lemma {:induction false} KeysAfterInserts(info: MapInfo, s: MapState, es: seq<Entry>, k: Key)
    ensures k in InsertAll(info, s, es).impl <==> k in s.impl || LastInserted(es, k).To?
  {
    if es != [] { KeysAfterInserts(info, s, es[..|es| - 1], k); }
  }

  lemma CollectKeys(w: World, m: nat, key: Key, es: seq<Entry>, entries: map<Key, Local>, k: Key)
    requires Inv(w) && Enabled(w, Collect(m, key, es)) && entries.Keys == w.maps[m].impl.Keys
    ensures k in CollectState(w.maps[m].info, MapStateOf(w, m), key, es).impl <==> k in Inserted(entries - {key}, es)
  {
    var info, s := w.maps[m].info, MapStateOf(w, m);
    MapHolds(w, m);
    PendingKeeps(info, s, key);
    KeysAfterInserts(info, MapState(MarkPending(s.heap, s.impl[key]), s.impl - {key}), es, k);
    ReadsInserted(entries - {key}, es, k);
  }

  lemma MapShape(w: World, mem: Memory, m: nat, w': World, mem': Memory, impl: Impl, entries: map<Key, Local>)
    requires SameShape(w, mem) && m in w.maps
    requires w'.maps == w.maps[m := w.maps[m].(impl := impl)] && mem'.maps == mem.maps[m := entries]
    requires impl.Keys == entries.Keys
    requires w'.handles.Keys == mem'.handles.Keys
    requires w'.vectors == w.vectors && mem'.vectors == mem.vectors
    ensures SameShape(w', mem')
  {
  }

  lemma CollectShape(w: World, mem: Memory, m: nat, k: Key, es: seq<Entry>, w': World)
    requires Inv(w) && Next(w, Collect(m, k, es), w') && SameShape(w, mem)
    ensures SameShape(w', Apply(mem, Collect(m, k, es)))
  {
    var entries := Inserted(mem.maps[m] - {k}, es);
    var impl := CollectState(w.maps[m].info, MapStateOf(w, m), k, es).impl;
    forall j
      ensures j in impl <==> j in entries
    {
      CollectKeys(w, m, k, es, mem.maps[m], j);
    }
    MapShape(w, mem, m, w', Apply(mem, Collect(m, k, es)), impl, entries);
  }

  lemma CollectFirstPassShape(w: World, mem: Memory, m: nat, k: Key, w': World)
    requires Inv(w) && Next(w, CollectFirstPass(m, k), w') && SameShape(w, mem)
    ensures SameShape(w', Apply(mem, CollectFirstPass(m, k)))
  {
    MapHolds(w, m);
    CollectFirstPassKeeps(w.maps[m].info, MapStateOf(w, m), k);
    MapShape(w, mem, m, w', Apply(mem, CollectFirstPass(m, k)), w.maps[m].impl - {k}, mem.maps[m] - {k});
  }

  lemma EntryShape(w: World, mem: Memory, op: Op, w': World)
    requires Next(w, op, w') && SameShape(w, mem) && (op.MapSet? || op.MapRemove?)
    ensures SameShape(w', Apply(mem, op))
  {
    var mem' := Apply(mem, op);
    MapShape(w, mem, op.m, w', mem', w'.maps[op.m].impl, mem'.maps[op.m]);
  }

  lemma HandleKeys(w: World, mem: Memory, op: Op, w': World)
    requires Next(w, op, w') && OnHandles(op) && w.handles.Keys == mem.handles.Keys
    ensures w'.handles.Keys == Apply(mem, op).handles.Keys
    ensures w'.maps == w.maps && w'.vectors == w.vectors
    ensures Apply(mem, op).maps == mem.maps && Apply(mem, op).vectors == mem.vectors
  {
  }

  lemma StepShape(w: World, mem: Memory, op: Op, w': World)
    requires Inv(w) && Next(w, op, w') && SameShape(w, mem)
    ensures SameShape(w', Apply(mem, op))
  {
    if OnHandles(op) {
      HandleKeys(w, mem, op, w');
    } else if op.MapSet? || op.MapRemove? {
      EntryShape(w, mem, op, w');
    } else if op.Collect? {
      CollectShape(w, mem, op.m, op.k, op.es, w');
    } else if op.CollectFirstPass? {
      CollectFirstPassShape(w, mem, op.m, op.k, w');
    }
  }

  /** Every step acts on what slots denote as the operation acts on plain
      variables, maps and sequences. */
  lemma StepRefines(w: World, mem: Memory, op: Op, w': World)
    requires Inv(w) && Next(w, op, w') && Refines(w, mem)
    ensures Refines(w', Apply(mem, op))
  {
    StepReads(w, mem, op, w');
    StepShape(w, mem, op, w');
  }

  // ---------------------------------------------------------------------
  // Runs

  /** Refinement over runs: cells, disposal and collection never show.  After
      any operations, handles, maps and vectors hold what the operations alone
      put there. */
  lemma {:induction false} RunRefines(ws: seq<World>, ops: seq<Op>, n: nat)
    requires IsRun(ws, ops) && n < |ws|
    ensures Refines(ws[n], Run(ops[..n]))
  {
    if n > 0 {
      RunRefines(ws, ops, n - 1);
      RunKeeps(ws, ops, n - 1);
      assert Next(ws[n - 1], ops[n - 1], ws[n]);
      StepRefines(ws[n - 1], Run(ops[..n - 1]), ops[n - 1], ws[n]);
      assert ops[..n][..n - 1] == ops[..n - 1];
    }
  }

  // ---------------------------------------------------------------------
  // References

  lemma ApplyUntouched(mem: Memory, op: Op, m: nat, k: Key)
    requires m in mem.maps && !Touches(op, m, k) && (op.NewMap? ==> op.m !in mem.maps)
    ensures At(Entries(Apply(mem, op), m), k) == At(Entries(mem, m), k)
  {
    if op.Collect? && op.m == m {
      InsertsIsLast(op.es, k);
      ReadsInserted(Entries(mem, m) - {op.k}, op.es, k);
    }
  }

  lemma RunKeepsReference(ws: seq<World>, ops: seq<Op>, n: nat, m: nat, k: Key)
    requires IsRun(ws, ops) && n < |ops| && m in ws[n].maps && !Touches(ops[n], m, k)
    ensures m in ws[n + 1].maps
    ensures Held(ws[n + 1], MapSlot(m, k)) == Held(ws[n], MapSlot(m, k))
    ensures Denotes(ws[n + 1], MapSlot(m, k)) == Denotes(ws[n], MapSlot(m, k))
  {
    var mem, slot := Run(ops[..n]), MapSlot(m, k);
    RunKeeps(ws, ops, n);
    RunRefines(ws, ops, n);
    StepKeepsEntry(ws[n], ops[n], ws[n + 1], m, k);
    StepRefines(ws[n], mem, ops[n], ws[n + 1]);
    ApplyUntouched(mem, ops[n], m, k);
    assert Denotes(ws[n], slot) == Reads(mem, slot);
    assert Denotes(ws[n + 1], slot) == Reads(Apply(mem, ops[n]), slot);
  }

  /** A reference to a key, absent or not, denotes what Get returns for it, for
      as long as no step touches that entry. */
  lemma {:induction false} ReferenceStable(ws: seq<World>, ops: seq<Op>, i: nat, j: nat, m: nat, k: Key)
    requires IsRun(ws, ops) && i <= j < |ws| && m in ws[i].maps
    requires forall n :: i <= n < j ==> !Touches(ops[n], m, k)
    ensures var reference := Held(ws[i], MapSlot(m, k));
            && Held(ws[j], MapSlot(m, k)) == reference
            && LocalOf(ws[j].heap, reference) == Denotes(ws[j], MapSlot(m, k))
            && LocalOf(ws[j].heap, reference) == LocalOf(ws[i].heap, reference)
    ensures m in ws[j].maps
    decreases j - i
  {
    if i < j {
      ReferenceStable(ws, ops, i, j - 1, m, k);
      RunKeepsReference(ws, ops, j - 1, m, k);
    }
  }

  // ---------------------------------------------------------------------
  // Size and Contains

  /** The keys Contains finds. */
  ghost function Found(w: World, m: nat): set<Key>
    requires m in w.maps
  {
    set k | k in w.maps[m].impl && Lookup(w.maps[m].impl, k) != NULL_ADDRESS
  }

  /** The last operation on the entry was a Set with a handle that was empty. */
  ghost predicate LeftEmpty(ops: seq<Op>, m: nat, k: Key) {
    ops != [] &&
    var before, op := ops[..|ops| - 1], ops[|ops| - 1];
    if Touches(op, m, k) then op.MapSet? && At(Run(before).handles, op.g) == Empty
    else LeftEmpty(before, m, k)
  }

  ghost predicate NoneLeftEmpty(ops: seq<Op>, m: nat) {
    forall k :: !LeftEmpty(ops, m, k)
  }

  predicate HoldsEmpty(mem: Memory, m: nat, k: Key) {
    k in Entries(mem, m) && Entries(mem, m)[k] == Empty
  }

  lemma {:induction false} InsertsIsLast(es: seq<Entry>, k: Key)
    ensures Inserts(es, k) <==> LastInserted(es, k).To?
  {
    if es != [] {
      var init := es[..|es| - 1];
      InsertsIsLast(init, k);
      if Inserts(es, k) && es[|es| - 1].0 != k {
        var i :| 0 <= i < |es| && es[i].0 == k;
        assert init[i].0 == k;
      }
      if Inserts(init, k) {
        var i :| 0 <= i < |init| && init[i].0 == k;
        assert es[i].0 == k;
      }
      if es[|es| - 1].0 == k { assert Inserts(es, k); }
    }
  }

  lemma ApplyHoldsEmpty(mem: Memory, op: Op, m: nat, k: Key)
    requires op.NewMap? ==> op.m !in mem.maps
    ensures HoldsEmpty(Apply(mem, op), m, k) <==>
      if Touches(op, m, k) then op.MapSet? && At(mem.handles, op.g) == Empty else HoldsEmpty(mem, m, k)
  {
    if op.Collect? && op.m == m {
      InsertsIsLast(op.es, k);
      ReadsInserted(Entries(mem, m) - {op.k}, op.es, k);
    }
  }

  lemma {:induction false} LeftEmptyExactly(ws: seq<World>, ops: seq<Op>, n: nat, m: nat, k: Key)
    requires IsRun(ws, ops) && n < |ws|
    ensures LeftEmpty(ops[..n], m, k) <==> HoldsEmpty(Run(ops[..n]), m, k)
  {
    if n > 0 {
      var before := ops[..n - 1];
      assert ops[..n][..n - 1] == before;
      LeftEmptyExactly(ws, ops, n - 1, m, k);
      RunRefines(ws, ops, n - 1);
      assert Next(ws[n - 1], ops[n - 1], ws[n]);
      ApplyHoldsEmpty(Run(before), ops[n - 1], m, k);
    }
  }

  lemma SameSize(all: set<Key>, found: set<Key>)
    requires found <= all
    ensures |all| == |found| <==> forall k :: k in all ==> k in found
  {
    var missing := all - found;
    assert all == found + missing;
    assert |all| == |found| + |missing|;
    if forall k :: k in all ==> k in found { assert missing == {}; }
  }

  lemma EmptyIsNull(w: World, mem: Memory, m: nat, k: Key)
    requires Inv(w) && Refines(w, mem) && m in w.maps
    ensures HoldsEmpty(mem, m, k) <==> k in w.maps[m].impl && k !in Found(w, m)
  {
    assert Denotes(w, MapSlot(m, k)) == Reads(mem, MapSlot(m, k));
    assert Held(w, MapSlot(m, k)) == Lookup(w.maps[m].impl, k);
    assert w.heap.CellsInRange();
  }

  /** At any point of any run Size is the number of keys Contains finds, if and
      only if no entry was last touched by a Set with an empty handle. */
  lemma SizeIsFound(ws: seq<World>, ops: seq<Op>, n: nat, m: nat)
    requires IsRun(ws, ops) && n < |ws| && m in ws[n].maps
    ensures |ws[n].maps[m].impl| == |Found(ws[n], m)| <==> NoneLeftEmpty(ops[..n], m)
  {
    var all, found := ws[n].maps[m].impl.Keys, Found(ws[n], m);
    RunKeeps(ws, ops, n);
    RunRefines(ws, ops, n);
    forall k
      ensures LeftEmpty(ops[..n], m, k) <==> k in all && k !in found
    {
      LeftEmptyExactly(ws, ops, n, m, k);
      EmptyIsNull(ws[n], Run(ops[..n]), m, k);
    }
    SameSize(all, found);
    assert |ws[n].maps[m].impl| == |all|;
  }

  /** So they agree wherever no engine call was ever made about a cell that is
      not live. */
  lemma SizeIsFoundWithoutFaults(ws: seq<World>, ops: seq<Op>, n: nat, m: nat)
    requires IsRun(ws, ops) && n < |ws| && m in ws[n].maps && ws[n].heap.faults == 0
    ensures |ws[n].maps[m].impl| == |Found(ws[n], m)|
  {
    FaultsAreEmptySets(ws, ops, n);
    forall k
      ensures !LeftEmpty(ops[..n], m, k)
    {
      LeftEmptyIsEmptySet(ws, ops, n, m, k);
    }
    SizeIsFound(ws, ops, n, m);
  }

  lemma {:induction false} LeftEmptyIsEmptySet(ws: seq<World>, ops: seq<Op>, n: nat, m: nat, k: Key)
    requires IsRun(ws, ops) && n < |ws|
    ensures LeftEmpty(ops[..n], m, k) ==> EmptySets(ws, ops, n) > 0
  {
    if n > 0 {
      var op := ops[n - 1];
      assert ops[..n][..n - 1] == ops[..n - 1];
      LeftEmptyIsEmptySet(ws, ops, n - 1, m, k);
      if op.MapSet? {
        RunKeeps(ws, ops, n - 1);
        RunRefines(ws, ops, n - 1);
        assert Denotes(ws[n - 1], HandleSlot(op.g)) == Reads(Run(ops[..n - 1]), HandleSlot(op.g));
      }
    }
  }

  /** A run in which they differ: an empty handle goes into a strong map, at the
      price of one engine call about no cell. */
  lemma EmptyHandleCounts() returns (ws: seq<World>, ops: seq<Op>)
    ensures IsRun(ws, ops) && |ws| == 4 && 0 in ws[3].maps
    ensures |ws[3].maps[0].impl| == 1 && Found(ws[3], 0) == {}
    ensures ws[2].heap.faults == 0 && ws[3].heap.faults == 1
  {
    ops := [NewMap(0, NotWeak, false), NewHandle(0, Empty), MapSet(0, 7, 0, 1)];
    var w1 := EMPTY_WORLD.(maps := map[0 := MapObject(MapInfo(0, NotWeak), false, map[])]);
    var w2 := Fill(w1, 0, Empty);
    var w3 := MapSetWorld(w2, 0, 7, 0, 1);
    ws := [EMPTY_WORLD, w1, w2, w3];
    assert Next(ws[0], ops[0], ws[1]);
    assert Next(ws[1], ops[1], ws[2]);
    assert Next(ws[2], ops[2], ws[3]);
    assert w3.maps[0].impl == map[7 := NULL_ADDRESS];
  }
}
