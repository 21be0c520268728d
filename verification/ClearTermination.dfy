/** When Clear ends, exactly, for disposals whose insertions depend on the key
    alone: if and only if insertions nest to some depth, an entry inserting
    others, those inserting others, and so on. */
module ClearTermination {
  import opened Handles
  import opened ContainerSpec

  /** What the disposal of an entry inserts, by its key. */
  type KeyScript = Key -> seq<Entry>

  function ScriptOf(es: KeyScript): DisposeScript {
    (n: nat, k: Key, l: Local) => es(k)
  }

  /** No chain of insertions starting at k is longer than `depth`. */
  predicate NestsWithin(es: KeyScript, k: Key, depth: nat)
    decreases depth
  {
    forall i :: 0 <= i < |es(k)| ==> depth > 0 && NestsWithin(es, es(k)[i].0, depth - 1)
  }

  ghost predicate AllNestWithin(es: KeyScript, impl: Impl, depth: nat) {
    forall k :: k in impl ==> NestsWithin(es, k, depth)
  }

  lemma {:induction false} NestsDeeper(es: KeyScript, k: Key, depth: nat, depth': nat)
    requires NestsWithin(es, k, depth) && depth <= depth'
    ensures NestsWithin(es, k, depth')
    decreases depth
  {
    forall i | 0 <= i < |es(k)|
      ensures depth' > 0 && NestsWithin(es, es(k)[i].0, depth' - 1)
    {
      assert depth > 0 && NestsWithin(es, es(k)[i].0, depth - 1);
      NestsDeeper(es, es(k)[i].0, depth - 1, depth' - 1);
    }
  }

  lemma DeeperInsertion(es: KeyScript, k: Key, depth: nat) returns (i: nat)
    requires !NestsWithin(es, k, depth)
    ensures i < |es(k)| && (depth > 0 ==> !NestsWithin(es, es(k)[i].0, depth - 1))
  {
    i :| i < |es(k)| && !(depth > 0 && NestsWithin(es, es(k)[i].0, depth - 1));
  }

  // ---------------------------------------------------------------------
  // Depth is a ranking

  /** The least depth within which k nests, if that is at most `depth`. */
  function Depth(es: KeyScript, k: Key, depth: nat): int
    decreases depth
  {
    if !NestsWithin(es, k, depth) then -1
    else if depth == 0 || !NestsWithin(es, k, depth - 1) then depth
    else Depth(es, k, depth - 1)
  }

  lemma {:induction false} DepthIsLeast(es: KeyScript, k: Key, depth: nat, d: nat)
    requires NestsWithin(es, k, d) && d <= depth
    ensures 0 <= Depth(es, k, depth) <= d && NestsWithin(es, k, Depth(es, k, depth))
    decreases depth
  {
    NestsDeeper(es, k, d, depth);
    if depth > 0 && NestsWithin(es, k, depth - 1) {
      DepthIsLeast(es, k, depth - 1, if d == depth then depth - 1 else d);
    } else if d < depth {
      NestsDeeper(es, k, d, depth - 1);
    }
  }

  lemma DepthFalls(es: KeyScript, k: Key, depth: nat, i: nat)
    requires 0 <= Depth(es, k, depth) && i < |es(k)|
    ensures 0 <= Depth(es, es(k)[i].0, depth) < Depth(es, k, depth)
  {
    DepthIsLeast(es, k, depth, depth);
    var d := Depth(es, k, depth);
    assert d > 0 && NestsWithin(es, es(k)[i].0, d - 1);
    DepthIsLeast(es, es(k)[i].0, depth, d - 1);
  }

  lemma DepthRanks(es: KeyScript, depth: nat)
    ensures Decreasing(ScriptOf(es), (n: nat, k: Key, l: Local) => Depth(es, k, depth))
  {
    forall k, i | 0 <= i < |es(k)| && 0 <= Depth(es, k, depth)
      ensures 0 <= Depth(es, es(k)[i].0, depth) < Depth(es, k, depth)
    {
      DepthFalls(es, k, depth, i);
    }
  }

  lemma NestingBoundsClear(info: MapInfo, es: KeyScript, s: MapState, depth: nat) returns (bound: nat)
    requires s.heap.Valid() && Holds(info, s) && AllNestWithin(es, s.impl, depth)
    ensures Bounded(info, ScriptOf(es), 0, Swapped(Stage(s, map[])), bound)
  {
    var rank: Ranking := (n: nat, k: Key, l: Local) => Depth(es, k, depth);
    DepthRanks(es, depth);
    forall k | k in s.impl
      ensures 0 <= Depth(es, k, depth)
    {
      DepthIsLeast(es, k, depth, depth);
    }
    bound := RankedClearEnds(info, ScriptOf(es), rank, s);
  }

  // ---------------------------------------------------------------------
  // A Clear that ends has drained every chain of insertions

  /** What swapping leaves: nothing to drain only when nothing is left at all. */
  predicate Settled(g: Stage) {
    g.work == map[] ==> g.state.impl == map[]
  }

  predicate Present(g: Stage, k: Key) {
    k in g.work || k in g.state.impl
  }

  lemma NextKeys(info: MapInfo, g: Stage, d: Drain)
    requires d.key in g.work
    ensures var g' := DrainNext(info, g, d);
      && Settled(g')
      && (forall k :: k != d.key && Present(g, k) ==> Present(g', k))
      && (forall i :: 0 <= i < |d.es| ==> Present(g', d.es[i].0))
  {
    InsertAllKeys(info, g.state.(heap := ReleaseHeap(info, g.state.heap, g.work[d.key])), d.es);
    assert forall i :: 0 <= i < |d.es| ==> Inserts(d.es, d.es[i].0);
  }

  predicate InsertsByKey(es: KeyScript, ds: seq<Drain>) {
    forall i :: 0 <= i < |ds| ==> ds[i].es == es(ds[i].key)
  }

  /** Some list of `n` drains ends Clear from here. */
  ghost predicate EndsIn(info: MapInfo, es: KeyScript, g: Stage, n: nat) {
    exists ds: seq<Drain>, g' :: Drains(info, g, ds, g') && |ds| == n && g'.work == map[] && InsertsByKey(es, ds)
  }

  /** The first of these drains, and where it leads. */
  lemma FirstDrain(info: MapInfo, es: KeyScript, g: Stage, n: nat, k: Key) returns (key: Key, next: Stage)
    requires Settled(g) && Present(g, k) && EndsIn(info, es, g, n)
    ensures n >= 1 && Settled(next) && EndsIn(info, es, next, n - 1)
    ensures key != k ==> Present(next, k)
    ensures key == k ==> forall i :: 0 <= i < |es(k)| ==> Present(next, es(k)[i].0)
  {
    var ds: seq<Drain>, g' :| Drains(info, g, ds, g') && |ds| == n && g'.work == map[] && InsertsByKey(es, ds);
    key, next := ds[0].key, DrainNext(info, g, ds[0]);
    NextKeys(info, g, ds[0]);
    assert forall i :: 0 <= i < |ds[1..]| ==> ds[1..][i] == ds[i + 1];
    assert Drains(info, next, ds[1..], g');
  }

  lemma {:induction false} DrainsCoverNesting(info: MapInfo, es: KeyScript, g: Stage, n: nat, k: Key)
    requires Settled(g) && Present(g, k) && EndsIn(info, es, g, n)
    ensures n >= 1 && NestsWithin(es, k, n - 1)
    decreases n
  {
    var key, next := FirstDrain(info, es, g, n, k);
    if key == k {
      if !NestsWithin(es, k, n - 1) {
        var i := DeeperInsertion(es, k, n - 1);
        DrainsCoverNesting(info, es, next, n - 1, es(k)[i].0);
      }
    } else {
      DrainsCoverNesting(info, es, next, n - 1, k);
      NestsDeeper(es, k, n - 2, n - 1);
    }
  }

  /** Draining goes on until nothing is left, if it is bounded. */
  lemma {:induction false} DrainsComplete(info: MapInfo, script: DisposeScript, n: nat, g: Stage, bound: int)
    returns (ds: seq<Drain>, g': Stage)
    requires Bounded(info, script, n, g, bound)
    ensures Drains(info, g, ds, g') && Scripted(script, n, ds) && g'.work == map[]
    decreases bound
  {
    assert Drains(info, g, [], g) && Scripted(script, n, []);
    if g.work == map[] { return [], g; }
    SomeKey(g.work.Keys);
    var key :| key in g.work.Keys;
    var local := LocalOf(g.state.heap, g.work[key]);
    var d := Drain(key, local, script(n, key, local));
    BoundedNext(info, script, n, g, bound, d);
    var rest;
    rest, g' := DrainsComplete(info, script, n + 1, DrainNext(info, g, d), bound - 1);
    ds := [d] + rest;
    Prepended(info, script, n, g, d, rest, g');
  }

  lemma Prepended(info: MapInfo, script: DisposeScript, n: nat, g: Stage, d: Drain, rest: seq<Drain>, g': Stage)
    requires Drainable(g, d) && d.es == script(n, d.key, d.local)
    requires Drains(info, DrainNext(info, g, d), rest, g') && Scripted(script, n + 1, rest)
    ensures Drains(info, g, [d] + rest, g') && Scripted(script, n, [d] + rest)
  {
    var ds := [d] + rest;
    assert ds[1..] == rest;
    forall i | 0 <= i < |ds|
      ensures ds[i].es == script(n + i, ds[i].key, ds[i].local)
    {
      if i > 0 { assert rest[i - 1].es == script(n + 1 + (i - 1), rest[i - 1].key, rest[i - 1].local); }
    }
  }

  lemma BoundedNext(info: MapInfo, script: DisposeScript, n: nat, g: Stage, bound: int, d: Drain)
    requires Bounded(info, script, n, g, bound)
    requires Drainable(g, d) && d.es == script(n, d.key, d.local)
    ensures Bounded(info, script, n + 1, DrainNext(info, g, d), bound - 1) && bound > 0
  {
    forall rest: seq<Drain>, g' | Drains(info, DrainNext(info, g, d), rest, g') && Scripted(script, n + 1, rest)
      ensures |rest| <= bound - 1
    {
      Prepended(info, script, n, g, d, rest, g');
    }
    var next := DrainNext(info, g, d);
    assert Drains(info, next, [], next) && Scripted(script, n + 1, []);
  }

  lemma BoundedEnds(info: MapInfo, es: KeyScript, g: Stage, bound: int) returns (n: nat)
    requires Bounded(info, ScriptOf(es), 0, g, bound)
    ensures EndsIn(info, es, g, n)
  {
    var ds, g' := DrainsComplete(info, ScriptOf(es), 0, g, bound);
    n := |ds|;
    assert forall i :: 0 <= i < |ds| ==> ds[i].es == ScriptOf(es)(0 + i, ds[i].key, ds[i].local);
  }

  lemma BoundedClearNests(info: MapInfo, es: KeyScript, s: MapState, bound: nat) returns (depth: nat)
    requires Bounded(info, ScriptOf(es), 0, Swapped(Stage(s, map[])), bound)
    ensures AllNestWithin(es, s.impl, depth)
  {
    var g := Swapped(Stage(s, map[]));
    depth := BoundedEnds(info, es, g, bound);
    forall k | k in s.impl
      ensures NestsWithin(es, k, depth)
    {
      DrainsCoverNesting(info, es, g, depth, k);
      NestsDeeper(es, k, depth - 1, depth);
    }
  }

  /** Clear ends, in whatever order it drains, if and only if the insertions
      that start from the entries of the map nest to some depth. */
  lemma ClearEndsExactly(info: MapInfo, es: KeyScript, s: MapState)
    requires s.heap.Valid() && Holds(info, s)
    ensures (exists bound: nat :: Bounded(info, ScriptOf(es), 0, Swapped(Stage(s, map[])), bound))
        <==> (exists depth: nat :: AllNestWithin(es, s.impl, depth))
  {
    if depth: nat :| AllNestWithin(es, s.impl, depth) {
      var bound := NestingBoundsClear(info, es, s, depth);
    }
    if bound: nat :| Bounded(info, ScriptOf(es), 0, Swapped(Stage(s, map[])), bound) {
      var depth := BoundedClearNests(info, es, s, bound);
    }
  }

  /** An endless chain of insertions, be it a cycle or not, nests to no depth. */
  lemma {:induction false} ChainNeverNests(es: KeyScript, chain: nat -> Key, i: nat, depth: nat)
    requires forall j: nat :: Inserts(es(chain(j)), chain(j + 1))
    ensures !NestsWithin(es, chain(i), depth)
    decreases depth
  {
    assert Inserts(es(chain(i)), chain(i + 1));
    var e :| 0 <= e < |es(chain(i))| && es(chain(i))[e].0 == chain(i + 1);
    if depth > 0 { ChainNeverNests(es, chain, i + 1, depth - 1); }
  }
}
