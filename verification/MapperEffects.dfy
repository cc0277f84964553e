/** Exactly what loading and prefetching do to the aperture: which blocks, which counters, and which nothing. */
module MapperEffects {
  import opened Prelude
  import opened MapperModel
  import opened MapperProofs

  // ---------------------------------------------------------------- counters of a set of loads

  /** The bytes of those of the first n blocks that are in a set. */
  ghost function SumIn(m: Manifest, s: set<nat>, n: nat): nat
  {
    if n == 0 then 0 else SumIn(m, s, n - 1) + (if n - 1 in s then m.SizeOf(n - 1) else 0)
  }

  ghost function OddOnes(s: set<nat>): set<nat>
  {
    set i | i in s && i % 2 == 1
  }

  ghost function EvenOnes(s: set<nat>): set<nat>
  {
    set i | i in s && i % 2 == 0
  }

  /** From a to b exactly the blocks of s were loaded, as far as the counters tell: odd ones from remote. */
  ghost predicate Charged(m: Manifest, a: Mapper, b: Mapper, s: set<nat>)
  {
    && |b.blocks| == |a.blocks| && (forall i | i in s :: i < |a.blocks|)
    && b == a.(blocks := b.blocks,
               faultsHandled := a.faultsHandled + |s|,
               blocksMaterialized := a.blocksMaterialized + |s|,
               bytesFromRemote := a.bytesFromRemote + SumIn(m, OddOnes(s), |a.blocks|),
               bytesFromLocal := a.bytesFromLocal + SumIn(m, EvenOnes(s), |a.blocks|))
  }

  lemma {:induction false} SumOfUnion(m: Manifest, s: set<nat>, t: set<nat>, n: nat)
    requires s !! t
    ensures SumIn(m, s + t, n) == SumIn(m, s, n) + SumIn(m, t, n)
  {
    if n > 0 { SumOfUnion(m, s, t, n - 1); }
  }

  lemma {:induction false} SumOfOne(m: Manifest, i: nat, n: nat)
    ensures SumIn(m, {i}, n) == if i < n then m.SizeOf(i) else 0
    ensures SumIn(m, {}, n) == 0
  {
    if n > 0 { SumOfOne(m, i, n - 1); }
  }

  lemma ChargedThenCharged(m: Manifest, a: Mapper, b: Mapper, c: Mapper, s: set<nat>, t: set<nat>)
    requires Charged(m, a, b, s) && Charged(m, b, c, t) && s !! t
    ensures Charged(m, a, c, s + t)
  {
    var n := |a.blocks|;
    assert OddOnes(s + t) == OddOnes(s) + OddOnes(t) && EvenOnes(s + t) == EvenOnes(s) + EvenOnes(t);
    SumOfUnion(m, OddOnes(s), OddOnes(t), n);
    SumOfUnion(m, EvenOnes(s), EvenOnes(t), n);
    assert |s + t| == |s| + |t|;
  }

  lemma NothingCharged(m: Manifest, a: Mapper)
    ensures Charged(m, a, a, {})
  {
    assert OddOnes({}) == {} && EvenOnes({}) == {};
    SumOfOne(m, 0, |a.blocks|);
  }

  lemma ChargeMaterialize(m: Manifest, a: Mapper, i: nat)
    requires i < |a.blocks| && !a.blocks[i].status.Loading?
    ensures Charged(m, a, Materialize(m, a, i).0, if a.blocks[i].status.Resident? then {} else {i})
  {
    NothingCharged(m, a);
    assert OddOnes({i}) == (if i % 2 == 1 then {i} else {}) && EvenOnes({i}) == (if i % 2 == 0 then {i} else {});
    SumOfOne(m, i, |a.blocks|);
  }

  // ---------------------------------------------------------------- which blocks are loaded

  /** The blocks of a set that are not in memory. */
  ghost function Absent(a: Mapper, s: set<nat>): set<nat>
  {
    set i | i in s && i < |a.blocks| && !a.blocks[i].status.Resident?
  }

  ghost predicate NoneLoading(a: Mapper)
  {
    forall i | 0 <= i < |a.blocks| :: !a.blocks[i].status.Loading?
  }

  /** Exactly the blocks of s are in memory and warmed by one; every other block is as it was. */
  ghost predicate Loads(a: Mapper, b: Mapper, s: set<nat>)
  {
    && |b.blocks| == |a.blocks|
    && forall i: nat | i < |a.blocks| ::
         b.blocks[i] == if i in s then ApertureBlock(Resident, a.blocks[i].accessCount + 1) else a.blocks[i]
  }

  lemma MaterializeLoads(m: Manifest, a: Mapper, i: nat)
    requires i < |a.blocks| && NoneLoading(a)
    ensures Loads(a, Materialize(m, a, i).0, {i}) && NoneLoading(Materialize(m, a, i).0)
    ensures Materialize(m, a, i).1.Loaded? || Materialize(m, a, i).1.AlreadyResident?
  {
  }

  lemma LoadsThenLoads(a: Mapper, b: Mapper, c: Mapper, s: set<nat>, t: set<nat>)
    requires Loads(a, b, s) && Loads(b, c, t) && s !! t
    ensures Loads(a, c, s + t)
  {
  }

  ghost function Members(idxs: seq<nat>): set<nat>
  {
    set i | i in idxs
  }

  lemma MembersSnoc(idxs: seq<nat>)
    requires idxs != []
    ensures Members(idxs) == Members(idxs[..|idxs| - 1]) + {idxs[|idxs| - 1]}
  {
    assert idxs == idxs[..|idxs| - 1] + [idxs[|idxs| - 1]];
  }

  /** Prefetching a list loads exactly its absent blocks, counts them, and leaves the rest of the aperture alone. */
  lemma {:induction false} PrefetchAllLoads(m: Manifest, a: Mapper, idxs: seq<nat>)
    requires NoneLoading(a)
    ensures var (b, n) := PrefetchAll(m, a, idxs);
            var s := Absent(a, Members(idxs));
            Loads(a, b, s) && Charged(m, a, b, s) && n == |s| && NoneLoading(b)
  {
    if idxs == [] {
      assert Absent(a, Members(idxs)) == {};
      NothingCharged(m, a);
    } else {
      var before, i := idxs[..|idxs| - 1], idxs[|idxs| - 1];
      PrefetchAllLoads(m, a, before);
      MembersSnoc(idxs);
      var b := PrefetchAll(m, a, before).0;
      var s := Absent(a, Members(before));
      hide Charged, Members, PrefetchAll;
      if i < |a.blocks| && !b.blocks[i].status.Resident? {
        ChargeMaterialize(m, b, i);
        assert Absent(a, Members(idxs)) == s + {i};
        ChargedThenCharged(m, a, b, Materialize(m, b, i).0, s, {i});
        LoadsThenLoads(a, b, Materialize(m, b, i).0, s, {i});
        PrefetchOneMore(m, a, idxs);
      } else {
        assert Absent(a, Members(idxs)) == s;
        PrefetchOneMore(m, a, idxs);
      }
    }
  }

  lemma PrefetchOneMore(m: Manifest, a: Mapper, idxs: seq<nat>)
    requires idxs != []
    ensures var (b, n) := PrefetchAll(m, a, idxs[..|idxs| - 1]);
            var i := idxs[|idxs| - 1];
            PrefetchAll(m, a, idxs)
            == if i < |b.blocks| && (b.blocks[i].status.Unmapped? || b.blocks[i].status.Evicted?)
               then (Materialize(m, b, i).0, n + 1) else (b, n)
  {
    hide Materialize;
  }

  /** The blocks whose layer lies in a range and exists. */
  ghost function LayersFrom(m: Manifest, first: nat, count: nat): set<nat>
  {
    set i: nat | i < m.NumBlocks() && m.LayerOf(i).Some? && first <= m.LayerOf(i).value < first + count && m.LayerOf(i).value < m.numLayers
  }

  lemma {:induction false} PrefetchWindowLoads(m: Manifest, a: Mapper, layer: nat, window: nat)
    requires NoneLoading(a)
    ensures var (b, n) := PrefetchWindow(m, a, layer, window);
            var s := Absent(a, LayersFrom(m, layer, window));
            Loads(a, b, s) && Charged(m, a, b, s) && n == |s| && NoneLoading(b)
    decreases window
  {
    hide Charged;
    if window == 0 || layer >= m.numLayers {
      assert Absent(a, LayersFrom(m, layer, window)) == {};
      NothingCharged(m, a);
    } else {
      var idxs := m.LayerBlocks(layer);
      PrefetchAllLoads(m, a, idxs);
      var b := PrefetchAll(m, a, idxs).0;
      var s := Absent(a, Members(idxs));
      PrefetchWindowLoads(m, b, layer + 1, window - 1);
      var c := PrefetchWindow(m, b, layer + 1, window - 1).0;
      var t := Absent(b, LayersFrom(m, layer + 1, window - 1));
      assert s !! t;
      WindowSplits(m, a, b, layer, window);
      ChargedThenCharged(m, a, b, c, s, t);
      LoadsThenLoads(a, b, c, s, t);
    }
  }

  lemma WindowSplits(m: Manifest, a: Mapper, b: Mapper, layer: nat, window: nat)
    requires window > 0 && layer < m.numLayers && Loads(a, b, Absent(a, Members(m.LayerBlocks(layer))))
    ensures Absent(a, LayersFrom(m, layer, window))
            == Absent(a, Members(m.LayerBlocks(layer))) + Absent(b, LayersFrom(m, layer + 1, window - 1))
  {
    forall i: nat
      ensures i in Absent(a, LayersFrom(m, layer, window)) <==>
                i in Absent(a, Members(m.LayerBlocks(layer))) || i in Absent(b, LayersFrom(m, layer + 1, window - 1))
    {
      assert i in m.LayerBlocks(layer) <==> i < m.NumBlocks() && m.LayerOf(i) == Some(layer);
    }
  }

  /**
   Prefetching from a layer loads exactly the absent blocks of the layers after it, up to the window and the end of the
   model; counts them as prefetched, loaded and faulted, with their bytes by source; and changes nothing else.
   */
  lemma PrefetchLoadsTheWindow(m: Manifest, a: Mapper, current: nat, window: nat)
    requires Conserved(a) && |a.blocks| == m.NumBlocks()
    ensures var b := PrefetchLayers(m, a, current, window);
            var s := Absent(a, LayersFrom(m, current + 1, window));
            && Loads(a, b, s)
            && PrefetchWindow(m, a, current + 1, window).1 == |s|
            && b.blocksPrefetched == a.blocksPrefetched + |s|
            && Charged(m, a, b.(blocksPrefetched := a.blocksPrefetched), s)
  {
    PrefetchWindowLoads(m, a, current + 1, window);
  }

  // ---------------------------------------------------------------- a layer

  lemma {:induction false} MaterializeAllVisits(m: Manifest, a: Mapper, idxs: seq<nat>)
    requires NoneLoading(a) && InRange(idxs, |a.blocks|) && forall j, k | 0 <= j < k < |idxs| :: idxs[j] != idxs[k]
    ensures var (b, good) := MaterializeAll(m, a, idxs);
            && Loads(a, b, Members(idxs)) && Charged(m, a, b, Absent(a, Members(idxs)))
            && good == |idxs| && NoneLoading(b)
  {
    if idxs == [] {
      assert Absent(a, Members(idxs)) == {};
      NothingCharged(m, a);
    } else {
      var before, i := idxs[..|idxs| - 1], idxs[|idxs| - 1];
      MaterializeAllVisits(m, a, before);
      MembersSnoc(idxs);
      MaterializeOneMore(m, a, idxs);
      assert i !in Members(before);
      hide MaterializeAll, Materialize, Charged;
      VisitOneMore(m, a, MaterializeAll(m, a, before).0, Members(before), i);
    }
  }

  lemma VisitOneMore(m: Manifest, a: Mapper, b: Mapper, s: set<nat>, i: nat)
    requires NoneLoading(b) && i < |a.blocks| && i !in s && Loads(a, b, s) && Charged(m, a, b, Absent(a, s))
    ensures var (c, r) := Materialize(m, b, i);
            && Loads(a, c, s + {i}) && Charged(m, a, c, Absent(a, s + {i})) && NoneLoading(c)
            && (r.Loaded? || r.AlreadyResident?)
  {
    hide Charged, Materialize;
    var c := Materialize(m, b, i).0;
    MaterializeLoads(m, b, i);
    LoadsThenLoads(a, b, c, s, {i});
    ChargeMaterialize(m, b, i);
    var more: set<nat> := if a.blocks[i].status.Resident? then {} else {i};
    assert Absent(a, s + {i}) == Absent(a, s) + more;
    ChargedThenCharged(m, a, b, c, Absent(a, s), more);
  }

  lemma MaterializeOneMore(m: Manifest, a: Mapper, idxs: seq<nat>)
    requires idxs != []
    ensures var (b, good) := MaterializeAll(m, a, idxs[..|idxs| - 1]);
            var (c, r) := Materialize(m, b, idxs[|idxs| - 1]);
            MaterializeAll(m, a, idxs) == (c, good + (if r.Loaded? || r.AlreadyResident? then 1 else 0))
  {
    hide Materialize;
  }

  lemma {:induction false} LayerBlocksDistinct(m: Manifest, layer: nat, n: nat)
    ensures var r := m.LayerBlocksUpTo(layer, n);
            InRange(r, n) && forall j, k | 0 <= j < k < |r| :: r[j] < r[k]
  {
    if n > 0 {
      LayerBlocksDistinct(m, layer, n - 1);
    }
  }

  ghost function LayerSet(m: Manifest, layer: nat): set<nat>
  {
    set i: nat | i < m.NumBlocks() && m.LayerOf(i) == Some(layer)
  }

  lemma LayerMembers(m: Manifest, layer: nat)
    ensures Members(m.LayerBlocks(layer)) == LayerSet(m, layer)
    ensures m.LayerBlocks(layer) == [] <==> LayerSet(m, layer) == {}
  {
    var idxs := m.LayerBlocks(layer);
    assert Members(idxs) == LayerSet(m, layer);
    if idxs != [] { assert idxs[0] in Members(idxs); }
  }

  /**
   Materialising a layer puts exactly its blocks into memory, each warmed by one; loads and charges those that were
   absent; and counts the layer complete, unless it has no blocks.
   */
  lemma MaterializeLayerVisits(m: Manifest, a: Mapper, layer: nat)
    requires Conserved(a) && |a.blocks| == m.NumBlocks()
    ensures var b := MaterializeLayer(m, a, layer);
            var s := LayerSet(m, layer);
            && Loads(a, b, s)
            && Charged(m, a, b.(currentLayer := a.currentLayer, layersComplete := a.layersComplete), Absent(a, s))
            && (if s != {} then b.currentLayer == layer && b.layersComplete == a.layersComplete + 1 else b == a)
  {
    hide Charged, MaterializeAll, LayerSet, CountResident;
    var idxs, s := m.LayerBlocks(layer), LayerSet(m, layer);
    LayerBlocksDistinct(m, layer, m.NumBlocks());
    LayerMembers(m, layer);
    if idxs == [] {
      assert Absent(a, s) == {};
      NothingCharged(m, a);
    } else {
      MaterializeAllVisits(m, a, idxs);
      ChargedIgnoresLayer(m, a, MaterializeAll(m, a, idxs).0, MaterializeLayer(m, a, layer), Absent(a, s));
    }
  }

  lemma ChargedIgnoresLayer(m: Manifest, a: Mapper, b: Mapper, c: Mapper, s: set<nat>)
    requires Charged(m, a, b, s) && c.(currentLayer := b.currentLayer, layersComplete := b.layersComplete) == b
    ensures Charged(m, a, c.(currentLayer := a.currentLayer, layersComplete := a.layersComplete), s)
    ensures b.layersComplete == a.layersComplete
  {
  }
}
