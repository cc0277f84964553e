/** Partition arithmetic, conservation and coverage of the model aperture. */
module MapperProofs {
  import opened Prelude
  import opened MapperModel

  // ---------------------------------------------------------------- the manifest

  function SumSizes(m: Manifest, n: nat): nat
  {
    if n == 0 then 0 else SumSizes(m, n - 1) + m.SizeOf(n - 1)
  }

  lemma {:induction false} SumOfFullBlocks(m: Manifest, n: nat)
    requires n <= m.NumBlocks()
    ensures n < m.NumBlocks() ==> SumSizes(m, n) == n * BLOCK_SIZE
    ensures n == m.NumBlocks() ==> SumSizes(m, n) == m.totalBytes
  {
    if n > 0 {
      SumOfFullBlocks(m, n - 1);
    }
  }

  /** The blocks of a manifest partition the model: their sizes add up to its size, and none is empty. */
  lemma BlocksPartitionTheModel(m: Manifest)
    ensures SumSizes(m, m.NumBlocks()) == m.totalBytes
    ensures forall i: nat | i < m.NumBlocks() :: 0 < m.SizeOf(i) <= BLOCK_SIZE
  {
    SumOfFullBlocks(m, m.NumBlocks());
  }

  /** Block i belongs to a layer that inference visits. */
  predicate Covered(m: Manifest, i: nat)
  {
    m.LayerOf(i).Some? && m.LayerOf(i).value < m.numLayers
  }

  lemma ScaleMonotone(x: nat, y: nat, d: nat)
    requires x <= y
    ensures x * d <= y * d
  {
    assert (y - x) * d == y * d - x * d;
    assert (y - x) * d >= 0;
  }

  lemma QuotientBound(a: nat, d: nat, q: nat)
    requires d > 0
    ensures a / d < q <==> a < q * d
  {
    var k, r := a / d, a % d;
    assert a == k * d + r;
    if k < q {
      ScaleMonotone(k + 1, q, d);
      assert (k + 1) * d == k * d + d;
    } else {
      ScaleMonotone(q, k, d);
    }
  }

  lemma MultipleIff(n: nat, layers: nat)
    requires layers > 0
    ensures n <= layers * (n / layers) <==> n % layers == 0
  {
    assert n == layers * (n / layers) + n % layers;
  }

  /** Inference visits every block exactly when the layers divide the blocks evenly or outnumber them. */
  lemma AllCoveredIff(m: Manifest)
    requires m.numLayers > 0
    ensures (forall i: nat | i < m.NumBlocks() :: Covered(m, i)) <==>
              m.NumBlocks() % m.numLayers == 0 || m.NumBlocks() < m.numLayers
  {
    var n, layers := m.NumBlocks(), m.numLayers;
    var per := m.BlocksPerLayer();
    forall i: nat ensures Covered(m, i) <==> i < layers * per {
      QuotientBound(i, per, layers);
    }
    MultipleIff(n, layers);
    QuotientBound(n, layers, 1);
    if n > layers * per {
      assert !Covered(m, n - 1);
    }
  }

  /** A layer is a stretch of consecutive blocks, as many as go evenly into the layers, but at least one. */
  lemma LayersAreStretches(m: Manifest, i: nat, layer: nat)
    requires m.numLayers > 0
    ensures var per := if m.NumBlocks() / m.numLayers > 0 then m.NumBlocks() / m.numLayers else 1;
            m.LayerOf(i) == Some(layer) <==> layer * per <= i < (layer + 1) * per
  {
    var per := m.BlocksPerLayer();
    QuotientBound(i, per, layer);
    QuotientBound(i, per, layer + 1);
  }

  // ---------------------------------------------------------------- counting residents

  lemma {:induction false} CountAfterUpdate(blocks: seq<ApertureBlock>, i: nat, b: ApertureBlock)
    requires i < |blocks|
    ensures CountResident(blocks[i := b]) == CountResident(blocks)
              - (if blocks[i].status.Resident? then 1 else 0) + (if b.status.Resident? then 1 else 0)
  {
    var n := |blocks| - 1;
    if i < n {
      CountAfterUpdate(blocks[..n], i, b);
      assert blocks[i := b][..n] == blocks[..n][i := b];
    } else {
      assert blocks[i := b][..n] == blocks[..n];
    }
  }

  /** Between calls nothing is loading, and residency is what was materialised minus what was evicted. */
  ghost predicate Conserved(a: Mapper)
  {
    && (forall i | 0 <= i < |a.blocks| :: !a.blocks[i].status.Loading?)
    && CountResident(a.blocks) == a.blocksMaterialized - a.blocksEvicted
  }

  /** From a to b the books stay balanced, no block is forgotten, and only covered blocks are newly mapped. */
  ghost predicate Grew(m: Manifest, a: Mapper, b: Mapper)
  {
    && |b.blocks| == |a.blocks|
    && (Conserved(a) ==> Conserved(b))
    && (forall i | 0 <= i < |a.blocks| && b.blocks[i].status.Unmapped? :: a.blocks[i].status.Unmapped?)
    && (forall i | 0 <= i < |a.blocks| && a.blocks[i].status.Unmapped? && !b.blocks[i].status.Unmapped? :: Covered(m, i))
  }

  lemma GrewThenGrew(m: Manifest, a: Mapper, b: Mapper, c: Mapper)
    requires Grew(m, a, b) && Grew(m, b, c)
    ensures Grew(m, a, c)
  {
  }

  lemma MaterializeConserves(m: Manifest, a: Mapper, i: nat)
    ensures Conserved(a) ==> Conserved(Materialize(m, a, i).0)
    ensures i < |a.blocks| && Conserved(a) ==> Materialize(m, a, i).0.blocks[i].status.Resident?
    ensures forall j | 0 <= j < |a.blocks| && j != i :: Materialize(m, a, i).0.blocks[j] == a.blocks[j]
  {
    if i < |a.blocks| {
      CountAfterUpdate(a.blocks, i, Materialize(m, a, i).0.blocks[i]);
    }
  }

  lemma MaterializeGrows(m: Manifest, a: Mapper, i: nat)
    requires Covered(m, i) && Conserved(a)
    ensures Grew(m, a, Materialize(m, a, i).0)
  {
    hide CountResident;
    MaterializeConserves(m, a, i);
  }

  ghost predicate AllCovered(m: Manifest, idxs: seq<nat>)
  {
    forall k | 0 <= k < |idxs| :: Covered(m, idxs[k])
  }

  ghost predicate AllMapped(a: Mapper, idxs: seq<nat>)
  {
    forall k | 0 <= k < |idxs| && idxs[k] < |a.blocks| :: !a.blocks[idxs[k]].status.Unmapped?
  }

  lemma {:induction false} MaterializeAllGrows(m: Manifest, a: Mapper, idxs: seq<nat>)
    requires AllCovered(m, idxs) && Conserved(a)
    ensures Grew(m, a, MaterializeAll(m, a, idxs).0) && AllMapped(MaterializeAll(m, a, idxs).0, idxs)
  {
    hide Conserved, Covered;
    if idxs != [] {
      var n := |idxs| - 1;
      MaterializeAllGrows(m, a, idxs[..n]);
      var a1 := MaterializeAll(m, a, idxs[..n]).0;
      MaterializeConserves(m, a1, idxs[n]);
      MaterializeGrows(m, a1, idxs[n]);
      GrewThenGrew(m, a, a1, Materialize(m, a1, idxs[n]).0);
    }
  }

  lemma {:induction false} PrefetchAllGrows(m: Manifest, a: Mapper, idxs: seq<nat>)
    requires AllCovered(m, idxs) && Conserved(a)
    ensures Grew(m, a, PrefetchAll(m, a, idxs).0)
  {
    hide Conserved, Covered, Materialize;
    if idxs != [] {
      var n := |idxs| - 1;
      PrefetchAllGrows(m, a, idxs[..n]);
      var a1 := PrefetchAll(m, a, idxs[..n]).0;
      MaterializeGrows(m, a1, idxs[n]);
      GrewThenGrew(m, a, a1, Materialize(m, a1, idxs[n]).0);
    }
  }

  lemma LayerBlocksCovered(m: Manifest, layer: nat)
    requires layer < m.numLayers
    ensures AllCovered(m, m.LayerBlocks(layer))
  {
    var idxs := m.LayerBlocks(layer);
    assert forall k | 0 <= k < |idxs| :: idxs[k] in idxs;
  }

  lemma MaterializeLayerGrows(m: Manifest, a: Mapper, layer: nat)
    requires layer < m.numLayers && Conserved(a)
    ensures Grew(m, a, MaterializeLayer(m, a, layer)) && AllMapped(MaterializeLayer(m, a, layer), m.LayerBlocks(layer))
  {
    LayerBlocksCovered(m, layer);
    MaterializeAllGrows(m, a, m.LayerBlocks(layer));
  }

  lemma {:induction false} PrefetchWindowGrows(m: Manifest, a: Mapper, layer: nat, window: nat)
    requires Conserved(a)
    ensures Grew(m, a, PrefetchWindow(m, a, layer, window).0)
    decreases window
  {
    hide Conserved, Covered, PrefetchAll;
    if window > 0 && layer < m.numLayers {
      LayerBlocksCovered(m, layer);
      PrefetchAllGrows(m, a, m.LayerBlocks(layer));
      var a1 := PrefetchAll(m, a, m.LayerBlocks(layer)).0;
      PrefetchWindowGrows(m, a1, layer + 1, window - 1);
      GrewThenGrew(m, a, a1, PrefetchWindow(m, a1, layer + 1, window - 1).0);
    }
  }

  // ---------------------------------------------------------------- eviction order

  /** Strictly colder to hotter. */
  ghost predicate Ordered(blocks: seq<ApertureBlock>, idxs: seq<nat>)
    requires InRange(idxs, |blocks|)
  {
    forall j, k | 0 <= j < k < |idxs| :: Colder(blocks, idxs[j], idxs[k])
  }

  /** An insertion adds only the new element. */
  lemma InsertMembers(blocks: seq<ApertureBlock>, sorted: seq<nat>, i: nat, k: nat)
    requires i < |blocks| && InRange(sorted, |blocks|) && k < |InsertStable(blocks, sorted, i)|
    ensures InsertStable(blocks, sorted, i)[k] == i || InsertStable(blocks, sorted, i)[k] in sorted
  {
    InsertKeeps(blocks, sorted, i);
    var r := InsertStable(blocks, sorted, i);
    assert r[k] in multiset(r);
  }

  lemma {:induction false} InsertOrders(blocks: seq<ApertureBlock>, sorted: seq<nat>, i: nat)
    requires i < |blocks| && InRange(sorted, |blocks|) && Ordered(blocks, sorted)
    requires forall k | 0 <= k < |sorted| :: sorted[k] < i
    ensures InRange(InsertStable(blocks, sorted, i), |blocks|) && Ordered(blocks, InsertStable(blocks, sorted, i))
  {
    InsertKeeps(blocks, sorted, i);
    if sorted != [] {
      var n := |sorted| - 1;
      var less := sorted[..n];
      if blocks[sorted[n]].accessCount > blocks[i].accessCount {
        InsertOrders(blocks, less, i);
        InsertKeeps(blocks, less, i);
        forall k | 0 <= k < |InsertStable(blocks, less, i)|
          ensures Colder(blocks, InsertStable(blocks, less, i)[k], sorted[n])
        {
          InsertMembers(blocks, less, i, k);
        }
        OrderedSnoc(blocks, InsertStable(blocks, less, i), sorted[n]);
      } else {
        forall k | 0 <= k < |sorted| ensures Colder(blocks, sorted[k], i) {
          if k < n { assert Colder(blocks, sorted[k], sorted[n]); }
        }
        OrderedSnoc(blocks, sorted, i);
      }
    }
  }

  lemma OrderedSnoc(blocks: seq<ApertureBlock>, s: seq<nat>, x: nat)
    requires InRange(s, |blocks|) && x < |blocks| && Ordered(blocks, s)
    requires forall k | 0 <= k < |s| :: Colder(blocks, s[k], x)
    ensures Ordered(blocks, s + [x])
  {
  }

  lemma {:induction false} SortOrders(blocks: seq<ApertureBlock>, idxs: seq<nat>)
    requires InRange(idxs, |blocks|) && forall j, k | 0 <= j < k < |idxs| :: idxs[j] < idxs[k]
    ensures Ordered(blocks, SortByAccess(blocks, idxs))
  {
    if idxs != [] {
      var n := |idxs| - 1;
      SortOrders(blocks, idxs[..n]);
      var sorted := SortByAccess(blocks, idxs[..n]);
      forall k | 0 <= k < |sorted| ensures sorted[k] < idxs[n] {
        assert sorted[k] in multiset(sorted);
        assert sorted[k] in multiset(idxs[..n]);
        var j :| 0 <= j < n && idxs[j] == sorted[k];
      }
      InsertOrders(blocks, sorted, idxs[n]);
    }
  }

  /** Exactly the blocks of out left: they are marked evicted and counted, every other block is untouched. */
  ghost predicate Departed(a: Mapper, b: Mapper, out: seq<nat>)
  {
    && |b.blocks| == |a.blocks| && InRange(out, |a.blocks|)
    && b == a.(blocks := b.blocks, blocksEvicted := a.blocksEvicted + |out|)
    && CountResident(b.blocks) == CountResident(a.blocks) - |out|
    && (forall i: nat | i < |a.blocks| ::
          b.blocks[i] == if i in out then a.blocks[i].(status := Evicted) else a.blocks[i])
  }

  /** How many blocks an eviction call takes out. */
  function EvictionCount(a: Mapper, target: nat): nat
  {
    Min(target, SatSub(CountResident(a.blocks), MIN_RESIDENT))
  }

  lemma {:induction false} EvictDownTakesPrefix(a: Mapper, sorted: seq<nat>, target: nat)
    requires InRange(sorted, |a.blocks|) && |sorted| == CountResident(a.blocks)
    requires forall j, k | 0 <= j < k < |sorted| :: sorted[j] != sorted[k]
    requires forall k | 0 <= k < |sorted| :: a.blocks[sorted[k]].status.Resident?
    ensures EvictionCount(a, target) <= |sorted|
    ensures var (b, n) := EvictDown(a, sorted, target);
            n == EvictionCount(a, target) && Departed(a, b, sorted[..n])
    decreases |sorted|
  {
    hide CountResident;
    if sorted != [] && target > 0 && CountResident(a.blocks) > MIN_RESIDENT {
      hide Departed;
      var a1 := EvictOne(a, sorted[0]);
      CountAfterUpdate(a.blocks, sorted[0], a1.blocks[sorted[0]]);
      var rest := sorted[1..];
      EvictDownTakesPrefix(a1, rest, target - 1);
      var (b, n) := EvictDown(a1, rest, target - 1);
      assert sorted[..n + 1] == [sorted[0]] + rest[..n];
      assert sorted[0] !in rest[..n];
      DepartedThenDeparted(a, a1, b, sorted[0], rest[..n]);
    }
  }

  lemma DepartedThenDeparted(a: Mapper, a1: Mapper, b: Mapper, i: nat, out: seq<nat>)
    requires i < |a.blocks| && a1 == EvictOne(a, i) && CountResident(a1.blocks) == CountResident(a.blocks) - 1
    requires Departed(a1, b, out) && i !in out
    ensures Departed(a, b, [i] + out)
  {
    hide CountResident;
  }

  /**
   Evicting for a target takes out exactly as many blocks as the target allows while four stay, and every block
   that goes is colder than every block that stays, lower index first among equals.
   */
  lemma EvictsTheColdest(a: Mapper, target: nat) returns (out: seq<nat>)
    ensures |out| == EvictionCount(a, target) && EvictCold(a, target).1 == |out|
    ensures Departed(a, EvictCold(a, target).0, out)
    ensures forall k | 0 <= k < |out| :: a.blocks[out[k]].status.Resident?
    ensures forall k, j: nat | 0 <= k < |out| && j < |a.blocks| && EvictCold(a, target).0.blocks[j].status.Resident? ::
              Colder(a.blocks, out[k], j)
  {
    hide CountResident, ResidentIndices, SortByAccess, EvictDown, Ordered, Colder;
    var residents := ResidentIndices(a.blocks);
    ResidentsInRange(a.blocks);
    var sorted := SortByAccess(a.blocks, residents);
    SortOrders(a.blocks, residents);
    SortedAreResidents(a.blocks);
    EvictDownTakesPrefix(a, sorted, target);
    var (b, n) := EvictDown(a, sorted, target);
    out := sorted[..n];
    forall k, j: nat | 0 <= k < |out| && j < |a.blocks| && b.blocks[j].status.Resident?
      ensures Colder(a.blocks, out[k], j)
    {
      SurvivorIsHotter(a.blocks, sorted, n, k, j);
    }
  }

  lemma SurvivorIsHotter(blocks: seq<ApertureBlock>, sorted: seq<nat>, n: nat, k: nat, j: nat)
    requires InRange(sorted, |blocks|) && Ordered(blocks, sorted) && k < n <= |sorted|
    requires multiset(sorted) == multiset(ResidentIndices(blocks))
    requires j < |blocks| && blocks[j].status.Resident? && j !in sorted[..n]
    ensures Colder(blocks, sorted[k], j)
  {
    assert j in multiset(ResidentIndices(blocks)) && j in multiset(sorted);
    var p :| 0 <= p < |sorted| && sorted[p] == j;
    assert forall q | 0 <= q < n :: sorted[q] == sorted[..n][q] && sorted[..n][q] in sorted[..n];
    assert Colder(blocks, sorted[k], sorted[p]);
  }

  lemma ResidentsInRange(blocks: seq<ApertureBlock>)
    ensures InRange(ResidentIndices(blocks), |blocks|)
  {
    var r := ResidentIndices(blocks);
    assert forall k | 0 <= k < |r| :: r[k] in r;
  }

  lemma SortedAreResidents(blocks: seq<ApertureBlock>)
    requires InRange(ResidentIndices(blocks), |blocks|) && Ordered(blocks, SortByAccess(blocks, ResidentIndices(blocks)))
    ensures var sorted := SortByAccess(blocks, ResidentIndices(blocks));
            && |sorted| == CountResident(blocks)
            && (forall j, k | 0 <= j < k < |sorted| :: sorted[j] != sorted[k])
            && (forall k | 0 <= k < |sorted| :: blocks[sorted[k]].status.Resident?)
  {
    var residents := ResidentIndices(blocks);
    var sorted := SortByAccess(blocks, residents);
    assert |multiset(sorted)| == |multiset(residents)|;
    forall j, k | 0 <= j < k < |sorted| ensures sorted[j] != sorted[k] {
      assert Colder(blocks, sorted[j], sorted[k]);
    }
    forall k | 0 <= k < |sorted| ensures blocks[sorted[k]].status.Resident? {
      assert sorted[k] in multiset(sorted) && sorted[k] in multiset(residents);
    }
  }

  lemma EvictionGrows(m: Manifest, a: Mapper, target: nat)
    ensures Grew(m, a, EvictCold(a, target).0)
    ensures CountResident(EvictCold(a, target).0.blocks) == CountResident(a.blocks) - EvictionCount(a, target)
  {
    hide EvictCold, CountResident;
    var out := EvictsTheColdest(a, target);
  }

  // ---------------------------------------------------------------- inference

  lemma PrefetchLayersGrows(m: Manifest, a: Mapper, layer: nat, window: nat)
    requires Conserved(a)
    ensures Grew(m, a, PrefetchLayers(m, a, layer, window))
  {
    hide PrefetchWindow;
    PrefetchWindowGrows(m, a, layer + 1, window);
  }

  /** One layer of inference: the books stay balanced, the layer's blocks are all mapped, and residency ends
      within the budget or the four-block working set, whichever is larger. */
  lemma InferLayerEffect(m: Manifest, a: Mapper, layer: nat, window: nat, budget: nat)
    requires layer < m.numLayers && Conserved(a)
    ensures var b := InferLayer(m, a, layer, window, budget);
            && Grew(m, a, b) && AllMapped(b, m.LayerBlocks(layer))
            && CountResident(b.blocks) <= Max(budget, MIN_RESIDENT)
  {
    hide MaterializeLayer, PrefetchLayers, EvictCold, CountResident, Conserved, Covered;
    MaterializeLayerGrows(m, a, layer);
    var a1 := MaterializeLayer(m, a, layer);
    PrefetchLayersGrows(m, a1, layer, window);
    var a2 := PrefetchLayers(m, a1, layer, window);
    GrewThenGrew(m, a, a1, a2);
    var n := CountResident(a2.blocks);
    if n > budget {
      EvictionGrows(m, a2, n - budget);
      GrewThenGrew(m, a, a2, EvictCold(a2, n - budget).0);
    }
  }

  lemma {:induction false} InferUpToEffect(m: Manifest, a: Mapper, layers: nat, window: nat, budget: nat)
    requires layers <= m.numLayers && Conserved(a)
    ensures var b := InferUpTo(m, a, layers, window, budget);
            && Grew(m, a, b)
            && (forall i: nat, l: nat | i < |a.blocks| && i < m.NumBlocks() && l < layers && m.LayerOf(i) == Some(l) :: !b.blocks[i].status.Unmapped?)
            && (layers > 0 ==> CountResident(b.blocks) <= Max(budget, MIN_RESIDENT))
  {
    hide InferLayer, CountResident, Conserved, Covered;
    if layers > 0 {
      InferUpToEffect(m, a, layers - 1, window, budget);
      var b := InferUpTo(m, a, layers - 1, window, budget);
      InferLayerEffect(m, b, layers - 1, window, budget);
      var c := InferUpTo(m, a, layers, window, budget);
      GrewThenGrew(m, a, b, c);
      forall i: nat, l: nat | i < |a.blocks| && i < m.NumBlocks() && l < layers && m.LayerOf(i) == Some(l)
        ensures !c.blocks[i].status.Unmapped?
      {
        if l == layers - 1 {
          var idxs := m.LayerBlocks(l);
          assert i in idxs;
          var k :| 0 <= k < |idxs| && idxs[k] == i;
        }
      }
    }
  }

  lemma NewMapperConserved(m: Manifest)
    ensures Conserved(NewMapper(m))
  {
    NoneResident(NewMapper(m).blocks);
  }

  lemma {:induction false} NoneResident(blocks: seq<ApertureBlock>)
    requires forall i | 0 <= i < |blocks| :: !blocks[i].status.Resident?
    ensures CountResident(blocks) == 0
  {
    if blocks != [] {
      NoneResident(blocks[..|blocks| - 1]);
    }
  }

  /**
   Inference over a fresh aperture materialises exactly the blocks whose layer it visits, so all of them exactly
   when the layers divide the blocks or outnumber them; it ends with balanced books and within the budget.
   */
  lemma InferenceCoverage(m: Manifest, window: nat, budget: nat)
    requires m.numLayers > 0
    ensures var b := SimulateInference(m, NewMapper(m), window, budget);
            && |b.blocks| == m.NumBlocks() && Conserved(b)
            && (forall i: nat | i < m.NumBlocks() :: !b.blocks[i].status.Unmapped? <==> Covered(m, i))
            && ((forall i: nat | i < m.NumBlocks() :: !b.blocks[i].status.Unmapped?) <==>
                  m.NumBlocks() % m.numLayers == 0 || m.NumBlocks() < m.numLayers)
            && CountResident(b.blocks) <= Max(budget, MIN_RESIDENT)
  {
    hide InferUpTo, CountResident, Conserved;
    var a := NewMapper(m);
    NewMapperConserved(m);
    InferUpToEffect(m, a, m.numLayers, window, budget);
    AllCoveredIff(m);
  }

  // ---------------------------------------------------------------- arbitrary use

  datatype Op =
    | MaterializeOp(block: nat)
    | LayerOp(layer: nat)
    | PrefetchOp(layer: nat, window: nat)
    | EvictOp(target: nat)
    | InferOp(window: nat, budget: nat)

  function Step(m: Manifest, a: Mapper, op: Op): Mapper
  {
    match op
    case MaterializeOp(i) => Materialize(m, a, i).0
    case LayerOp(l) => MaterializeLayer(m, a, l)
    case PrefetchOp(l, w) => PrefetchLayers(m, a, l, w)
    case EvictOp(t) => EvictCold(a, t).0
    case InferOp(w, b) => SimulateInference(m, a, w, b)
  }

  function Run(m: Manifest, ops: seq<Op>): Mapper
  {
    if ops == [] then NewMapper(m) else Step(m, Run(m, ops[..|ops| - 1]), ops[|ops| - 1])
  }

  lemma {:induction false} MaterializeAllConserves(m: Manifest, a: Mapper, idxs: seq<nat>)
    requires Conserved(a)
    ensures Conserved(MaterializeAll(m, a, idxs).0)
  {
    hide Conserved, Materialize;
    if idxs != [] {
      MaterializeAllConserves(m, a, idxs[..|idxs| - 1]);
      MaterializeConserves(m, MaterializeAll(m, a, idxs[..|idxs| - 1]).0, idxs[|idxs| - 1]);
    }
  }

  lemma StepConserves(m: Manifest, a: Mapper, op: Op)
    requires Conserved(a)
    ensures Conserved(Step(m, a, op))
  {
    hide CountResident, Materialize, MaterializeAll, PrefetchLayers, EvictCold, InferUpTo;
    match op
    case MaterializeOp(i) => MaterializeConserves(m, a, i);
    case LayerOp(l) => MaterializeAllConserves(m, a, m.LayerBlocks(l));
    case PrefetchOp(l, w) => PrefetchLayersGrows(m, a, l, w);
    case EvictOp(t) => EvictionGrows(m, a, t);
    case InferOp(w, b) => InferUpToEffect(m, a, m.numLayers, w, b);
  }

  /** Conservation over every run: nothing stays loading, and residency is materialised minus evicted. */
  lemma {:induction false} RunConserves(m: Manifest, ops: seq<Op>)
    ensures Conserved(Run(m, ops))
  {
    hide Step, Conserved;
    if ops == [] {
      NewMapperConserved(m);
    } else {
      RunConserves(m, ops[..|ops| - 1]);
      StepConserves(m, Run(m, ops[..|ops| - 1]), ops[|ops| - 1]);
    }
  }
}
