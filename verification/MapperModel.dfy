/** The DIME aperture (llm_mapper.rs): a model's block layout and the residency of its blocks. */
module MapperModel {
  import opened Prelude

  const BLOCK_SIZE: nat := 2 * 1024 * 1024
  const MIN_RESIDENT: nat := 4

  // ---------------------------------------------------------------- the manifest

  datatype Manifest = Manifest(totalBytes: nat, numLayers: nat)
  {
    function NumBlocks(): nat
    {
      (totalBytes + BLOCK_SIZE - 1) / BLOCK_SIZE
    }

    /** The last block takes the remainder, or a full block if there is none. */
    function SizeOf(i: nat): nat
    {
      if i == NumBlocks() - 1 then
        if totalBytes % BLOCK_SIZE > 0 then totalBytes % BLOCK_SIZE else BLOCK_SIZE
      else BLOCK_SIZE
    }

    function BlocksPerLayer(): (n: nat)
      ensures n > 0
    {
      if numLayers > 0 then Max(NumBlocks() / numLayers, 1) else Max(NumBlocks(), 1)
    }

    function LayerOf(i: nat): Option<nat>
    {
      if numLayers > 0 then Some(i / BlocksPerLayer()) else None
    }

    /** The first n blocks of the model that belong to a layer, in order. */
    function LayerBlocksUpTo(layer: nat, n: nat): (r: seq<nat>)
      ensures forall i: nat :: i in r <==> i < n && LayerOf(i) == Some(layer)
    {
      if n == 0 then []
      else
        var rest := LayerBlocksUpTo(layer, n - 1);
        if LayerOf(n - 1) == Some(layer) then rest + [n - 1] else rest
    }

    function LayerBlocks(layer: nat): seq<nat>
    {
      LayerBlocksUpTo(layer, NumBlocks())
    }
  }

  // ---------------------------------------------------------------- the aperture

  datatype Status = Unmapped | Loading | Resident | Evicted

  datatype ApertureBlock = ApertureBlock(status: Status, accessCount: nat)

  datatype Mapper = Mapper(
    blocks: seq<ApertureBlock>,
    faultsHandled: nat,
    blocksMaterialized: nat,
    blocksEvicted: nat,
    blocksPrefetched: nat,
    bytesFromRemote: nat,
    bytesFromLocal: nat,
    currentLayer: nat,
    layersComplete: nat)

  function NewMapper(m: Manifest): Mapper
  {
    Mapper(seq(m.NumBlocks(), _ => ApertureBlock(Unmapped, 0)), 0, 0, 0, 0, 0, 0, 0, 0)
  }

  datatype MaterializeResult = OutOfRange | AlreadyResident | InProgress | Loaded(block: nat, remote: bool)

  /** An absent block is loaded and counted, a resident one is only touched. */
  function Materialize(m: Manifest, a: Mapper, i: nat): (r: (Mapper, MaterializeResult))
    ensures |r.0.blocks| == |a.blocks|
  {
    if i >= |a.blocks| then (a, OutOfRange)
    else
      var b := a.blocks[i];
      match b.status
      case Resident => (a.(blocks := a.blocks[i := b.(accessCount := b.accessCount + 1)]), AlreadyResident)
      case Loading => (a, InProgress)
      case _ =>
        var remote := i % 2 == 1;
        (a.(blocks := a.blocks[i := ApertureBlock(Resident, b.accessCount + 1)],
            faultsHandled := a.faultsHandled + 1,
            blocksMaterialized := a.blocksMaterialized + 1,
            bytesFromRemote := a.bytesFromRemote + (if remote then m.SizeOf(i) else 0),
            bytesFromLocal := a.bytesFromLocal + (if remote then 0 else m.SizeOf(i))),
         Loaded(i, remote))
  }

  /** Materialise a list of blocks, counting those that end up usable. */
  function MaterializeAll(m: Manifest, a: Mapper, idxs: seq<nat>): (r: (Mapper, nat))
    ensures |r.0.blocks| == |a.blocks|
  {
    if idxs == [] then (a, 0)
    else
      var (a1, good) := MaterializeAll(m, a, idxs[..|idxs| - 1]);
      var (a2, r) := Materialize(m, a1, idxs[|idxs| - 1]);
      (a2, good + (if r.Loaded? || r.AlreadyResident? then 1 else 0))
  }

  function MaterializeLayer(m: Manifest, a: Mapper, layer: nat): (r: Mapper)
    ensures |r.blocks| == |a.blocks|
  {
    var idxs := m.LayerBlocks(layer);
    if idxs == [] then a
    else
      var (a1, good) := MaterializeAll(m, a, idxs);
      a1.(currentLayer := layer, layersComplete := a1.layersComplete + (if good == |idxs| then 1 else 0))
  }

  /** Prefetch only the blocks that are not there, counting each. */
  function PrefetchAll(m: Manifest, a: Mapper, idxs: seq<nat>): (r: (Mapper, nat))
    ensures |r.0.blocks| == |a.blocks|
  {
    if idxs == [] then (a, 0)
    else
      var (a1, n) := PrefetchAll(m, a, idxs[..|idxs| - 1]);
      var i := idxs[|idxs| - 1];
      if i < |a1.blocks| && (a1.blocks[i].status.Unmapped? || a1.blocks[i].status.Evicted?) then
        (Materialize(m, a1, i).0, n + 1)
      else (a1, n)
  }

  /** The layers after the current one, up to the window or the end of the model. */
  function PrefetchWindow(m: Manifest, a: Mapper, layer: nat, window: nat): (r: (Mapper, nat))
    ensures |r.0.blocks| == |a.blocks|
    decreases window
  {
    if window == 0 || layer >= m.numLayers then (a, 0)
    else
      var (a1, n) := PrefetchAll(m, a, m.LayerBlocks(layer));
      var (a2, k) := PrefetchWindow(m, a1, layer + 1, window - 1);
      (a2, n + k)
  }

  function PrefetchLayers(m: Manifest, a: Mapper, current: nat, window: nat): (r: Mapper)
    ensures |r.blocks| == |a.blocks|
  {
    var (a1, n) := PrefetchWindow(m, a, current + 1, window);
    a1.(blocksPrefetched := a1.blocksPrefetched + n)
  }

  // ---------------------------------------------------------------- eviction

  function CountResident(blocks: seq<ApertureBlock>): (n: nat)
    ensures n <= |blocks|
  {
    if blocks == [] then 0
    else CountResident(blocks[..|blocks| - 1]) + (if blocks[|blocks| - 1].status.Resident? then 1 else 0)
  }

  function ResidentIndices(blocks: seq<ApertureBlock>): (r: seq<nat>)
    ensures forall i: nat :: i in r <==> i < |blocks| && blocks[i].status.Resident?
    ensures |r| == CountResident(blocks) && InRange(r, |blocks|)
    ensures forall j, k | 0 <= j < k < |r| :: r[j] < r[k]
  {
    if blocks == [] then []
    else
      var n := |blocks| - 1;
      var rest := ResidentIndices(blocks[..n]);
      assert forall k | 0 <= k < |rest| :: rest[k] in rest;
      if blocks[n].status.Resident? then rest + [n] else rest
  }

  /** Colder first; among equals, the lower index first. */
  predicate Colder(blocks: seq<ApertureBlock>, i: nat, j: nat)
    requires i < |blocks| && j < |blocks|
  {
    blocks[i].accessCount < blocks[j].accessCount || (blocks[i].accessCount == blocks[j].accessCount && i < j)
  }

  /** Insert behind every element that is no hotter: one step of a stable sort. */
  function InsertStable(blocks: seq<ApertureBlock>, sorted: seq<nat>, i: nat): seq<nat>
    requires i < |blocks| && InRange(sorted, |blocks|)
  {
    if sorted == [] then [i]
    else
      var n := |sorted| - 1;
      if blocks[sorted[n]].accessCount <= blocks[i].accessCount then sorted + [i]
      else InsertStable(blocks, sorted[..n], i) + [sorted[n]]
  }

  function SortByAccess(blocks: seq<ApertureBlock>, idxs: seq<nat>): (r: seq<nat>)
    requires InRange(idxs, |blocks|)
    ensures multiset(r) == multiset(idxs) && InRange(r, |blocks|)
  {
    if idxs == [] then []
    else
      var n := |idxs| - 1;
      var sorted := SortByAccess(blocks, idxs[..n]);
      InsertKeeps(blocks, sorted, idxs[n]);
      assert idxs == idxs[..n] + [idxs[n]];
      InsertStable(blocks, sorted, idxs[n])
  }

  lemma {:induction false} InsertKeeps(blocks: seq<ApertureBlock>, sorted: seq<nat>, i: nat)
    requires i < |blocks| && InRange(sorted, |blocks|)
    ensures multiset(InsertStable(blocks, sorted, i)) == multiset(sorted) + multiset{i}
    ensures InRange(InsertStable(blocks, sorted, i), |blocks|)
    ensures |InsertStable(blocks, sorted, i)| == |sorted| + 1
  {
    var r := InsertStable(blocks, sorted, i);
    if sorted != [] {
      var n := |sorted| - 1;
      var less := sorted[..n];
      InsertKeeps(blocks, less, i);
      assert sorted == less + [sorted[n]];
      if blocks[sorted[n]].accessCount > blocks[i].accessCount {
        var more := InsertStable(blocks, less, i);
        assert r == more + [sorted[n]];
        assert multiset(r) == multiset(more) + multiset{sorted[n]};
        assert multiset(sorted) == multiset(less) + multiset{sorted[n]};
      } else {
        assert multiset(r) == multiset(sorted) + multiset{i};
      }
    }
  }

  function EvictOne(a: Mapper, i: nat): Mapper
    requires i < |a.blocks|
  {
    a.(blocks := a.blocks[i := a.blocks[i].(status := Evicted)], blocksEvicted := a.blocksEvicted + 1)
  }

  /** Evict down the sorted list until the target is met or the working set is reached. */
  function EvictDown(a: Mapper, sorted: seq<nat>, target: nat): (r: (Mapper, nat))
    requires InRange(sorted, |a.blocks|)
    ensures |r.0.blocks| == |a.blocks|
    decreases |sorted|
  {
    if sorted == [] || target == 0 || CountResident(a.blocks) <= MIN_RESIDENT then (a, 0)
    else
      var (b, n) := EvictDown(EvictOne(a, sorted[0]), sorted[1..], target - 1);
      (b, n + 1)
  }

  function EvictCold(a: Mapper, target: nat): (r: (Mapper, nat))
    ensures |r.0.blocks| == |a.blocks|
  {
    EvictDown(a, SortByAccess(a.blocks, ResidentIndices(a.blocks)), target)
  }

  // ---------------------------------------------------------------- inference

  function InferLayer(m: Manifest, a: Mapper, layer: nat, window: nat, budget: nat): (r: Mapper)
    ensures |r.blocks| == |a.blocks|
  {
    var a1 := MaterializeLayer(m, a, layer);
    var a2 := PrefetchLayers(m, a1, layer, window);
    var n := CountResident(a2.blocks);
    if n > budget then EvictCold(a2, n - budget).0 else a2
  }

  function InferUpTo(m: Manifest, a: Mapper, layers: nat, window: nat, budget: nat): (r: Mapper)
    ensures |r.blocks| == |a.blocks|
  {
    if layers == 0 then a else InferLayer(m, InferUpTo(m, a, layers - 1, window, budget), layers - 1, window, budget)
  }

  function SimulateInference(m: Manifest, a: Mapper, window: nat, budget: nat): (r: Mapper)
    ensures |r.blocks| == |a.blocks|
  {
    InferUpTo(m, a, m.numLayers, window, budget)
  }
}
