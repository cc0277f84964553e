/** LlmMemoryMapper (llm_mapper.rs): the aperture as it is updated in place, refining MapperModel. */
module LlmMapper {
  import opened Prelude
  import opened MapperModel

  class LlmMemoryMapper {
    const manifest: Manifest
    const window: nat
    const budget: nat
    var aperture: seq<ApertureBlock>
    var faultsHandled: nat
    var blocksMaterialized: nat
    var blocksEvicted: nat
    var blocksPrefetched: nat
    var bytesFromRemote: nat
    var bytesFromLocal: nat
    var currentLayer: nat
    var layersComplete: nat

    ghost function State(): Mapper
      reads this
    {
      Mapper(aperture, faultsHandled, blocksMaterialized, blocksEvicted, blocksPrefetched,
             bytesFromRemote, bytesFromLocal, currentLayer, layersComplete)
    }

    constructor (manifest: Manifest, window: nat, budget: nat)
      ensures this.manifest == manifest && this.window == window && this.budget == budget
      ensures State() == NewMapper(manifest)
    {
      this.manifest, this.window, this.budget := manifest, window, budget;
      aperture := seq(manifest.NumBlocks(), _ => ApertureBlock(Unmapped, 0));
      faultsHandled, blocksMaterialized, blocksEvicted, blocksPrefetched := 0, 0, 0, 0;
      bytesFromRemote, bytesFromLocal, currentLayer, layersComplete := 0, 0, 0, 0;
    }

    method MaterializeBlock(i: nat) returns (r: MaterializeResult)
      modifies this
      ensures (State(), r) == Materialize(manifest, old(State()), i)
    {
      if i >= |aperture| { return OutOfRange; }
      var b := aperture[i];
      match b.status
      case Resident =>
        aperture := aperture[i := b.(accessCount := b.accessCount + 1)];
        r := AlreadyResident;
      case Loading =>
        r := InProgress;
      case _ =>
        aperture := aperture[i := b.(status := Loading)];
        var remote := i % 2 == 1;
        aperture := aperture[i := aperture[i].(status := Resident)];
        aperture := aperture[i := aperture[i].(accessCount := aperture[i].accessCount + 1)];
        assert aperture == old(aperture)[i := ApertureBlock(Resident, b.accessCount + 1)];
        faultsHandled := faultsHandled + 1;
        blocksMaterialized := blocksMaterialized + 1;
        if remote {
          bytesFromRemote := bytesFromRemote + manifest.SizeOf(i);
        } else {
          bytesFromLocal := bytesFromLocal + manifest.SizeOf(i);
        }
        r := Loaded(i, remote);
    }

    /** The counts returned are of this call: loads, hits, and where the loads came from. */
    method MaterializeWholeLayer(layer: nat) returns (loaded: nat, already: nat, fromRemote: nat, fromLocal: nat)
      modifies this
      ensures State() == MaterializeLayer(manifest, old(State()), layer)
      ensures loaded == fromRemote + fromLocal
      ensures loaded + already == MaterializeAll(manifest, old(State()), manifest.LayerBlocks(layer)).1
    {
      var idxs := manifest.LayerBlocks(layer);
      loaded, already, fromRemote, fromLocal := 0, 0, 0, 0;
      if idxs == [] { return; }
      var k := 0;
      while k < |idxs|
        invariant 0 <= k <= |idxs|
        invariant (State(), loaded + already) == MaterializeAll(manifest, old(State()), idxs[..k])
        invariant loaded == fromRemote + fromLocal
      {
        hide Materialize;
        assert idxs[..k + 1][..k] == idxs[..k];
        var r := MaterializeBlock(idxs[k]);
        match r {
          case Loaded(_, remote) =>
            loaded := loaded + 1;
            if remote { fromRemote := fromRemote + 1; } else { fromLocal := fromLocal + 1; }
          case AlreadyResident =>
            already := already + 1;
          case _ =>
        }
        k := k + 1;
      }
      assert idxs[..k] == idxs;
      currentLayer := layer;
      if loaded + already == |idxs| {
        layersComplete := layersComplete + 1;
      }
    }

    method PrefetchOneLayer(layer: nat) returns (n: nat)
      modifies this
      ensures (State(), n) == PrefetchAll(manifest, old(State()), manifest.LayerBlocks(layer))
    {
      var idxs := manifest.LayerBlocks(layer);
      n := 0;
      var k := 0;
      while k < |idxs|
        invariant 0 <= k <= |idxs|
        invariant (State(), n) == PrefetchAll(manifest, old(State()), idxs[..k])
      {
        hide Materialize;
        assert idxs[..k + 1][..k] == idxs[..k];
        var i := idxs[k];
        if i < |aperture| && (aperture[i].status.Unmapped? || aperture[i].status.Evicted?) {
          var _ := MaterializeBlock(i);
          n := n + 1;
        }
        k := k + 1;
      }
      assert idxs[..k] == idxs;
    }

    method Prefetch(current: nat) returns (total: nat)
      modifies this
      ensures State() == PrefetchLayers(manifest, old(State()), current, window)
      ensures total == PrefetchWindow(manifest, old(State()), current + 1, window).1
    {
      hide PrefetchAll;
      total := 0;
      var layer := current + 1;
      ghost var whole := PrefetchWindow(manifest, State(), current + 1, window);
      while layer <= current + window
        invariant current + 1 <= layer <= current + 1 + window
        invariant var (a, n) := PrefetchWindow(manifest, State(), layer, current + 1 + window - layer);
                  whole == (a, total + n)
      {
        if layer >= manifest.numLayers { break; }
        var n := PrefetchOneLayer(layer);
        total := total + n;
        layer := layer + 1;
      }
      blocksPrefetched := blocksPrefetched + total;
    }

    method ResidentCount() returns (n: nat)
      ensures n == CountResident(aperture)
    {
      n := 0;
      var k := 0;
      while k < |aperture|
        invariant 0 <= k <= |aperture| && n == CountResident(aperture[..k])
      {
        assert aperture[..k + 1][..k] == aperture[..k];
        if aperture[k].status.Resident? { n := n + 1; }
        k := k + 1;
      }
      assert aperture[..k] == aperture;
    }

    method CollectResident() returns (r: seq<nat>)
      ensures r == ResidentIndices(aperture) && InRange(r, |aperture|)
    {
      r := [];
      var k := 0;
      while k < |aperture|
        invariant 0 <= k <= |aperture| && r == ResidentIndices(aperture[..k]) && InRange(r, k)
      {
        assert aperture[..k + 1][..k] == aperture[..k];
        if aperture[k].status.Resident? { r := r + [k]; }
        k := k + 1;
      }
      assert aperture[..k] == aperture;
    }

    method EvictColdBlocks(target: nat) returns (evicted: nat)
      modifies this
      ensures (State(), evicted) == EvictCold(old(State()), target)
    {
      hide CountResident, ResidentIndices, SortByAccess;
      var residents := CollectResident();
      var sorted := SortByAccess(aperture, residents);
      ghost var whole := EvictDown(State(), sorted, target);
      evicted := 0;
      var k := 0;
      while k < |sorted|
        invariant 0 <= k <= |sorted| && evicted <= target
        invariant InRange(sorted, |aperture|)
        invariant var (a, n) := EvictDown(State(), sorted[k..], target - evicted);
                  whole == (a, evicted + n)
      {
        if evicted >= target { break; }
        var resident := ResidentCount();
        if resident <= MIN_RESIDENT { break; }
        var i := sorted[k];
        assert sorted[k..][1..] == sorted[k + 1..];
        aperture := aperture[i := aperture[i].(status := Evicted)];
        blocksEvicted := blocksEvicted + 1;
        evicted := evicted + 1;
        k := k + 1;
      }
    }

    method Inference()
      modifies this
      ensures State() == SimulateInference(manifest, old(State()), window, budget)
    {
      hide MaterializeLayer, PrefetchLayers, EvictCold, CountResident;
      var layer := 0;
      while layer < manifest.numLayers
        invariant 0 <= layer <= manifest.numLayers
        invariant State() == InferUpTo(manifest, old(State()), layer, window, budget)
      {
        var _, _, _, _ := MaterializeWholeLayer(layer);
        var _ := Prefetch(layer);
        var n := ResidentCount();
        if n > budget {
          var _ := EvictColdBlocks(n - budget);
        }
        layer := layer + 1;
      }
    }
  }
}
