/** The RAM RAID controller of ram_raid.rs: an object that updates its block table and counters in place. */
module RamRaid {
  import opened Prelude
  import opened ClusterTransport
  import opened RaidModel

  class RamRaidController {
    const c: RaidConfig
    const ramB: BlockStore
    var blocks: seq<RaidBlock>
    var residentCount: int
    var faultsHandled: nat
    var evictionsPerformed: nat
    var bytesCompressed: nat
    var bytesDecompressed: nat
    var remoteTransfers: nat
    var zeroPagesServed: nat
    var busSeq: nat
    var lruClock: nat

    ghost function State(): Raid
      reads this, ramB
    {
      Raid(blocks, residentCount, faultsHandled, evictionsPerformed, bytesCompressed, bytesDecompressed,
           remoteTransfers, zeroPagesServed, busSeq, lruClock, ramB.Value())
    }

    constructor (config: RaidConfig, store: BlockStore)
      requires config.Valid()
      ensures c == config && ramB == store
      ensures State() == Init(config).(store := store.Value())
    {
      c, ramB := config, store;
      residentCount, faultsHandled, evictionsPerformed := 0, 0, 0;
      bytesCompressed, bytesDecompressed, remoteTransfers, zeroPagesServed := 0, 0, 0, 0;
      busSeq, lruClock := 0, 0;
      var table := [];
      for i := 0 to config.BlockCount()
        invariant table == seq(i, _ => VIRGIN_BLOCK)
      {
        table := table + [VIRGIN_BLOCK];
      }
      blocks := table;
    }

    // -------------------------------------------------------------- restoring

    method ZeroFillBlock(i: nat)
      requires i < |blocks|
      modifies this
      ensures State() == ZeroFill(old(State()), i)
    {
      blocks := blocks[i := blocks[i].(location := Resident, accessCount := 1)];
      residentCount := residentCount + 1;
      zeroPagesServed := zeroPagesServed + 1;
      faultsHandled := faultsHandled + 1;
    }

    method ReloadBlock(i: nat, n: nat, remote: bool)
      requires i < |blocks|
      modifies this
      ensures State() == Reload(old(State()), i, n, remote)
    {
      blocks := blocks[i := blocks[i].(location := Resident, accessCount := blocks[i].accessCount + 1, dirty := false)];
      residentCount := residentCount + 1;
      bytesDecompressed := bytesDecompressed + n;
      if remote {
        remoteTransfers := remoteTransfers + 1;
      }
      faultsHandled := faultsHandled + 1;
    }

    method RestoreRemoteBlock(i: nat) returns (r: FaultResult)
      requires i < |blocks|
      modifies this, ramB
      ensures (State(), r) == RestoreRemote(c, old(State()), i)
    {
      var seqNo := busSeq;
      busSeq := busSeq + 1;
      var data: Bytes;
      match c.world.transport {
        case Mux(_, reply) =>
          var answer := reply(seqNo);
          if answer.None? {
            return FaultFailed(i, FetchFailed);
          }
          data := answer.value;
        case InMemory =>
          var found := ramB.Fetch(i);
          if found.None? {
            return FaultFailed(i, NotInStore);
          }
          data := found.value.data;
        case Simulation =>
          ReloadBlock(i, c.blockSize, true);
          return RestoredRemote(i);
      }
      if blocks[i].contentHash.Some? && c.world.sha256(data) != blocks[i].contentHash.value {
        return FaultFailed(i, Integrity);
      }
      ReloadBlock(i, |data|, true);
      r := RestoredRemote(i);
    }

    method Restore(i: nat) returns (r: FaultResult)
      requires i < |blocks|
      modifies this, ramB
      ensures (State(), r) == RestoreBlock(c, old(State()), i)
    {
      match blocks[i].location {
        case Resident => r := AlreadyResident(i);
        case Virgin => ZeroFillBlock(i); r := ZeroFilled(i);
        case LocalStore(_) => ReloadBlock(i, c.blockSize, false); r := RestoredLocal(i);
        case RemoteKernel(_, _, _) => r := RestoreRemoteBlock(i);
        case Fetching => r := FaultFailed(i, AlreadyFetching);
      }
    }

    method RestoreInner(i: nat) returns (r: FaultResult, data: Bytes)
      requires i < |blocks|
      modifies this, ramB
      ensures (State(), r, data) == RestoreProduction(c, old(State()), i)
    {
      data := [];
      match blocks[i].location {
        case Resident => r := AlreadyResident(i);
        case Virgin => ZeroFillBlock(i); r, data := ZeroFilled(i), Zeros(c.blockSize);
        case LocalStore(_) => r := Restore(i); data := Zeros(c.blockSize);
        case RemoteKernel(_, _, _) =>
          var seqNo := busSeq;
          busSeq := busSeq + 1;
          var fetched := Zeros(c.blockSize);
          if c.world.transport.Mux? {
            var answer := c.world.transport.reply(seqNo);
            if answer.None? {
              return FaultFailed(i, FetchFailed), [];
            }
            fetched := answer.value;
          }
          if blocks[i].contentHash.Some? && c.world.sha256(fetched) != blocks[i].contentHash.value {
            return FaultFailed(i, Integrity), [];
          }
          ReloadBlock(i, |fetched|, true);
          r, data := RestoredRemote(i), fetched;
        case Fetching => r := FaultFailed(i, AlreadyFetching);
      }
    }

    // -------------------------------------------------------------- eviction

    /** The clock scan over all blocks from the hand's position. */
    method FindColdest() returns (coldest: Option<nat>)
      ensures coldest == Victim(State())
    {
      coldest := None;
      if |blocks| == 0 {
        return;
      }
      var coldestAccess := U64_MAX;
      var start := lruClock % |blocks|;
      for k := 0 to |blocks|
        invariant coldest == Coldest(blocks, start, k)
        invariant coldestAccess == AccessBound(blocks, coldest)
      {
        var i := (start + k) % |blocks|;
        if blocks[i].location == Resident && blocks[i].accessCount < coldestAccess {
          coldestAccess := blocks[i].accessCount;
          coldest := Some(i);
        }
      }
    }

    method EvictToRemote(i: nat) returns (e: EvictionResult)
      requires i < |blocks|
      modifies this, ramB
      ensures (State(), e) == EvictRemote(c, old(State()), i)
    {
      var data := c.world.arena(i, blocks[i].writeCount);
      var seqNo := busSeq;
      busSeq := busSeq + 1;
      var hash := c.world.sha256(data);
      if c.world.transport.Mux? {
        if !c.world.transport.storeOk(seqNo) {
          return EvictionFailed(i);
        }
      } else if c.world.transport.InMemory? {
        ramB.Store(i, data, hash, c.blockSize, c.fromAint, seqNo);
      }
      blocks := blocks[i := blocks[i].(
        location := RemoteKernel(OrEmpty(c.kernelId), OrEmpty(c.endpoint), RemoteFork(seqNo)),
        contentHash := Some(hash),
        dirty := false)];
      residentCount := residentCount - 1;
      evictionsPerformed := evictionsPerformed + 1;
      bytesCompressed := bytesCompressed + c.blockSize;
      remoteTransfers := remoteTransfers + 1;
      e := EvictedRemote(i);
    }

    method EvictOne(i: nat) returns (e: EvictionResult)
      requires i < |blocks|
      modifies this, ramB
      ensures (State(), e) == EvictBlock(c, old(State()), i)
    {
      var b := blocks[i];
      if !b.dirty {
        blocks := blocks[i := b.(location := if b.contentHash.Some? then LocalStore(CleanDrop(i)) else Virgin)];
        residentCount := residentCount - 1;
        evictionsPerformed := evictionsPerformed + 1;
        return Dropped(i);
      }
      if c.endpoint.Some? && StripeOf(i) == RamB {
        e := EvictToRemote(i);
        return;
      }
      var data := c.world.arena(i, b.writeCount);
      var seqNo := busSeq;
      busSeq := busSeq + 1;
      blocks := blocks[i := b.(
        location := LocalStore(LocalFork(seqNo)),
        contentHash := Some(c.world.simulatedHash(data)),
        dirty := false)];
      residentCount := residentCount - 1;
      evictionsPerformed := evictionsPerformed + 1;
      bytesCompressed := bytesCompressed + c.blockSize;
      e := EvictedLocal(i);
    }

    method Evict() returns (e: EvictionResult)
      modifies this, ramB
      ensures (State(), e) == EvictColdest(c, old(State()))
    {
      var coldest := FindColdest();
      if coldest.None? {
        return NothingToEvict;
      }
      lruClock := coldest.value + 1;
      e := EvictOne(coldest.value);
    }

    method Proactive() returns (results: seq<EvictionResult>)
      modifies this, ramB
      ensures (State(), results) == ProactiveEvict(c, old(State()))
    {
      hide EvictColdest;
      results := [];
      if residentCount * 4 < c.maxResident * 3 {
        return;
      }
      var toEvict := SatSub(residentCount, c.maxResident * 3 / 5);
      ghost var s0 := State();
      var k := 0;
      while k < toEvict
        invariant 0 <= k <= toEvict
        invariant EvictUpTo(c, s0, toEvict).0 == EvictUpTo(c, State(), toEvict - k).0
        invariant EvictUpTo(c, s0, toEvict).1 == results + EvictUpTo(c, State(), toEvict - k).1
      {
        var e := Evict();
        assert results + [] == results;
        if e.NothingToEvict? {
          return;
        }
        ghost var rest := EvictUpTo(c, State(), toEvict - k - 1).1;
        assert results + ([e] + rest) == (results + [e]) + rest;
        results := results + [e];
        k := k + 1;
      }
      assert results + [] == results;
    }

    // -------------------------------------------------------------- entry points

    method FaultOnBlock(i: nat) returns (r: FaultResult)
      modifies this, ramB
      ensures (State(), r) == FaultAt(c, old(State()), i)
    {
      hide EvictColdest, RestoreBlock;
      if i >= |blocks| {
        return FaultFailed(i, OutOfRange);
      }
      if residentCount >= c.maxResident {
        var e := Evict();
        if !e.Freed() {
          return FaultFailed(i, CannotEvict);
        }
        var ignored := Restore(i);
        return EvictedThenRestored(e.block, i);
      }
      r := Restore(i);
    }

    method HandleFault(addr: nat) returns (r: FaultResult)
      requires c.Valid()
      modifies this, ramB
      ensures (State(), r) == RaidModel.HandleFault(c, old(State()), addr)
    {
      r := FaultOnBlock(addr / c.blockSize);
    }

    method HandleFaultProduction(addr: nat) returns (r: FaultResult, data: Bytes)
      requires c.Valid()
      modifies this, ramB
      ensures (State(), r, data) == RaidModel.HandleFaultProduction(c, old(State()), addr)
    {
      hide EvictColdest, RestoreProduction;
      var i := addr / c.blockSize;
      if i >= |blocks| {
        return FaultFailed(i, OutOfRange), [];
      }
      if residentCount >= c.maxResident {
        var ignored := Evict();
      }
      r, data := RestoreInner(i);
    }

    method SimulateWrite(i: nat)
      modifies this
      ensures State() == Write(c, old(State()), i)
    {
      if i >= |blocks| {
        return;
      }
      var b := blocks[i];
      blocks := blocks[i := RaidBlock(Resident, Some(c.world.dirtyMark(i, b.writeCount + 1)), b.accessCount + 1, b.writeCount + 1, true)];
      if b.location != Resident {
        residentCount := residentCount + 1;
      }
    }

    method SimulateRead(i: nat) returns (r: FaultResult)
      requires c.Valid()
      modifies this, ramB
      ensures (State(), r) == Read(c, old(State()), i)
    {
      if i >= |blocks| {
        return FaultFailed(i, OutOfRange);
      }
      if blocks[i].location == Resident {
        blocks := blocks[i := blocks[i].(accessCount := blocks[i].accessCount + 1)];
        return AlreadyResident(i);
      }
      r := HandleFault(i * c.blockSize);
    }

    // -------------------------------------------------------------- batches

    /** One pass over the requested indices, sorting them by where their block lives now. */
    method Partition(batch: seq<nat>) returns (residents: seq<nat>, locals: seq<nat>, remotes: seq<nat>, virgins: seq<nat>)
      ensures residents == Pick(blocks, batch, KResident) && locals == Pick(blocks, batch, KLocal)
      ensures remotes == Pick(blocks, batch, KRemote) && virgins == Pick(blocks, batch, KVirgin)
    {
      residents, locals, remotes, virgins := [], [], [], [];
      for k := 0 to |batch|
        invariant residents == Pick(blocks, batch[..k], KResident) && locals == Pick(blocks, batch[..k], KLocal)
        invariant remotes == Pick(blocks, batch[..k], KRemote) && virgins == Pick(blocks, batch[..k], KVirgin)
      {
        var i := batch[k];
        assert batch[..k + 1][..k] == batch[..k];
        if i < |blocks| {
          match blocks[i].location {
            case Resident => residents := residents + [i];
            case LocalStore(_) => locals := locals + [i];
            case RemoteKernel(_, _, _) => remotes := remotes + [i];
            case Virgin => virgins := virgins + [i];
            case Fetching =>
          }
        }
      }
      assert batch[..|batch|] == batch;
    }

    method EvictMany(n: nat)
      modifies this, ramB
      ensures State() == EvictTimes(c, old(State()), n)
    {
      hide EvictColdest;
      for k := 0 to n
        invariant State() == EvictTimes(c, old(State()), k)
      {
        var ignored := Evict();
      }
    }

    method RestoreMany(batch: seq<nat>) returns (results: seq<FaultResult>)
      requires InRange(batch, |blocks|)
      modifies this, ramB
      ensures (State(), results) == RestoreAll(c, old(State()), batch)
    {
      hide RestoreBlock;
      results := [];
      for k := 0 to |batch|
        invariant (State(), results) == RestoreAll(c, old(State()), batch[..k])
        invariant |State().blocks| == |old(blocks)|
      {
        assert batch[..k + 1][..k] == batch[..k];
        var r := Restore(batch[k]);
        results := results + [r];
      }
      assert batch[..|batch|] == batch;
    }

    method TouchAndFill(residents: seq<nat>, virgins: seq<nat>)
      requires InRange(residents, |blocks|) && InRange(virgins, |blocks|)
      modifies this
      ensures State() == FillAll(TouchAll(old(State()), residents), virgins)
    {
      ghost var s0 := State();
      for k := 0 to |residents|
        invariant |blocks| == |s0.blocks|
        invariant State() == TouchAll(s0, residents[..k])
      {
        assert residents[..k + 1][..k] == residents[..k];
        var i := residents[k];
        blocks := blocks[i := blocks[i].(accessCount := blocks[i].accessCount + 1)];
      }
      assert residents[..|residents|] == residents;
      ghost var s1 := State();
      for k := 0 to |virgins|
        invariant |blocks| == |s1.blocks|
        invariant State() == FillAll(s1, virgins[..k])
      {
        assert virgins[..k + 1][..k] == virgins[..k];
        ZeroFillBlock(virgins[k]);
      }
      assert virgins[..|virgins|] == virgins;
    }

    /** The pipelined fetch: all answers, or an error if one of them is missing. */
    method FetchBatch(base: nat, n: nat) returns (answers: Option<seq<Bytes>>)
      requires c.world.transport.Mux?
      ensures answers.Some? <==> BatchAnswered(c.world.transport.reply, base, n)
      ensures answers.Some? ==>
                |answers.value| == n && forall k | 0 <= k < n :: answers.value[k] == c.world.transport.reply(base + k).value
    {
      var got := [];
      for k := 0 to n
        invariant |got| == k
        invariant forall q: nat | base <= q < base + k :: c.world.transport.reply(q).Some?
        invariant forall j | 0 <= j < k :: got[j] == c.world.transport.reply(base + j).value
      {
        var answer := c.world.transport.reply(base + k);
        if answer.None? {
          return None;
        }
        got := got + [answer.value];
      }
      answers := Some(got);
    }

    method InstallAnswers(batch: seq<nat>, base: nat, answers: seq<Bytes>) returns (results: seq<FaultResult>)
      requires c.world.transport.Mux? && BatchAnswered(c.world.transport.reply, base, |batch|)
      requires InRange(batch, |blocks|)
      requires |answers| == |batch| && forall k | 0 <= k < |batch| :: answers[k] == c.world.transport.reply(base + k).value
      modifies this
      ensures (State(), results) == InstallBatch(c, old(State()), batch, base)
    {
      results := [];
      for k := 0 to |batch|
        invariant |blocks| == |old(blocks)|
        invariant (State(), results) == InstallBatch(c, old(State()), batch[..k], base)
      {
        assert batch[..k + 1][..k] == batch[..k];
        var i := batch[k];
        var data := answers[k];
        if blocks[i].contentHash.Some? && c.world.sha256(data) != blocks[i].contentHash.value {
          results := results + [FaultFailed(i, Integrity)];
        } else {
          ReloadBlock(i, |data|, true);
          results := results + [RestoredRemote(i)];
        }
      }
      assert batch[..|batch|] == batch;
    }

    method RestoreRemoteBatch(batch: seq<nat>) returns (results: seq<FaultResult>)
      requires InRange(batch, |blocks|)
      modifies this, ramB
      ensures (State(), results) == BatchRestoreRemote(c, old(State()), batch)
    {
      hide InstallBatch, RestoreAll;
      var base := busSeq;
      busSeq := busSeq + |batch|;
      if c.world.transport.Mux? {
        var answers := FetchBatch(base, |batch|);
        if answers.None? {
          return seq(|batch|, k requires 0 <= k < |batch| => FaultFailed(batch[k], FetchFailed));
        }
        results := InstallAnswers(batch, base, answers.value);
      } else {
        results := RestoreMany(batch);
      }
    }

    method SimulateReadBatch(batch: seq<nat>) returns (results: seq<FaultResult>)
      modifies this, ramB
      ensures (State(), results) == ReadBatch(c, old(State()), batch)
    {
      hide EvictTimes, TouchAll, FillAll, RestoreAll, BatchRestoreRemote, Pick;
      var residents, locals, remotes, virgins := Partition(batch);
      var total := |locals| + |remotes| + |virgins|;
      EvictMany(SatSub(total, SatSub(c.maxResident, residentCount)));
      TouchAndFill(residents, virgins);
      var fromLocal := RestoreMany(locals);
      results := seq(|residents|, k requires 0 <= k < |residents| => AlreadyResident(residents[k]))
                 + seq(|virgins|, k requires 0 <= k < |virgins| => ZeroFilled(virgins[k]))
                 + fromLocal;
      if remotes != [] {
        var fromRemote := RestoreRemoteBatch(remotes);
        results := results + fromRemote;
      }
    }

    method PrefetchBlocks(batch: seq<nat>) returns (good: nat)
      modifies this, ramB
      ensures (State(), good) == Prefetch(c, old(State()), batch)
    {
      hide ReadBatch;
      var wanted := [];
      for k := 0 to |batch|
        invariant wanted == NonResident(blocks, batch[..k])
      {
        assert batch[..k + 1][..k] == batch[..k];
        if batch[k] < |blocks| && blocks[batch[k]].location != Resident {
          wanted := wanted + [batch[k]];
        }
      }
      assert batch[..|batch|] == batch;
      if wanted == [] {
        return 0;
      }
      var results := SimulateReadBatch(wanted);
      good := 0;
      for k := 0 to |results|
        invariant good == CountGood(results[..k])
      {
        assert results[..k + 1][..k] == results[..k];
        if !results[k].FaultFailed? {
          good := good + 1;
        }
      }
      assert results[..|results|] == results;
    }
  }
}
