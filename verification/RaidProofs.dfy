/** What every run of the RAM RAID controller keeps. */
module RaidProofs {
  import opened Prelude
  import opened ClusterTransport
  import opened RaidModel

  // ---------------------------------------------------------------- the invariant

  /** Every block record: no block is stuck fetching, dirty data is in memory, written data is never
      forgotten, and only odd blocks of a controller with a remote endpoint live on RAM B. */
  ghost predicate BlockOk(c: RaidConfig, i: nat, b: RaidBlock)
  {
    && !b.location.Fetching?
    && (b.dirty ==> b.location.Resident?)
    && (b.writeCount > 0 ==> b.contentHash.Some? && !b.location.Virgin?)
    && (b.location.RemoteKernel? ==>
          && i % 2 == 1 && c.endpoint.Some?
          && b.contentHash == Some(c.world.sha256(c.world.arena(i, b.writeCount))))
  }

  /** With the in-memory store, a remote block's last written bytes are in it under the recorded hash. */
  ghost predicate Stored(c: RaidConfig, i: nat, b: RaidBlock, stored: map<nat, StoredBlock>)
  {
    c.world.transport.InMemory? && b.location.RemoteKernel? ==>
      && i in stored
      && stored[i].data == c.world.arena(i, b.writeCount)
      && Some(stored[i].contentHash) == b.contentHash
  }

  ghost predicate Inv(c: RaidConfig, s: Raid)
  {
    forall i | 0 <= i < |s.blocks| :: BlockOk(c, i, s.blocks[i]) && Stored(c, i, s.blocks[i], s.store.blocks)
  }

  ghost function ResidentSet(blocks: seq<RaidBlock>): set<nat>
  {
    set i: nat | i < |blocks| && blocks[i].location.Resident?
  }

  /** How far the resident counter has run ahead of the block table. */
  ghost function Excess(s: Raid): int
  {
    s.residentCount - |ResidentSet(s.blocks)|
  }

  /** Residency not explained by served faults and evictions. */
  ghost function Balance(s: Raid): int
  {
    s.residentCount - s.faultsHandled + s.evictionsPerformed
  }

  ghost predicate WritesKept(s: Raid, t: Raid)
  {
    |t.blocks| == |s.blocks| && forall j | 0 <= j < |s.blocks| :: t.blocks[j].writeCount == s.blocks[j].writeCount
  }

  /** A step that keeps the invariant and moves all counters together with the table. */
  ghost predicate Kept(c: RaidConfig, s: Raid, t: Raid)
  {
    && WritesKept(s, t)
    && (Inv(c, s) ==> Inv(c, t))
    && Excess(t) == Excess(s)
    && Balance(t) == Balance(s)
  }

  lemma ResidentAfterUpdate(blocks: seq<RaidBlock>, i: nat, b: RaidBlock)
    requires i < |blocks|
    ensures |ResidentSet(blocks[i := b])| == |ResidentSet(blocks)|
              - (if blocks[i].location.Resident? then 1 else 0)
              + (if b.location.Resident? then 1 else 0)
  {
    var before, after := ResidentSet(blocks), ResidentSet(blocks[i := b]);
    assert after == if b.location.Resident? then (before - {i}) + {i} else before - {i};
  }

  lemma InitialState(c: RaidConfig)
    requires c.Valid()
    ensures Inv(c, Init(c)) && Excess(Init(c)) == 0 && Balance(Init(c)) == 0
  {
    assert ResidentSet(Init(c).blocks) == {};
  }

  // ---------------------------------------------------------------- single-block steps

  /** A step that rewrites one block record, and at most its entry in the store. */
  lemma OneBlockStep(c: RaidConfig, s: Raid, t: Raid, i: nat)
    requires i < |s.blocks| && |t.blocks| == |s.blocks| && t.blocks == s.blocks[i := t.blocks[i]]
    requires forall j: nat | j != i && j in s.store.blocks :: j in t.store.blocks && t.store.blocks[j] == s.store.blocks[j]
    requires Inv(c, s) ==> BlockOk(c, i, t.blocks[i]) && Stored(c, i, t.blocks[i], t.store.blocks)
    ensures Inv(c, s) ==> Inv(c, t)
    ensures Excess(t) == Excess(s) + t.residentCount - s.residentCount
              + (if s.blocks[i].location.Resident? then 1 else 0)
              - (if t.blocks[i].location.Resident? then 1 else 0)
    ensures t.blocks[i].writeCount == s.blocks[i].writeCount ==> WritesKept(s, t)
  {
    ResidentAfterUpdate(s.blocks, i, t.blocks[i]);
    if Inv(c, s) {
      forall j | 0 <= j < |t.blocks|
        ensures BlockOk(c, j, t.blocks[j]) && Stored(c, j, t.blocks[j], t.store.blocks)
      {
        if j != i {
          assert BlockOk(c, j, s.blocks[j]) && Stored(c, j, s.blocks[j], s.store.blocks);
        }
      }
    }
  }

  lemma ReloadEffect(c: RaidConfig, s: Raid, i: nat, n: nat, remote: bool)
    requires i < |s.blocks|
    ensures var t := Reload(s, i, n, remote);
            && WritesKept(s, t)
            && (Inv(c, s) ==> Inv(c, t))
            && Excess(t) == Excess(s) + (if s.blocks[i].location.Resident? then 1 else 0)
            && Balance(t) == Balance(s)
  {
    assert Inv(c, s) ==> BlockOk(c, i, s.blocks[i]);
    OneBlockStep(c, s, Reload(s, i, n, remote), i);
  }

  lemma ZeroFillEffect(c: RaidConfig, s: Raid, i: nat)
    requires i < |s.blocks|
    ensures var t := ZeroFill(s, i);
            && WritesKept(s, t)
            && (Inv(c, s) ==> Inv(c, t))
            && Excess(t) == Excess(s) + (if s.blocks[i].location.Resident? then 1 else 0)
            && Balance(t) == Balance(s)
  {
    assert Inv(c, s) ==> BlockOk(c, i, s.blocks[i]);
    OneBlockStep(c, s, ZeroFill(s, i), i);
  }

  /** Fetching only reads the store and advances the bus sequence number. */
  lemma FetchEffect(c: RaidConfig, s: Raid, i: nat)
    ensures Kept(c, s, FetchRemote(c, s, i).0)
    ensures FetchRemote(c, s, i).0.blocks == s.blocks
    ensures FetchRemote(c, s, i).0.residentCount == s.residentCount
  {
    var t := FetchRemote(c, s, i).0;
    if Inv(c, s) {
      forall j | 0 <= j < |t.blocks|
        ensures BlockOk(c, j, t.blocks[j]) && Stored(c, j, t.blocks[j], t.store.blocks)
      {
        assert BlockOk(c, j, s.blocks[j]) && Stored(c, j, s.blocks[j], s.store.blocks);
      }
    }
  }

  /** Remote blocks come back with exactly the bytes last written, whatever happened in between. */
  lemma RemoteFetchIsExact(c: RaidConfig, s: Raid, i: nat)
    requires c.world.transport.InMemory? && Inv(c, s)
    requires i < |s.blocks| && s.blocks[i].location.RemoteKernel?
    ensures FetchRemote(c, s, i).1 == Got(c.world.arena(i, s.blocks[i].writeCount))
    ensures RestoreBlock(c, s, i).1 == RestoredRemote(i)
    ensures RestoreBlock(c, s, i).0.bytesDecompressed == s.bytesDecompressed + |c.world.arena(i, s.blocks[i].writeCount)|
  {
    assert BlockOk(c, i, s.blocks[i]) && Stored(c, i, s.blocks[i], s.store.blocks);
  }

  /** Whether a restore of block i can succeed in state s: only a network can refuse. */
  predicate Restorable(c: RaidConfig, s: Raid, i: nat)
    requires i < |s.blocks|
  {
    s.blocks[i].location.RemoteKernel? && c.world.transport.Mux? ==>
      var r := c.world.transport.reply(s.busSeq);
      r.Some? && Intact(c, s.blocks[i], r.value)
  }

  /** The access count of a block after a restore: a zero fill starts it at one, a reload adds one. */
  function RestoredCount(b: RaidBlock, succeeds: bool): nat
  {
    if b.location.Resident? || !succeeds then b.accessCount
    else if b.location.Virgin? then 1
    else b.accessCount + 1
  }

  /** A restore touches only its block, and leaves it Resident exactly when it does not report failure. */
  ghost predicate RestoreFacts(c: RaidConfig, s: Raid, i: nat, t: Raid, r: FaultResult)
  {
    && i < |s.blocks|
    && Kept(c, s, t)
    && (forall j | 0 <= j < |s.blocks| && j != i :: t.blocks[j] == s.blocks[j])
    && (!r.FaultFailed? <==> Restorable(c, s, i))
    && (!r.FaultFailed? <==> t.blocks[i].location.Resident?)
    && (r.FaultFailed? ==> t.blocks == s.blocks)
    && t.blocks[i].accessCount == RestoredCount(s.blocks[i], !r.FaultFailed?)
    && t.residentCount == s.residentCount + (if r.FaultFailed? || s.blocks[i].location.Resident? then 0 else 1)
  }

  lemma RestoreEffect(c: RaidConfig, s: Raid, i: nat)
    requires i < |s.blocks| && Inv(c, s)
    ensures RestoreFacts(c, s, i, RestoreBlock(c, s, i).0, RestoreBlock(c, s, i).1)
  {
    assert BlockOk(c, i, s.blocks[i]);
    match s.blocks[i].location
    case Resident =>
    case Virgin => ZeroFillEffect(c, s, i);
    case LocalStore(_) => ReloadEffect(c, s, i, c.blockSize, false);
    case RemoteKernel(_, _, _) => RestoreRemoteEffect(c, s, i);
  }

  lemma RestoreRemoteEffect(c: RaidConfig, s: Raid, i: nat)
    requires i < |s.blocks| && Inv(c, s) && s.blocks[i].location.RemoteKernel?
    ensures RestoreFacts(c, s, i, RestoreRemote(c, s, i).0, RestoreRemote(c, s, i).1)
  {
    FetchEffect(c, s, i);
    var (s1, f) := FetchRemote(c, s, i);
    if f.Got? {
      ReloadEffect(c, s1, i, |f.data|, true);
    } else if f.Unverified? {
      ReloadEffect(c, s1, i, c.blockSize, true);
    }
    if c.world.transport.InMemory? {
      RemoteFetchIsExact(c, s, i);
    }
  }

  /** Whether the production path can restore block i: without a network client a remote block is taken to be zeros. */
  predicate ProductionRestorable(c: RaidConfig, s: Raid, i: nat)
    requires i < |s.blocks|
  {
    s.blocks[i].location.RemoteKernel? ==>
      var d := if c.world.transport.Mux? then c.world.transport.reply(s.busSeq) else Some(Zeros(c.blockSize));
      d.Some? && Intact(c, s.blocks[i], d.value)
  }

  /** The production path keeps the same accounts and also leaves the block Resident unless it fails. */
  ghost predicate ProductionFacts(c: RaidConfig, s: Raid, i: nat, t: Raid, r: FaultResult)
  {
    && i < |s.blocks|
    && Kept(c, s, t)
    && (!r.FaultFailed? <==> ProductionRestorable(c, s, i))
    && (!r.FaultFailed? <==> t.blocks[i].location.Resident?)
    && (forall j | 0 <= j < |s.blocks| && j != i :: t.blocks[j] == s.blocks[j])
    && t.blocks[i].accessCount == RestoredCount(s.blocks[i], !r.FaultFailed?)
    && t.residentCount == s.residentCount + (if r.FaultFailed? || s.blocks[i].location.Resident? then 0 else 1)
  }

  lemma RestoreProductionEffect(c: RaidConfig, s: Raid, i: nat)
    requires i < |s.blocks| && Inv(c, s)
    ensures ProductionFacts(c, s, i, RestoreProduction(c, s, i).0, RestoreProduction(c, s, i).1)
  {
    assert BlockOk(c, i, s.blocks[i]);
    match s.blocks[i].location
    case Resident =>
    case Virgin => ZeroFillEffect(c, s, i);
    case LocalStore(_) => ReloadEffect(c, s, i, c.blockSize, false);
    case RemoteKernel(_, _, _) =>
      var s1 := s.(busSeq := s.busSeq + 1);
      var t := RestoreProduction(c, s, i).0;
      if t.residentCount != s.residentCount {
        ReloadEffect(c, s1, i, t.bytesDecompressed - s.bytesDecompressed, true);
      }
  }

  /** The production path never consults the in-memory store: a remote block is restored, as zeros,
      exactly when the zero block happens to carry the recorded hash. */
  lemma ProductionIgnoresTheStore(c: RaidConfig, s: Raid, i: nat)
    requires i < |s.blocks| && Inv(c, s) && !c.world.transport.Mux?
    requires s.blocks[i].location.RemoteKernel?
    ensures var (t, r, d) := RestoreProduction(c, s, i);
            && (r == RestoredRemote(i) <==>
                c.world.sha256(Zeros(c.blockSize)) == c.world.sha256(c.world.arena(i, s.blocks[i].writeCount)))
            && (r == RestoredRemote(i) ==> d == Zeros(c.blockSize))
            && t.store == s.store
  {
    assert BlockOk(c, i, s.blocks[i]);
  }

  lemma WriteEffect(c: RaidConfig, s: Raid, i: nat)
    ensures var t := Write(c, s, i);
            && (Inv(c, s) ==> Inv(c, t))
            && Excess(t) == Excess(s)
            && Balance(t) == Balance(s) + WriteMiss(s, i)
            && t.residentCount == s.residentCount + WriteMiss(s, i)
  {
    if i < |s.blocks| {
      OneBlockStep(c, s, Write(c, s, i), i);
    }
  }

  /** 1 when a write to block i brings a new block into residence. */
  function WriteMiss(s: Raid, i: nat): nat
  {
    if i < |s.blocks| && !s.blocks[i].location.Resident? then 1 else 0
  }

  lemma TouchEffect(c: RaidConfig, s: Raid, i: nat)
    requires i < |s.blocks|
    ensures Kept(c, s, Touch(s, i))
  {
    assert Inv(c, s) ==> BlockOk(c, i, s.blocks[i]) && Stored(c, i, s.blocks[i], s.store.blocks);
    OneBlockStep(c, s, Touch(s, i), i);
  }

  // ---------------------------------------------------------------- eviction

  /** How many slots after start the clock hand reaches block i. */
  function ClockDistance(start: nat, i: nat, n: nat): nat
    requires start < n && i < n
  {
    if start <= i then i - start else i + n - start
  }

  lemma ModOnce(a: nat, n: nat)
    requires 0 < n <= a < n + n
    ensures a % n == a - n
  {
    assert a == 1 * n + (a - n);
  }

  lemma ClockReaches(start: nat, k: nat, n: nat)
    requires start < n && k < n
    ensures ClockDistance(start, ClockSlot(start, k, n), n) == k
  {
    if start + k >= n {
      ModOnce(start + k, n);
      assert ClockSlot(start, k, n) == start + k - n;
    } else {
      assert ClockSlot(start, k, n) == start + k;
    }
  }

  /** Block v is no hotter than any Resident block seen so far, and first in clock order among equals. */
  ghost predicate ColdestWithin(blocks: seq<RaidBlock>, start: nat, v: nat, k: nat)
    requires start < |blocks| && v < |blocks|
  {
    && blocks[v].location.Resident? && blocks[v].accessCount < U64_MAX
    && forall j | 0 <= j < |blocks| && ClockDistance(start, j, |blocks|) < k && blocks[j].location.Resident? ::
         blocks[v].accessCount < blocks[j].accessCount
         || (blocks[v].accessCount == blocks[j].accessCount
             && ClockDistance(start, v, |blocks|) <= ClockDistance(start, j, |blocks|))
  }

  lemma {:induction false} ColdestCorrect(blocks: seq<RaidBlock>, start: nat, k: nat)
    requires start < |blocks| && k <= |blocks|
    ensures match Coldest(blocks, start, k)
            case None =>
              forall j | 0 <= j < |blocks| && ClockDistance(start, j, |blocks|) < k && blocks[j].location.Resident? ::
                blocks[j].accessCount >= U64_MAX
            case Some(v) => ClockDistance(start, v, |blocks|) < k && ColdestWithin(blocks, start, v, k)
  {
    if k > 0 {
      ColdestCorrect(blocks, start, k - 1);
      ClockReaches(start, k - 1, |blocks|);
      var i := ClockSlot(start, k - 1, |blocks|);
      forall j | 0 <= j < |blocks| && ClockDistance(start, j, |blocks|) == k - 1
        ensures j == i
      {
      }
    }
  }

  /** The victim is the Resident block with least access count, first in clock order; there is none
      exactly when no Resident block has an access count below the scan's starting bound. */
  lemma VictimIsColdest(s: Raid)
    ensures Victim(s).None? <==>
              forall j | 0 <= j < |s.blocks| && s.blocks[j].location.Resident? :: s.blocks[j].accessCount >= U64_MAX
    ensures Victim(s).Some? ==>
              ColdestWithin(s.blocks, s.lruClock % |s.blocks|, Victim(s).value, |s.blocks|)
  {
    if |s.blocks| > 0 {
      ColdestCorrect(s.blocks, s.lruClock % |s.blocks|, |s.blocks|);
    }
  }

  lemma VictimIsResident(s: Raid)
    ensures Victim(s).Some? ==> s.blocks[Victim(s).value].location.Resident?
  {
    VictimIsColdest(s);
  }

  /** The network refuses to store block i: only a dirty block bound for RAM B can be refused. */
  predicate RefusedAt(c: RaidConfig, s: Raid, i: nat)
    requires i < |s.blocks|
  {
    && s.blocks[i].dirty && c.endpoint.Some? && StripeOf(i).RamB?
    && c.world.transport.Mux? && !c.world.transport.storeOk(s.busSeq)
  }

  /** The next eviction finds a victim and is refused. */
  predicate EvictionRefused(c: RaidConfig, s: Raid)
  {
    Victim(s).Some? && RefusedAt(c, s, Victim(s).value)
  }

  /** Every store over the network is acknowledged; the other transports have none to refuse. */
  ghost predicate StoresAcknowledged(c: RaidConfig)
  {
    c.world.transport.Mux? ==> forall n: nat :: c.world.transport.storeOk(n)
  }

  /** A successful eviction moves exactly the victim out of memory; an unsuccessful one moves nothing. */
  ghost predicate EvictFacts(c: RaidConfig, s: Raid, t: Raid, e: EvictionResult)
  {
    && Kept(c, s, t)
    && (forall j | 0 <= j < |s.blocks| && !s.blocks[j].location.Resident? :: t.blocks[j] == s.blocks[j])
    && (forall j | 0 <= j < |s.blocks| :: t.blocks[j].accessCount == s.blocks[j].accessCount)
    && (e.Freed() ==>
          && Victim(s) == Some(e.block) && s.blocks[e.block].location.Resident?
          && !t.blocks[e.block].location.Resident?
          && t.blocks == s.blocks[e.block := t.blocks[e.block]]
          && t.residentCount == s.residentCount - 1)
    && (!e.Freed() ==> t.blocks == s.blocks && t.residentCount == s.residentCount
                       && t.busSeq == s.busSeq + (if e.EvictionFailed? then 1 else 0))
    && (e.NothingToEvict? <==> Victim(s).None?)
    && (e.EvictionFailed? <==> EvictionRefused(c, s))
  }

  /** Evicting block i in particular. */
  ghost predicate EvictBlockFacts(c: RaidConfig, s: Raid, i: nat, t: Raid, e: EvictionResult)
  {
    && i < |s.blocks|
    && Kept(c, s, t)
    && (e.Freed() ==>
          && e.block == i && !t.blocks[i].location.Resident?
          && t.blocks == s.blocks[i := t.blocks[i]]
          && t.blocks[i].accessCount == s.blocks[i].accessCount
          && t.residentCount == s.residentCount - 1)
    && (!e.Freed() ==> t.blocks == s.blocks && t.residentCount == s.residentCount && t.busSeq == s.busSeq + 1)
    && !e.NothingToEvict?
    && (e.EvictionFailed? <==> RefusedAt(c, s, i))
  }

  lemma EvictRemoteEffect(c: RaidConfig, s: Raid, i: nat)
    requires i < |s.blocks| && s.blocks[i].location.Resident? && c.endpoint.Some? && i % 2 == 1
    requires s.blocks[i].dirty
    ensures EvictBlockFacts(c, s, i, EvictRemote(c, s, i).0, EvictRemote(c, s, i).1)
  {
    var t := EvictRemote(c, s, i).0;
    if EvictRemote(c, s, i).1.Freed() {
      OneBlockStep(c, s, t, i);
    } else {
      assert Inv(c, s) ==> Inv(c, t);
    }
  }

  lemma EvictBlockEffect(c: RaidConfig, s: Raid, i: nat)
    requires i < |s.blocks| && s.blocks[i].location.Resident?
    ensures EvictBlockFacts(c, s, i, EvictBlock(c, s, i).0, EvictBlock(c, s, i).1)
  {
    assert Inv(c, s) ==> BlockOk(c, i, s.blocks[i]);
    if !s.blocks[i].dirty {
      OneBlockStep(c, s, DropClean(s, i), i);
    } else if c.endpoint.Some? && StripeOf(i).RamB? {
      EvictRemoteEffect(c, s, i);
    } else {
      OneBlockStep(c, s, EvictLocal(c, s, i), i);
    }
  }

  lemma EvictBlockGivesFacts(c: RaidConfig, s: Raid, clock: nat, i: nat, t: Raid, e: EvictionResult)
    requires Victim(s) == Some(i) && i < |s.blocks| && s.blocks[i].location.Resident?
    requires EvictBlockFacts(c, s.(lruClock := clock), i, t, e)
    ensures EvictFacts(c, s, t, e)
  {
  }

  lemma EvictEffect(c: RaidConfig, s: Raid)
    ensures EvictFacts(c, s, EvictColdest(c, s).0, EvictColdest(c, s).1)
  {
    hide EvictBlock, Coldest;
    VictimIsResident(s);
    if Victim(s).Some? {
      var i := Victim(s).value;
      EvictBlockEffect(c, s.(lruClock := i + 1), i);
      EvictBlockGivesFacts(c, s, i + 1, i, EvictColdest(c, s).0, EvictColdest(c, s).1);
    }
  }

  /** Any number of evictions leaves every block that was already out of memory exactly as it was. */
  ghost predicate EvictedMany(c: RaidConfig, s: Raid, t: Raid)
  {
    && Kept(c, s, t)
    && (forall j | 0 <= j < |s.blocks| && !s.blocks[j].location.Resident? :: t.blocks[j] == s.blocks[j])
    && (forall j | 0 <= j < |s.blocks| :: t.blocks[j].accessCount == s.blocks[j].accessCount)
  }

  lemma EvictedManyStep(c: RaidConfig, s: Raid, t: Raid, u: Raid)
    requires EvictedMany(c, s, t) && EvictedMany(c, t, u)
    ensures EvictedMany(c, s, u)
  {
  }

  lemma {:induction false} EvictTimesEffect(c: RaidConfig, s: Raid, n: nat)
    ensures EvictedMany(c, s, EvictTimes(c, s, n))
  {
    hide EvictColdest, Inv, ResidentSet, Victim;
    if n > 0 {
      EvictTimesEffect(c, s, n - 1);
      EvictEffect(c, EvictTimes(c, s, n - 1));
      EvictedManyStep(c, s, EvictTimes(c, s, n - 1), EvictTimes(c, s, n));
    }
  }

  lemma {:induction false} EvictUpToEffect(c: RaidConfig, s: Raid, n: nat)
    ensures EvictedMany(c, s, EvictUpTo(c, s, n).0)
    decreases n
  {
    hide EvictColdest, Inv, ResidentSet, Victim;
    if n > 0 {
      EvictEffect(c, s);
      EvictUpToEffect(c, EvictColdest(c, s).0, n - 1);
      EvictedManyStep(c, s, EvictColdest(c, s).0, EvictUpTo(c, EvictColdest(c, s).0, n - 1).0);
    }
  }

  // ---------------------------------------------------------------- batches

  ghost function Elems(b: seq<nat>): set<nat>
  {
    set i | i in b
  }

  ghost predicate NoDup(b: seq<nat>)
  {
    forall j, k | 0 <= j < k < |b| :: b[j] != b[k]
  }

  /** How many entries of a list repeat an earlier one. */
  ghost function Repeats(b: seq<nat>): (n: int)
  {
    |b| - |Elems(b)|
  }

  lemma ElemsSnoc(b: seq<nat>)
    requires b != []
    ensures Elems(b) == Elems(b[..|b| - 1]) + {b[|b| - 1]}
  {
    assert b == b[..|b| - 1] + [b[|b| - 1]];
  }

  lemma {:induction false} RepeatsZeroIffNoDup(b: seq<nat>)
    ensures Repeats(b) >= 0
    ensures Repeats(b) == 0 <==> NoDup(b)
  {
    if b != [] {
      var a, x := b[..|b| - 1], b[|b| - 1];
      RepeatsZeroIffNoDup(a);
      ElemsSnoc(b);
      assert x in a <==> x in Elems(a);
      assert Repeats(b) == Repeats(a) + (if x in a then 1 else 0);
      if x in a {
        var j :| 0 <= j < |a| && a[j] == x;
        assert b[j] == b[|b| - 1];
      } else {
        assert NoDup(a) ==> NoDup(b) by {
          forall j, k | 0 <= j < k < |b| && NoDup(a) ensures b[j] != b[k] {
            if k == |b| - 1 { assert a[j] == b[j]; } else { assert a[j] == b[j] && a[k] == b[k]; }
          }
        }
        assert NoDup(b) ==> NoDup(a) by {
          forall j, k | 0 <= j < k < |a| && NoDup(b) ensures a[j] != a[k] { assert b[j] != b[k]; }
        }
      }
    }
  }

  ghost predicate TouchedMany(c: RaidConfig, s: Raid, b: seq<nat>, t: Raid)
  {
    && Kept(c, s, t)
    && t.residentCount == s.residentCount
    && (forall j | 0 <= j < |s.blocks| && j !in b :: t.blocks[j] == s.blocks[j])
    && (forall j | 0 <= j < |s.blocks| ::
          t.blocks[j].location == s.blocks[j].location && t.blocks[j].accessCount == s.blocks[j].accessCount + multiset(b)[j])
  }

  lemma {:induction false} TouchAllEffect(c: RaidConfig, s: Raid, b: seq<nat>)
    requires InRange(b, |s.blocks|)
    ensures TouchedMany(c, s, b, TouchAll(s, b))
  {
    if b != [] {
      var a := b[..|b| - 1];
      TouchAllEffect(c, s, a);
      TouchEffect(c, TouchAll(s, a), b[|b| - 1]);
      assert b == a + [b[|b| - 1]];
    }
  }

  /** Zero-filling a list of Virgin blocks makes them Resident and counts every repetition again. */
  ghost predicate FilledMany(c: RaidConfig, s: Raid, b: seq<nat>, t: Raid)
  {
    && WritesKept(s, t)
    && (Inv(c, s) ==> Inv(c, t))
    && Balance(t) == Balance(s)
    && Excess(t) == Excess(s) + Repeats(b)
    && t.residentCount == s.residentCount + |b|
    && (forall j | 0 <= j < |s.blocks| ::
          t.blocks[j] == if j in b then s.blocks[j].(location := Resident, accessCount := 1) else s.blocks[j])
  }

  lemma FilledOne(c: RaidConfig, s: Raid, a: seq<nat>, t: Raid, x: nat)
    requires FilledMany(c, s, a, t) && x < |s.blocks| && s.blocks[x].location.Virgin?
    ensures FilledMany(c, s, a + [x], ZeroFill(t, x))
  {
    hide Inv, ResidentSet, Elems;
    ZeroFillEffect(c, t, x);
    ElemsGrow(a, x);
    assert t.blocks[x].location.Resident? <==> x in a;
  }

  lemma {:induction false} FillAllEffect(c: RaidConfig, s: Raid, b: seq<nat>)
    requires InRange(b, |s.blocks|)
    requires forall i | i in b :: s.blocks[i].location.Virgin?
    ensures FilledMany(c, s, b, FillAll(s, b))
  {
    if b == [] {
      assert Elems(b) == {};
    } else {
      hide FilledMany;
      var a, x := b[..|b| - 1], b[|b| - 1];
      assert b == a + [x];
      FillAllEffect(c, s, a);
      FilledOne(c, s, a, FillAll(s, a), x);
    }
  }

  /** Restoring a list of blocks never takes one out of memory and touches only the listed ones. */
  ghost predicate RestoredMany(c: RaidConfig, s: Raid, b: seq<nat>, t: Raid)
  {
    && Kept(c, s, t)
    && t.residentCount <= s.residentCount + |b|
    && (forall j | 0 <= j < |s.blocks| && j !in b :: t.blocks[j] == s.blocks[j])
    && (forall j | 0 <= j < |s.blocks| && s.blocks[j].location.Resident? :: t.blocks[j].location.Resident?)
    && (forall j | 0 <= j < |s.blocks| :: t.blocks[j].accessCount <= s.blocks[j].accessCount + |b|)
  }

  lemma RestoredManyStep(c: RaidConfig, s: Raid, a: seq<nat>, x: nat, t: Raid, u: Raid, r: FaultResult)
    requires RestoredMany(c, s, a, t) && RestoreFacts(c, t, x, u, r)
    ensures RestoredMany(c, s, a + [x], u)
  {
  }

  lemma {:induction false} RestoreAllEffect(c: RaidConfig, s: Raid, b: seq<nat>)
    requires InRange(b, |s.blocks|) && Inv(c, s)
    ensures RestoredMany(c, s, b, RestoreAll(c, s, b).0)
  {
    if b != [] {
      var a, x := b[..|b| - 1], b[|b| - 1];
      assert b == a + [x];
      RestoreAllEffect(c, s, a);
      var t := RestoreAll(c, s, a).0;
      RestoreEffect(c, t, x);
      RestoredManyStep(c, s, a, x, t, RestoreBlock(c, t, x).0, RestoreBlock(c, t, x).1);
    }
  }

  /** When no listed block is behind a network, each ends up Resident, and a list of non-Resident blocks adds exactly
      its distinct members to the resident counter. */
  lemma {:induction false} RestoreAllSucceeds(c: RaidConfig, s: Raid, b: seq<nat>)
    requires InRange(b, |s.blocks|) && Inv(c, s)
    requires c.world.transport.Mux? ==> forall i | i in b :: !s.blocks[i].location.RemoteKernel?
    requires forall i | i in b :: !s.blocks[i].location.Resident?
    ensures var t := RestoreAll(c, s, b).0;
            && (forall i | i in b :: t.blocks[i].location.Resident? && t.blocks[i].accessCount == RestoredCount(s.blocks[i], true))
            && t.residentCount == s.residentCount + |Elems(b)|
  {
    if b != [] {
      hide Inv, ResidentSet, RestoreBlock, Elems;
      var a, x := b[..|b| - 1], b[|b| - 1];
      assert b == a + [x];
      RestoreAllSucceeds(c, s, a);
      RestoreAllEffect(c, s, a);
      var t := RestoreAll(c, s, a).0;
      RestoreEffect(c, t, x);
      ElemsGrow(a, x);
      assert t.blocks[x].location.Resident? <==> x in a;
    }
  }

  lemma ElemsGrow(a: seq<nat>, x: nat)
    ensures |Elems(a + [x])| == |Elems(a)| + (if x in a then 0 else 1)
    ensures Elems([]) == {}
  {
    ElemsSnoc(a + [x]);
    assert (a + [x])[..|a|] == a;
    assert x in a <==> x in Elems(a);
    if x in a { assert Elems(a) + {x} == Elems(a); }
  }

  /** The members of a pipelined batch whose answer carries the recorded hash. */
  function Verified(c: RaidConfig, s: Raid, b: seq<nat>, base: nat): (r: seq<nat>)
    requires c.world.transport.Mux? && BatchAnswered(c.world.transport.reply, base, |b|)
    requires InRange(b, |s.blocks|)
    ensures |r| <= |b|
    ensures forall i | i in r :: i in b
  {
    if b == [] then []
    else
      var k := |b| - 1;
      assert b == b[..k] + [b[k]];
      var rest := Verified(c, s, b[..k], base);
      if Intact(c, s.blocks[b[k]], c.world.transport.reply(base + k).value) then rest + [b[k]] else rest
  }

  /** The state t reached from s by installing the blocks of good, in order. */
  ghost predicate InstalledFrom(c: RaidConfig, s: Raid, t: Raid, good: seq<nat>)
  {
    && |t.blocks| == |s.blocks|
    && Inv(c, t)
    && Balance(t) == Balance(s)
    && Excess(t) == Excess(s) + Repeats(good)
    && t.residentCount == s.residentCount + |good|
    && (forall j | 0 <= j < |s.blocks| && j !in good :: t.blocks[j] == s.blocks[j])
    && (forall j | 0 <= j < |s.blocks| && j in good :: t.blocks[j].location.Resident?)
    && (forall j | 0 <= j < |s.blocks| ::
          t.blocks[j].contentHash == s.blocks[j].contentHash && t.blocks[j].writeCount == s.blocks[j].writeCount
          && t.blocks[j].accessCount == s.blocks[j].accessCount + multiset(good)[j])
  }

  lemma InstallOne(c: RaidConfig, s: Raid, t: Raid, good: seq<nat>, x: nat, n: nat)
    requires InstalledFrom(c, s, t, good)
    requires x < |s.blocks| && !s.blocks[x].location.Resident?
    ensures InstalledFrom(c, s, Reload(t, x, n, true), good + [x])
  {
    var more := good + [x];
    ReloadEffect(c, t, x, n, true);
    assert more[..|more| - 1] == good;
    ElemsSnoc(more);
    assert x in Elems(good) <==> x in good;
    assert t.blocks[x].location.Resident? <==> x in good;
    assert Repeats(more) == Repeats(good) + (if x in good then 1 else 0);
  }

  lemma {:induction false} InstallBatchEffect(c: RaidConfig, s: Raid, b: seq<nat>, base: nat)
    requires c.world.transport.Mux? && BatchAnswered(c.world.transport.reply, base, |b|)
    requires InRange(b, |s.blocks|) && Inv(c, s)
    requires forall i | i in b :: s.blocks[i].location.RemoteKernel?
    ensures InstalledFrom(c, s, InstallBatch(c, s, b, base).0, Verified(c, s, b, base))
  {
    if b != [] {
      var k := |b| - 1;
      var a, x := b[..k], b[k];
      assert b == a + [x];
      InstallBatchEffect(c, s, a, base);
      var s1 := InstallBatch(c, s, a, base).0;
      var data := c.world.transport.reply(base + k).value;
      if Intact(c, s.blocks[x], data) {
        InstallOne(c, s, s1, Verified(c, s, a, base), x, |data|);
      }
    }
  }

  /** The remote members that a batch installs a second time: only a pipelined batch can do that. */
  ghost function RemoteRepeats(c: RaidConfig, s: Raid, b: seq<nat>): int
    requires InRange(b, |s.blocks|)
  {
    if c.world.transport.Mux? && BatchAnswered(c.world.transport.reply, s.busSeq, |b|)
    then Repeats(Verified(c, s, b, s.busSeq)) else 0
  }

  /** Member i of the remote part of a batch arrives: over a network, every request of the pipeline must be answered,
      and the answer to one for i must carry the recorded hash. */
  ghost predicate Arrives(c: RaidConfig, s: Raid, b: seq<nat>, i: nat)
    requires InRange(b, |s.blocks|) && i < |s.blocks|
  {
    c.world.transport.Mux? ==>
      && BatchAnswered(c.world.transport.reply, s.busSeq, |b|)
      && exists k | 0 <= k < |b| :: b[k] == i && Intact(c, s.blocks[i], c.world.transport.reply(s.busSeq + k).value)
  }

  /** How much the remote part of a batch adds to the resident counter. */
  ghost function RemoteGain(c: RaidConfig, s: Raid, b: seq<nat>): nat
    requires InRange(b, |s.blocks|)
  {
    if !c.world.transport.Mux? then |Elems(b)|
    else if BatchAnswered(c.world.transport.reply, s.busSeq, |b|) then |Verified(c, s, b, s.busSeq)|
    else 0
  }

  /** How often a remote member of a batch is installed: once, or over a network once for each intact answer. */
  ghost function Installs(c: RaidConfig, s: Raid, b: seq<nat>, i: nat): nat
    requires InRange(b, |s.blocks|)
  {
    if !c.world.transport.Mux? then (if i in b then 1 else 0)
    else if BatchAnswered(c.world.transport.reply, s.busSeq, |b|) then multiset(Verified(c, s, b, s.busSeq))[i]
    else 0
  }

  ghost predicate RemotePartFacts(c: RaidConfig, s: Raid, b: seq<nat>, t: Raid, repeats: int)
    requires InRange(b, |s.blocks|)
  {
    && Inv(c, t) && WritesKept(s, t)
    && Balance(t) == Balance(s)
    && Excess(t) == Excess(s) + repeats
    && (forall j | 0 <= j < |s.blocks| && j !in b :: t.blocks[j] == s.blocks[j])
    && (forall j | 0 <= j < |s.blocks| :: t.blocks[j].accessCount == s.blocks[j].accessCount + Installs(c, s, b, j))
    && (forall i | 0 <= i < |s.blocks| && i in b :: t.blocks[i].location.Resident? <==> Arrives(c, s, b, i))
    && t.residentCount == s.residentCount + RemoteGain(c, s, b)
  }

  lemma BatchRestoreEffect(c: RaidConfig, s: Raid, b: seq<nat>)
    requires InRange(b, |s.blocks|) && Inv(c, s)
    requires forall i | i in b :: s.blocks[i].location.RemoteKernel?
    ensures RemotePartFacts(c, s, b, BatchRestoreRemote(c, s, b).0, RemoteRepeats(c, s, b))
  {
    hide RemotePartFacts, BatchRestoreRemote;
    if !c.world.transport.Mux? {
      OneByOneEffect(c, s, b);
    } else if BatchAnswered(c.world.transport.reply, s.busSeq, |b|) {
      PipelineEffect(c, s, b);
    } else {
      UnansweredEffect(c, s, b);
    }
  }

  lemma OneByOneEffect(c: RaidConfig, s: Raid, b: seq<nat>)
    requires InRange(b, |s.blocks|) && Inv(c, s) && !c.world.transport.Mux?
    requires forall i | i in b :: s.blocks[i].location.RemoteKernel?
    ensures RemotePartFacts(c, s, b, BatchRestoreRemote(c, s, b).0, RemoteRepeats(c, s, b))
  {
    hide RestoreAll, ResidentSet, Elems;
    var s1 := s.(busSeq := s.busSeq + |b|);
    assert Inv(c, s1);
    RestoreAllEffect(c, s1, b);
    RestoreAllSucceeds(c, s1, b);
  }

  lemma PipelineEffect(c: RaidConfig, s: Raid, b: seq<nat>)
    requires InRange(b, |s.blocks|) && Inv(c, s)
    requires c.world.transport.Mux? && BatchAnswered(c.world.transport.reply, s.busSeq, |b|)
    requires forall i | i in b :: s.blocks[i].location.RemoteKernel?
    ensures RemotePartFacts(c, s, b, BatchRestoreRemote(c, s, b).0, RemoteRepeats(c, s, b))
  {
    hide InstallBatch, Verified, ResidentSet, Elems, RemotePartFacts, InstalledFrom;
    var s1 := s.(busSeq := s.busSeq + |b|);
    assert Inv(c, s1);
    InstallBatchEffect(c, s1, b, s.busSeq);
    VerifiedIgnoresBusSeq(c, s, s1, b, s.busSeq);
    InstalledIsRemotePart(c, s, s1, b, BatchRestoreRemote(c, s, b).0);
  }

  lemma InstalledIsRemotePart(c: RaidConfig, s: Raid, s1: Raid, b: seq<nat>, t: Raid)
    requires InRange(b, |s.blocks|) && s1 == s.(busSeq := s.busSeq + |b|)
    requires c.world.transport.Mux? && BatchAnswered(c.world.transport.reply, s.busSeq, |b|)
    requires forall i | i in b :: s.blocks[i].location.RemoteKernel?
    requires InstalledFrom(c, s1, t, Verified(c, s, b, s.busSeq))
    ensures RemotePartFacts(c, s, b, t, RemoteRepeats(c, s, b))
  {
    hide Verified, Repeats, Excess, Balance, Inv, Arrives;
    var good := Verified(c, s, b, s.busSeq);
    forall i | 0 <= i < |s.blocks| && i in b ensures t.blocks[i].location.Resident? <==> Arrives(c, s, b, i) {
      VerifiedArrive(c, s, b, i);
      if i !in good { assert t.blocks[i] == s.blocks[i]; }
    }
    assert Excess(s1) == Excess(s) && Balance(s1) == Balance(s) by { BusIsNotCounted(s, s.busSeq + |b|); }
  }

  lemma BusIsNotCounted(s: Raid, n: nat)
    ensures Excess(s.(busSeq := n)) == Excess(s) && Balance(s.(busSeq := n)) == Balance(s)
  {
  }

  lemma VerifiedArrive(c: RaidConfig, s: Raid, b: seq<nat>, i: nat)
    requires InRange(b, |s.blocks|) && i < |s.blocks|
    requires c.world.transport.Mux? && BatchAnswered(c.world.transport.reply, s.busSeq, |b|)
    ensures i in Verified(c, s, b, s.busSeq) <==> Arrives(c, s, b, i)
  {
    hide Verified;
    VerifiedMembers(c, s, b, s.busSeq);
  }

  lemma UnansweredEffect(c: RaidConfig, s: Raid, b: seq<nat>)
    requires InRange(b, |s.blocks|) && Inv(c, s)
    requires c.world.transport.Mux? && !BatchAnswered(c.world.transport.reply, s.busSeq, |b|)
    requires forall i | i in b :: s.blocks[i].location.RemoteKernel?
    ensures RemotePartFacts(c, s, b, BatchRestoreRemote(c, s, b).0, RemoteRepeats(c, s, b))
  {
    hide InstallBatch, Verified, ResidentSet, Elems;
  }

  lemma {:induction false} VerifiedMembers(c: RaidConfig, s: Raid, b: seq<nat>, base: nat)
    requires c.world.transport.Mux? && BatchAnswered(c.world.transport.reply, base, |b|)
    requires InRange(b, |s.blocks|)
    ensures forall i | 0 <= i < |s.blocks| :: i in Verified(c, s, b, base) <==>
              exists k | 0 <= k < |b| :: b[k] == i && Intact(c, s.blocks[i], c.world.transport.reply(base + k).value)
  {
    hide Intact;
    if b != [] {
      VerifiedMembers(c, s, b[..|b| - 1], base);
    }
  }

  lemma {:induction false} VerifiedIgnoresBusSeq(c: RaidConfig, s: Raid, s1: Raid, b: seq<nat>, base: nat)
    requires c.world.transport.Mux? && BatchAnswered(c.world.transport.reply, base, |b|)
    requires InRange(b, |s.blocks|) && s1.blocks == s.blocks
    ensures Verified(c, s1, b, base) == Verified(c, s, b, base)
  {
    if b != [] {
      VerifiedIgnoresBusSeq(c, s, s1, b[..|b| - 1], base);
    }
  }

  // ---------------------------------------------------------------- whole batches

  lemma {:induction false} PickNoDup(blocks: seq<RaidBlock>, batch: seq<nat>, k: Kind)
    requires NoDup(batch)
    ensures NoDup(Pick(blocks, batch, k))
  {
    if batch != [] {
      var a := batch[..|batch| - 1];
      assert NoDup(a) by {
        forall x, y | 0 <= x < y < |a| ensures a[x] != a[y] { assert batch[x] != batch[y]; }
      }
      PickNoDup(blocks, a, k);
      assert batch[|batch| - 1] !in a;
    }
  }

  lemma {:induction false} PicksFit(blocks: seq<RaidBlock>, batch: seq<nat>)
    ensures |Pick(blocks, batch, KResident)| + |Pick(blocks, batch, KLocal)|
            + |Pick(blocks, batch, KRemote)| + |Pick(blocks, batch, KVirgin)| <= |batch|
  {
    if batch != [] {
      PicksFit(blocks, batch[..|batch| - 1]);
    }
  }

  /** Before the remote stage: virgin and local members are in, remote members are untouched. */
  ghost predicate LocalPartFacts(c: RaidConfig, s: Raid, residents: seq<nat>, virgins: seq<nat>, locals: seq<nat>, t: Raid)
  {
    && Inv(c, t) && WritesKept(s, t)
    && Balance(t) == Balance(s)
    && Excess(t) == Excess(s) + Repeats(virgins)
    && (forall j | 0 <= j < |s.blocks| && s.blocks[j].location.RemoteKernel? :: t.blocks[j] == s.blocks[j])
    && (forall j | 0 <= j < |s.blocks| && (j in virgins || j in locals) :: t.blocks[j].location.Resident?)
    && (forall j | 0 <= j < |s.blocks| :: t.blocks[j].accessCount <= s.blocks[j].accessCount + |residents| + |virgins| + |locals|)
  }

  ghost predicate AllOfKind(s: Raid, b: seq<nat>, k: Kind)
  {
    forall i | i in b :: i < |s.blocks| && KindOf(s.blocks[i].location) == k
  }

  lemma LocalPartCompose(c: RaidConfig, s: Raid, residents: seq<nat>, virgins: seq<nat>, locals: seq<nat>,
                         s1: Raid, s2: Raid, s3: Raid, s4: Raid)
    requires Inv(c, s) && EvictedMany(c, s, s1) && TouchedMany(c, s1, residents, s2)
    requires FilledMany(c, s2, virgins, s3) && RestoredMany(c, s3, locals, s4)
    requires AllOfKind(s, residents, KResident) && AllOfKind(s, virgins, KVirgin) && AllOfKind(s, locals, KLocal)
    requires forall j | 0 <= j < |s.blocks| && j in locals :: s4.blocks[j].location.Resident?
    ensures LocalPartFacts(c, s, residents, virgins, locals, s4)
  {
    forall j | 0 <= j < |s.blocks|
      ensures s4.blocks[j].accessCount <= s.blocks[j].accessCount + |residents| + |virgins| + |locals|
    {
      assert s3.blocks[j].accessCount <= s.blocks[j].accessCount + |residents| + |virgins|;
    }
  }

  /** The states a batch passes through before its remote stage. */
  lemma LocalStages(c: RaidConfig, s: Raid, residents: seq<nat>, virgins: seq<nat>, locals: seq<nat>, n: nat)
    requires Inv(c, s)
    requires InRange(residents, |s.blocks|) && InRange(virgins, |s.blocks|) && InRange(locals, |s.blocks|)
    requires AllOfKind(s, residents, KResident) && AllOfKind(s, virgins, KVirgin) && AllOfKind(s, locals, KLocal)
    ensures var s1 := EvictTimes(c, s, n);
            var t := RestoreAll(c, FillAll(TouchAll(s1, residents), virgins), locals).0;
            && LocalPartFacts(c, s, residents, virgins, locals, t)
            && t.residentCount == s1.residentCount + |virgins| + |Elems(locals)|
  {
    hide EvictTimes, TouchAll, FillAll, RestoreAll, ResidentSet, Inv, Elems;
    EvictTimesEffect(c, s, n);
    var s1 := EvictTimes(c, s, n);
    TouchAllEffect(c, s1, residents);
    var s2 := TouchAll(s1, residents);
    FillAllEffect(c, s2, virgins);
    var s3 := FillAll(s2, virgins);
    RestoreAllEffect(c, s3, locals);
    RestoreAllSucceeds(c, s3, locals);
    LocalPartCompose(c, s, residents, virgins, locals, s1, s2, s3, RestoreAll(c, s3, locals).0);
  }

  lemma BatchLocalEffect(c: RaidConfig, s: Raid, batch: seq<nat>)
    requires Inv(c, s)
    ensures var t := BatchLocalPart(c, s, batch).0;
            var residents, virgins, locals := Pick(s.blocks, batch, KResident), Pick(s.blocks, batch, KVirgin), Pick(s.blocks, batch, KLocal);
            && LocalPartFacts(c, s, residents, virgins, locals, t)
            && t.residentCount == EvictTimes(c, s, SlotsNeeded(c, s, batch)).residentCount + |virgins| + |Elems(locals)|
  {
    LocalStages(c, s, Pick(s.blocks, batch, KResident), Pick(s.blocks, batch, KVirgin), Pick(s.blocks, batch, KLocal),
                SlotsNeeded(c, s, batch));
  }

  lemma BatchIsTwoParts(c: RaidConfig, s: Raid, batch: seq<nat>)
    ensures ReadBatch(c, s, batch).0 == BatchRestoreRemote(c, BatchLocalPart(c, s, batch).0, Pick(s.blocks, batch, KRemote)).0
  {
  }

  /** The two parts of a batch, composed. */
  ghost predicate BatchFacts(c: RaidConfig, s: Raid, weight: nat, t: Raid, repeats: int)
  {
    && Inv(c, t) && WritesKept(s, t)
    && Balance(t) == Balance(s)
    && Excess(t) == Excess(s) + repeats
    && (forall j | 0 <= j < |s.blocks| :: t.blocks[j].accessCount <= s.blocks[j].accessCount + weight)
  }

  lemma BatchCompose(c: RaidConfig, s: Raid, residents: seq<nat>, virgins: seq<nat>, locals: seq<nat>, remotes: seq<nat>,
                     s1: Raid, t: Raid, repeats: int)
    requires LocalPartFacts(c, s, residents, virgins, locals, s1)
    requires |s1.blocks| == |s.blocks| && InRange(remotes, |s.blocks|) && RemotePartFacts(c, s1, remotes, t, repeats)
    ensures BatchFacts(c, s, |residents| + |virgins| + |locals| + |remotes|, t, Repeats(virgins) + repeats)
    ensures forall j | 0 <= j < |s.blocks| && (j in virgins || j in locals) && j !in remotes :: t.blocks[j].location.Resident?
  {
    forall j | 0 <= j < |s.blocks|
      ensures t.blocks[j].accessCount <= s.blocks[j].accessCount + (|residents| + |virgins| + |locals| + |remotes|)
    {
      assert s1.blocks[j].accessCount <= s.blocks[j].accessCount + |residents| + |virgins| + |locals|;
    }
  }

  lemma BatchPartsMeet(c: RaidConfig, s: Raid, batch: seq<nat>)
    requires Inv(c, s)
    ensures var s1 := BatchLocalPart(c, s, batch).0;
            var remotes := Pick(s.blocks, batch, KRemote);
            && InRange(remotes, |s1.blocks|)
            && LocalPartFacts(c, s, Pick(s.blocks, batch, KResident), Pick(s.blocks, batch, KVirgin), Pick(s.blocks, batch, KLocal), s1)
            && RemotePartFacts(c, s1, remotes, ReadBatch(c, s, batch).0, RemoteRepeats(c, s1, remotes))
  {
    BatchLocalEffect(c, s, batch);
    BatchRestoreEffect(c, BatchLocalPart(c, s, batch).0, Pick(s.blocks, batch, KRemote));
    BatchIsTwoParts(c, s, batch);
  }

  /**
   A batch keeps the invariant and the fault/eviction balance, and pushes the resident counter ahead
   of the table by exactly the number of repeated virgin members and repeated pipelined members.
   */
  lemma BatchEffect(c: RaidConfig, s: Raid, batch: seq<nat>)
    requires Inv(c, s)
    ensures BatchFacts(c, s, |batch|, ReadBatch(c, s, batch).0,
                       Repeats(Pick(s.blocks, batch, KVirgin))
                       + RemoteRepeats(c, BatchLocalPart(c, s, batch).0, Pick(s.blocks, batch, KRemote)))
  {
    BatchPartsMeet(c, s, batch);
    PicksFit(s.blocks, batch);
    var s1 := BatchLocalPart(c, s, batch).0;
    var remotes := Pick(s.blocks, batch, KRemote);
    BatchCompose(c, s, Pick(s.blocks, batch, KResident), Pick(s.blocks, batch, KVirgin), Pick(s.blocks, batch, KLocal), remotes,
                 s1, ReadBatch(c, s, batch).0, RemoteRepeats(c, s1, remotes));
  }

  lemma {:induction false} VerifiedNoDup(c: RaidConfig, s: Raid, b: seq<nat>, base: nat)
    requires c.world.transport.Mux? && BatchAnswered(c.world.transport.reply, base, |b|)
    requires InRange(b, |s.blocks|) && NoDup(b)
    ensures NoDup(Verified(c, s, b, base))
  {
    if b != [] {
      var a := b[..|b| - 1];
      assert NoDup(a) by {
        forall x, y | 0 <= x < y < |a| ensures a[x] != a[y] { assert b[x] != b[y]; }
      }
      VerifiedNoDup(c, s, a, base);
      assert b[|b| - 1] !in a;
    }
  }

  /** The counter still equals the table after a batch exactly when neither list it blindly counts repeats. */
  lemma BatchCountExactIff(c: RaidConfig, s: Raid, batch: seq<nat>)
    requires Inv(c, s)
    ensures var s1 := BatchLocalPart(c, s, batch).0;
            var remotes := Pick(s.blocks, batch, KRemote);
            Excess(ReadBatch(c, s, batch).0) == Excess(s) <==>
              && NoDup(Pick(s.blocks, batch, KVirgin))
              && (c.world.transport.Mux? && BatchAnswered(c.world.transport.reply, s1.busSeq, |remotes|) ==>
                    NoDup(Verified(c, s1, remotes, s1.busSeq)))
    ensures Excess(ReadBatch(c, s, batch).0) >= Excess(s)
    ensures NoDup(batch) ==> Excess(ReadBatch(c, s, batch).0) == Excess(s)
  {
    BatchEffect(c, s, batch);
    var s1 := BatchLocalPart(c, s, batch).0;
    var remotes := Pick(s.blocks, batch, KRemote);
    RepeatsZeroIffNoDup(Pick(s.blocks, batch, KVirgin));
    if NoDup(batch) {
      PickNoDup(s.blocks, batch, KVirgin);
      PickNoDup(s.blocks, batch, KRemote);
    }
    if c.world.transport.Mux? && BatchAnswered(c.world.transport.reply, s1.busSeq, |remotes|) {
      RepeatsZeroIffNoDup(Verified(c, s1, remotes, s1.busSeq));
      if NoDup(batch) {
        VerifiedNoDup(c, s1, remotes, s1.busSeq);
      }
    }
  }

  /**
   A batch member that was out of memory at the start is in memory at the end, on every transport, except for what a
   network does: a remote member arrives exactly when the whole pipeline is answered and its own answer is intact.
   */
  lemma BatchMemberResidentIff(c: RaidConfig, s: Raid, batch: seq<nat>, i: nat)
    requires Inv(c, s)
    requires i in batch && i < |s.blocks| && !s.blocks[i].location.Resident?
    ensures var s1 := BatchLocalPart(c, s, batch).0;
            ReadBatch(c, s, batch).0.blocks[i].location.Resident? <==>
              (s.blocks[i].location.RemoteKernel? ==> Arrives(c, s1, Pick(s.blocks, batch, KRemote), i))
    ensures !c.world.transport.Mux? ==> ReadBatch(c, s, batch).0.blocks[i].location.Resident?
  {
    hide ReadBatch, BatchLocalPart, ResidentSet, Arrives, RemoteGain;
    BatchPartsMeet(c, s, batch);
    assert BlockOk(c, i, s.blocks[i]);
    var s1 := BatchLocalPart(c, s, batch).0;
    var remotes := Pick(s.blocks, batch, KRemote);
    BatchCompose(c, s, Pick(s.blocks, batch, KResident), Pick(s.blocks, batch, KVirgin), Pick(s.blocks, batch, KLocal), remotes,
                 s1, ReadBatch(c, s, batch).0, RemoteRepeats(c, s1, remotes));
    if !c.world.transport.Mux? { assert Arrives(c, s1, remotes, i) by { ArrivesWithoutANetwork(c, s1, remotes, i); } }
  }

  lemma ArrivesWithoutANetwork(c: RaidConfig, s: Raid, b: seq<nat>, i: nat)
    requires !c.world.transport.Mux? && InRange(b, |s.blocks|) && i < |s.blocks|
    ensures Arrives(c, s, b, i)
  {
  }

  /** A member that was in memory is always reported AlreadyResident, and only making room can take it out. */
  lemma OnlyMakingRoomEvicts(c: RaidConfig, s: Raid, batch: seq<nat>, v: nat)
    requires Inv(c, s) && v in batch && v < |s.blocks| && s.blocks[v].location.Resident?
    ensures AlreadyResident(v) in ReadBatch(c, s, batch).1
    ensures ReadBatch(c, s, batch).0.blocks[v].location.Resident?
            <==> EvictTimes(c, s, SlotsNeeded(c, s, batch)).blocks[v].location.Resident?
  {
    AlreadyResidentIsReported(c, s, batch, v);
    hide Pick, EvictTimes, TouchAll, FillAll, RestoreAll, Inv, ResidentSet, RemotePartFacts;
    var residents, virgins, locals := Pick(s.blocks, batch, KResident), Pick(s.blocks, batch, KVirgin), Pick(s.blocks, batch, KLocal);
    var n := SlotsNeeded(c, s, batch);
    var s1 := EvictTimes(c, s, n);
    EvictTimesEffect(c, s, n);
    TouchAllEffect(c, s1, residents);
    var s2 := TouchAll(s1, residents);
    FillAllEffect(c, s2, virgins);
    var s3 := FillAll(s2, virgins);
    RestoreAllEffect(c, s3, locals);
    BatchLocalIsStages(c, s, batch);
    RemotePartKeepsOthers(c, s, batch, v);
  }

  lemma BatchLocalIsStages(c: RaidConfig, s: Raid, batch: seq<nat>)
    ensures BatchLocalPart(c, s, batch).0 ==
            RestoreAll(c, FillAll(TouchAll(EvictTimes(c, s, SlotsNeeded(c, s, batch)), Pick(s.blocks, batch, KResident)),
                                  Pick(s.blocks, batch, KVirgin)),
                       Pick(s.blocks, batch, KLocal)).0
  {
    hide EvictTimes, TouchAll, FillAll, RestoreAll, Pick, SlotsNeeded;
  }

  lemma RemotePartKeepsOthers(c: RaidConfig, s: Raid, batch: seq<nat>, v: nat)
    requires Inv(c, s) && v < |s.blocks| && s.blocks[v].location.Resident?
    ensures ReadBatch(c, s, batch).0.blocks[v] == BatchLocalPart(c, s, batch).0.blocks[v]
  {
    hide ReadBatch, BatchLocalPart, RemoteRepeats, Inv, ResidentSet;
    BatchPartsMeet(c, s, batch);
  }

  lemma AlreadyResidentIsReported(c: RaidConfig, s: Raid, batch: seq<nat>, v: nat)
    requires v in batch && v < |s.blocks| && s.blocks[v].location.Resident?
    ensures AlreadyResident(v) in ReadBatch(c, s, batch).1
  {
    hide EvictTimes, TouchAll, FillAll, RestoreAll, Pick, SlotsNeeded, BatchRestoreRemote;
    var residents := Pick(s.blocks, batch, KResident);
    var k :| 0 <= k < |residents| && residents[k] == v;
    assert ReadBatch(c, s, batch).1[k] == AlreadyResident(v);
  }

  // ---------------------------------------------------------------- capacity

  /** No access count has reached the scan's starting bound. */
  ghost predicate Coolable(s: Raid)
  {
    forall j | 0 <= j < |s.blocks| :: s.blocks[j].accessCount < U64_MAX
  }

  /** With exact counters an eviction frees a slot exactly when something is resident and the network does not refuse. */
  lemma EvictionFreesIff(c: RaidConfig, s: Raid)
    requires Excess(s) == 0 && Coolable(s)
    ensures EvictColdest(c, s).1.Freed() <==> s.residentCount > 0 && !EvictionRefused(c, s)
    ensures Victim(s).Some? <==> s.residentCount > 0
  {
    EvictEffect(c, s);
    VictimIsColdest(s);
    if s.residentCount > 0 {
      assert ResidentSet(s.blocks) != {};
      var j :| j in ResidentSet(s.blocks);
      assert s.blocks[j].accessCount < U64_MAX;
    } else {
      assert ResidentSet(s.blocks) == {};
      forall j | 0 <= j < |s.blocks| ensures !s.blocks[j].location.Resident? {
        assert j !in ResidentSet(s.blocks);
      }
    }
  }

  lemma AcknowledgedIsNotRefused(c: RaidConfig, s: Raid)
    requires StoresAcknowledged(c)
    ensures !EvictionRefused(c, s)
  {
  }

  lemma {:induction false} EvictTimesFrees(c: RaidConfig, s: Raid, n: nat)
    requires StoresAcknowledged(c) && Excess(s) == 0 && Coolable(s)
    ensures EvictTimes(c, s, n).residentCount == SatSub(s.residentCount, n)
  {
    hide EvictColdest, Inv, ResidentSet, Victim, StoresAcknowledged;
    if n > 0 {
      EvictTimesFrees(c, s, n - 1);
      EvictTimesEffect(c, s, n - 1);
      var t := EvictTimes(c, s, n - 1);
      EvictionFreesIff(c, t);
      AcknowledgedIsNotRefused(c, t);
      EvictEffect(c, t);
    }
  }

  /** A fault never pushes residency past the budget, on any transport. */
  lemma FaultKeepsCapacity(c: RaidConfig, s: Raid, i: nat)
    requires Inv(c, s) && s.residentCount <= c.maxResident
    ensures FaultAt(c, s, i).0.residentCount <= c.maxResident
  {
    hide RestoreBlock, EvictColdest, ResidentSet, Victim;
    if i < |s.blocks| {
      EvictEffect(c, s);
      RestoreEffect(c, s, i);
      RestoreEffect(c, EvictColdest(c, s).0, i);
    }
  }

  /** How much a batch adds to the resident counter once it has made room. */
  ghost function BatchGain(c: RaidConfig, s: Raid, batch: seq<nat>): nat
  {
    |Pick(s.blocks, batch, KVirgin)| + |Elems(Pick(s.blocks, batch, KLocal))|
    + RemoteGain(c, BatchLocalPart(c, s, batch).0, Pick(s.blocks, batch, KRemote))
  }

  lemma BatchResidency(c: RaidConfig, s: Raid, batch: seq<nat>)
    requires Inv(c, s)
    ensures ReadBatch(c, s, batch).0.residentCount
            == EvictTimes(c, s, SlotsNeeded(c, s, batch)).residentCount + BatchGain(c, s, batch)
  {
    hide ReadBatch, BatchLocalPart, EvictTimes, Elems, ResidentSet, Inv, RemoteGain;
    BatchLocalEffect(c, s, batch);
    BatchPartsMeet(c, s, batch);
  }

  /** Without a network a batch without repeats gains every member it restores; nothing gains more. */
  lemma BatchGainBound(c: RaidConfig, s: Raid, batch: seq<nat>)
    ensures BatchGain(c, s, batch) <= ToRestore(s, batch)
    ensures NoDup(batch) && !c.world.transport.Mux? ==> BatchGain(c, s, batch) == ToRestore(s, batch)
  {
    hide BatchLocalPart, Elems;
    RepeatsZeroIffNoDup(Pick(s.blocks, batch, KLocal));
    RepeatsZeroIffNoDup(Pick(s.blocks, batch, KRemote));
    if NoDup(batch) {
      PickNoDup(s.blocks, batch, KLocal);
      PickNoDup(s.blocks, batch, KRemote);
    }
  }

  /**
   When stores are acknowledged a batch, with or without repeats, lands on an exact residency, which respects the budget
   exactly when what the batch itself brings in does.
   */
  lemma BatchCapacityIff(c: RaidConfig, s: Raid, batch: seq<nat>)
    requires StoresAcknowledged(c) && Inv(c, s) && Excess(s) == 0 && Coolable(s)
    requires s.residentCount <= c.maxResident
    ensures ReadBatch(c, s, batch).0.residentCount == SatSub(s.residentCount, SlotsNeeded(c, s, batch)) + BatchGain(c, s, batch)
    ensures ReadBatch(c, s, batch).0.residentCount <= c.maxResident <==> BatchGain(c, s, batch) <= c.maxResident
    ensures NoDup(batch) && !c.world.transport.Mux? ==> BatchGain(c, s, batch) == ToRestore(s, batch)
  {
    hide ReadBatch, BatchGain, ResidentSet, Inv, EvictTimes, StoresAcknowledged, ToRestore;
    BatchResidency(c, s, batch);
    BatchGainBound(c, s, batch);
    EvictTimesFrees(c, s, SlotsNeeded(c, s, batch));
  }

  /** A batch for which there is room already never exceeds the budget, on any transport. */
  lemma RoomyBatchFits(c: RaidConfig, s: Raid, batch: seq<nat>)
    requires Inv(c, s) && s.residentCount + ToRestore(s, batch) <= c.maxResident
    ensures ReadBatch(c, s, batch).0.residentCount <= c.maxResident
  {
    hide ReadBatch, BatchGain, ResidentSet, Inv, ToRestore;
    BatchResidency(c, s, batch);
    BatchGainBound(c, s, batch);
  }

  /** Proactive eviction, once triggered, brings residency down to the 60% target and no further. */
  lemma ProactiveReachesTarget(c: RaidConfig, s: Raid)
    requires StoresAcknowledged(c) && Excess(s) == 0 && Coolable(s)
    ensures ProactiveEvict(c, s).0.residentCount ==
            if UnderPressure(c, s) then Min(s.residentCount, EvictionTarget(c)) else s.residentCount
  {
    EvictUpToFrees(c, s, SatSub(s.residentCount, EvictionTarget(c)));
  }

  lemma {:induction false} EvictUpToFrees(c: RaidConfig, s: Raid, n: nat)
    requires StoresAcknowledged(c) && Excess(s) == 0 && Coolable(s)
    ensures EvictUpTo(c, s, n).0.residentCount == SatSub(s.residentCount, n)
    decreases n
  {
    hide EvictColdest, Inv, ResidentSet, Victim, StoresAcknowledged;
    if n > 0 {
      EvictionFreesIff(c, s);
      AcknowledgedIsNotRefused(c, s);
      EvictEffect(c, s);
      if EvictColdest(c, s).1.Freed() {
        EvictUpToFrees(c, EvictColdest(c, s).0, n - 1);
      }
    }
  }

  /** On any transport, proactive eviction never brings anything in. */
  lemma {:induction false} EvictUpToNeverGrows(c: RaidConfig, s: Raid, n: nat)
    ensures EvictUpTo(c, s, n).0.residentCount <= s.residentCount
    decreases n
  {
    hide EvictColdest, Inv, ResidentSet, Victim;
    if n > 0 {
      EvictEffect(c, s);
      EvictUpToNeverGrows(c, EvictColdest(c, s).0, n - 1);
    }
  }

  /** Memory is at its budget, so a fault has to evict. */
  predicate Full(c: RaidConfig, s: Raid)
  {
    s.residentCount >= c.maxResident
  }

  /**
   Whether a fault that evicts first can restore block i, read off the state before the call: over a network the next
   fetch must be answered with the right hash, if block i is on RAM B, or is itself the victim and goes there.
   */
  predicate RestorableOnceEvicted(c: RaidConfig, s: Raid, i: nat)
    requires i < |s.blocks|
  {
    Victim(s).Some? && c.world.transport.Mux? ==>
      var w := Victim(s).value;
      var r := c.world.transport.reply(s.busSeq + (if s.blocks[w].dirty then 1 else 0));
      if i == w then
        s.blocks[w].dirty && c.endpoint.Some? && StripeOf(w).RamB? ==>
          r.Some? && c.world.sha256(r.value) == c.world.sha256(c.world.arena(w, s.blocks[w].writeCount))
      else
        s.blocks[i].location.RemoteKernel? ==> r.Some? && Intact(c, s.blocks[i], r.value)
  }

  lemma EvictionDecidesRestore(c: RaidConfig, s: Raid, i: nat)
    requires i < |s.blocks| && EvictColdest(c, s).1.Freed()
    ensures Restorable(c, EvictColdest(c, s).0, i) <==> RestorableOnceEvicted(c, s, i)
  {
    hide Victim;
    VictimIsResident(s);
  }

  /**
   On every transport a fault fails exactly on a bad index; when memory is full, if there is no victim or the network
   refuses it; otherwise, if the block cannot be restored. A fault that does not fail leaves its block in memory,
   except that one which had to evict says nothing about the restore that follows.
   */
  lemma FaultSucceedsIff(c: RaidConfig, s: Raid, i: nat)
    requires Inv(c, s)
    ensures var (t, r) := FaultAt(c, s, i);
            && (r.FaultFailed? <==>
                  || i >= |s.blocks|
                  || (if Full(c, s) then Victim(s).None? || EvictionRefused(c, s) else !Restorable(c, s, i)))
            && (!r.FaultFailed? ==>
                  (t.blocks[i].location.Resident? <==> (Full(c, s) ==> RestorableOnceEvicted(c, s, i))))
            && (!r.FaultFailed? && !c.world.transport.Mux? ==> t.blocks[i].location.Resident?)
  {
    hide RestoreBlock, EvictColdest, Victim, ResidentSet, RestorableOnceEvicted, Restorable, Inv;
    if i < |s.blocks| {
      EvictEffect(c, s);
      RestoreEffect(c, s, i);
      RestoreEffect(c, EvictColdest(c, s).0, i);
      if EvictColdest(c, s).1.Freed() { EvictionDecidesRestore(c, s, i); }
      if !c.world.transport.Mux? { NoNetworkNeverRefuses(c, s, i); }
    }
  }

  lemma NoNetworkNeverRefuses(c: RaidConfig, s: Raid, i: nat)
    requires i < |s.blocks| && !c.world.transport.Mux?
    ensures Restorable(c, s, i) && RestorableOnceEvicted(c, s, i)
  {
  }

  /** With exact counters there is a victim unless memory is empty. */
  lemma FaultOutcome(c: RaidConfig, s: Raid, i: nat)
    requires Inv(c, s) && Excess(s) == 0 && Coolable(s)
    ensures FaultAt(c, s, i).1.FaultFailed? <==>
              || i >= |s.blocks|
              || (if Full(c, s) then s.residentCount == 0 || EvictionRefused(c, s) else !Restorable(c, s, i))
    ensures !c.world.transport.Mux? ==>
              (FaultAt(c, s, i).1.FaultFailed? <==> i >= |s.blocks| || (c.maxResident == 0 && s.residentCount == 0))
  {
    hide FaultAt, Victim, Inv;
    FaultSucceedsIff(c, s, i);
    EvictionFreesIff(c, s);
    assert |ResidentSet(s.blocks)| >= 0;
  }

  /** A fault that had to evict reports success whatever the restore did: the block is in memory afterwards
      exactly when the restore's own fetch is answered with the recorded hash. */
  lemma EvictingFaultResidentIff(c: RaidConfig, s: Raid, i: nat)
    requires Inv(c, s)
    requires i < |s.blocks| && Full(c, s) && Victim(s).Some? && !EvictionRefused(c, s)
    ensures var (t, r) := FaultAt(c, s, i);
            && r.EvictedThenRestored?
            && (t.blocks[i].location.Resident? <==> RestorableOnceEvicted(c, s, i))
  {
    hide RestoreBlock, EvictColdest, Victim, ResidentSet, RestorableOnceEvicted, Restorable;
    EvictEffect(c, s);
    RestoreEffect(c, EvictColdest(c, s).0, i);
    EvictionDecidesRestore(c, s, i);
  }

  // ---------------------------------------------------------------- runs

  /** How often a run wrote to block i. */
  function CountWrites(ops: seq<Op>, i: nat): nat
  {
    if ops == [] then 0
    else CountWrites(ops[..|ops| - 1], i) + (if ops[|ops| - 1] == WriteOp(i) then 1 else 0)
  }

  /** How many writes of a run brought a new block into residence. */
  function WriteMisses(c: RaidConfig, ops: seq<Op>): nat
    requires c.Valid()
  {
    if ops == [] then 0
    else
      var before := ops[..|ops| - 1];
      var last := ops[|ops| - 1];
      WriteMisses(c, before) + (if last.WriteOp? then WriteMiss(Run(c, before), last.block) else 0)
  }

  /** An upper bound on how much one operation can add to any access count. */
  function Weight(op: Op): nat
  {
    match op
    case BatchOp(b) => |b| + 1
    case PrefetchOp(b) => |b| + 1
    case _ => 1
  }

  function TotalWeight(ops: seq<Op>): nat
  {
    if ops == [] then 0 else TotalWeight(ops[..|ops| - 1]) + Weight(ops[|ops| - 1])
  }

  ghost predicate RepeatFree(op: Op)
  {
    && (op.BatchOp? ==> NoDup(op.batch))
    && (op.PrefetchOp? ==> NoDup(op.batch))
  }

  lemma {:induction false} NonResidentShrinks(blocks: seq<RaidBlock>, batch: seq<nat>)
    ensures |NonResident(blocks, batch)| <= |batch|
    ensures NoDup(batch) ==> NoDup(NonResident(blocks, batch))
  {
    if batch != [] {
      var a := batch[..|batch| - 1];
      NonResidentShrinks(blocks, a);
      if NoDup(batch) {
        assert NoDup(a) by {
          forall x, y | 0 <= x < y < |a| ensures a[x] != a[y] { assert batch[x] != batch[y]; }
        }
        assert batch[|batch| - 1] !in a;
      }
    }
  }

  /** What one operation does to the accounts. */
  ghost predicate StepAccounts(c: RaidConfig, s: Raid, op: Op, t: Raid)
  {
    && |t.blocks| == |s.blocks|
    && Inv(c, t)
    && Balance(t) == Balance(s) + (if op.WriteOp? then WriteMiss(s, op.block) else 0)
    && Excess(t) >= Excess(s)
    && (RepeatFree(op) ==> Excess(t) == Excess(s))
    && (forall j | 0 <= j < |s.blocks| ::
          && t.blocks[j].writeCount == s.blocks[j].writeCount + (if op == WriteOp(j) then 1 else 0)
          && t.blocks[j].accessCount <= s.blocks[j].accessCount + Weight(op))
  }

  /** A step that keeps the accounts and warms no block by more than one access. */
  ghost predicate QuietStep(c: RaidConfig, s: Raid, t: Raid)
  {
    && Kept(c, s, t) && Inv(c, t)
    && (forall j | 0 <= j < |s.blocks| :: t.blocks[j].accessCount <= s.blocks[j].accessCount + 1)
  }

  lemma QuietAccounts(c: RaidConfig, s: Raid, op: Op, t: Raid)
    requires QuietStep(c, s, t) && !op.WriteOp?
    ensures StepAccounts(c, s, op, t)
  {
  }

  lemma EvictThenRestore(c: RaidConfig, s: Raid, s1: Raid, e: EvictionResult, i: nat, t: Raid, r: FaultResult)
    requires Inv(c, s) && EvictFacts(c, s, s1, e)
    requires RestoreFacts(c, s1, i, t, r) || ProductionFacts(c, s1, i, t, r)
    ensures QuietStep(c, s, t)
  {
  }

  lemma FaultAccounts(c: RaidConfig, s: Raid, i: nat)
    requires Inv(c, s)
    ensures QuietStep(c, s, FaultAt(c, s, i).0)
  {
    hide RestoreBlock, EvictColdest, Inv, ResidentSet, Victim;
    if i < |s.blocks| {
      if s.residentCount >= c.maxResident {
        EvictEffect(c, s);
        var (s1, e) := EvictColdest(c, s);
        RestoreEffect(c, s1, i);
        EvictThenRestore(c, s, s1, e, i, RestoreBlock(c, s1, i).0, RestoreBlock(c, s1, i).1);
      } else {
        RestoreEffect(c, s, i);
      }
    }
  }

  lemma ProductionAccounts(c: RaidConfig, s: Raid, i: nat)
    requires Inv(c, s)
    ensures QuietStep(c, s, ProductionFaultAt(c, s, i).0)
  {
    hide RestoreProduction, EvictColdest, Inv, ResidentSet, Victim;
    if i < |s.blocks| {
      if s.residentCount >= c.maxResident {
        EvictEffect(c, s);
        var (s1, e) := EvictColdest(c, s);
        RestoreProductionEffect(c, s1, i);
        EvictThenRestore(c, s, s1, e, i, RestoreProduction(c, s1, i).0, RestoreProduction(c, s1, i).1);
      } else {
        RestoreProductionEffect(c, s, i);
      }
    }
  }

  lemma BatchAccounts(c: RaidConfig, s: Raid, batch: seq<nat>)
    requires c.Valid() && Inv(c, s)
    ensures StepAccounts(c, s, BatchOp(batch), ReadBatch(c, s, batch).0)
  {
    hide ReadBatch, ResidentSet, Inv, Elems;
    BatchEffect(c, s, batch);
    BatchCountExactIff(c, s, batch);
  }

  lemma AddressOfBlock(i: nat, size: nat)
    requires size > 0
    ensures i * size / size == i
  {
    var n := i * size;
    var q, r := n / size, n % size;
    assert n == size * q + r && 0 <= r < size;
    assert (i - q) * size == r by { assert (i - q) * size == i * size - q * size; }
    if i > q {
      MulAtLeast(i - q, size);
    } else if i < q {
      assert (q - i) * size == -r by { assert (q - i) * size == q * size - i * size; }
      MulAtLeast(q - i, size);
    }
  }

  lemma ReadAccounts(c: RaidConfig, s: Raid, i: nat)
    requires c.Valid() && Inv(c, s)
    ensures QuietStep(c, s, Read(c, s, i).0)
  {
    if i < |s.blocks| {
      if s.blocks[i].location.Resident? {
        TouchEffect(c, s, i);
      } else {
        FaultAccounts(c, s, i);
        AddressOfBlock(i, c.blockSize);
      }
    }
  }

  lemma PrefetchAccounts(c: RaidConfig, s: Raid, batch: seq<nat>)
    requires c.Valid() && Inv(c, s)
    ensures StepAccounts(c, s, PrefetchOp(batch), Prefetch(c, s, batch).0)
  {
    hide ReadBatch, Inv, Balance, Excess, CountGood;
    NonResidentShrinks(s.blocks, batch);
    if NonResident(s.blocks, batch) != [] {
      BatchAccounts(c, s, NonResident(s.blocks, batch));
    }
  }

  lemma EvictedManyIsQuiet(c: RaidConfig, s: Raid, t: Raid)
    requires Inv(c, s) && EvictedMany(c, s, t)
    ensures QuietStep(c, s, t)
  {
  }

  lemma WriteAccounts(c: RaidConfig, s: Raid, i: nat)
    requires Inv(c, s)
    ensures StepAccounts(c, s, WriteOp(i), Write(c, s, i))
  {
    hide Inv, Excess, Balance;
    WriteEffect(c, s, i);
  }

  lemma StepKeepsAccounts(c: RaidConfig, s: Raid, op: Op)
    requires c.Valid() && Inv(c, s)
    ensures StepAccounts(c, s, op, Step(c, s, op))
  {
    hide FaultAt, ProductionFaultAt, Read, EvictColdest, ReadBatch, Prefetch, EvictUpTo, Run, Inv, Excess, Balance, NoDup, Write;
    hide QuietStep, StepAccounts, EvictedMany;
    var t := Step(c, s, op);
    match op
    case Fault(addr) => FaultAccounts(c, s, addr / c.blockSize); QuietAccounts(c, s, op, t);
    case ProductionFault(addr) => ProductionAccounts(c, s, addr / c.blockSize); QuietAccounts(c, s, op, t);
    case ReadOp(i) => ReadAccounts(c, s, i); QuietAccounts(c, s, op, t);
    case WriteOp(i) => WriteAccounts(c, s, i);
    case EvictOp => EvictTimesEffect(c, s, 1); EvictedManyIsQuiet(c, s, t); QuietAccounts(c, s, op, t);
    case ProactiveOp =>
      EvictUpToEffect(c, s, SatSub(s.residentCount, EvictionTarget(c)));
      EvictedManyIsQuiet(c, s, t);
      QuietAccounts(c, s, op, t);
    case BatchOp(batch) => BatchAccounts(c, s, batch);
    case PrefetchOp(batch) => PrefetchAccounts(c, s, batch);
  }

  /**
   Over every run on every transport: the invariant holds, each block's write count is its number of
   writes, residency is served faults plus missing writes minus evictions, the counter never falls
   behind the table, and without repeated batch members it equals the number of Resident blocks.
   */
  lemma {:induction false} RunAccounts(c: RaidConfig, ops: seq<Op>)
    requires c.Valid()
    ensures var s := Run(c, ops);
            && |s.blocks| == c.BlockCount()
            && Inv(c, s)
            && s.residentCount == s.faultsHandled + WriteMisses(c, ops) - s.evictionsPerformed
            && s.residentCount >= |ResidentSet(s.blocks)|
            && ((forall k | 0 <= k < |ops| :: RepeatFree(ops[k])) ==> s.residentCount == |ResidentSet(s.blocks)|)
            && (forall j | 0 <= j < |s.blocks| ::
                  s.blocks[j].writeCount == CountWrites(ops, j) && s.blocks[j].accessCount <= TotalWeight(ops))
  {
    if ops == [] {
      InitialState(c);
    } else {
      var before, last := ops[..|ops| - 1], ops[|ops| - 1];
      RunAccounts(c, before);
      StepKeepsAccounts(c, Run(c, before), last);
    }
  }

  lemma WrittenFaultIsNotZeroFill(c: RaidConfig, s: Raid, i: nat, k: nat)
    requires Inv(c, s) && i < |s.blocks| && s.blocks[i].writeCount > 0
    ensures !s.blocks[i].location.Virgin?
    ensures FaultAt(c, s, k).1 != ZeroFilled(i) && ProductionFaultAt(c, s, k).1 != ZeroFilled(i)
  {
    hide EvictColdest, ResidentSet;
    EvictEffect(c, s);
    var s1 := EvictColdest(c, s).0;
    assert BlockOk(c, i, s.blocks[i]) && BlockOk(c, i, s1.blocks[i]);
  }

  /** A block that a run has written is never Virgin afterwards, so no fault zero-fills it. */
  lemma WrittenIsNeverZeroFilled(c: RaidConfig, ops: seq<Op>, i: nat, addr: nat)
    requires c.Valid() && i < c.BlockCount() && CountWrites(ops, i) > 0
    ensures i < |Run(c, ops).blocks| && !Run(c, ops).blocks[i].location.Virgin?
    ensures HandleFault(c, Run(c, ops), addr).1 != ZeroFilled(i)
    ensures HandleFaultProduction(c, Run(c, ops), addr).1 != ZeroFilled(i)
  {
    hide FaultAt, ProductionFaultAt, Run, Inv, ResidentSet, TotalWeight, WriteMisses;
    RunAccounts(c, ops);
    WrittenFaultIsNotZeroFill(c, Run(c, ops), i, addr / c.blockSize);
  }

  /**
   With the in-memory store attached from construction: after any run, every block on RAM B is in the
   store under its recorded hash, and restoring it delivers the bytes of its last write.
   */
  lemma RemoteBlocksSurviveEveryRun(c: RaidConfig, ops: seq<Op>, i: nat)
    requires c.Valid() && c.world.transport.InMemory? && i < c.BlockCount()
    requires |Run(c, ops).blocks| == c.BlockCount() && Run(c, ops).blocks[i].location.RemoteKernel?
    ensures var s := Run(c, ops);
            var bytes := c.world.arena(i, CountWrites(ops, i));
            && i % 2 == 1 && c.endpoint.Some?
            && i in s.store.blocks && s.store.blocks[i].data == bytes
            && s.blocks[i].contentHash == Some(c.world.sha256(bytes)) == Some(s.store.blocks[i].contentHash)
            && FetchRemote(c, s, i).1 == Got(bytes)
            && RestoreBlock(c, s, i).1 == RestoredRemote(i)
  {
    RunAccounts(c, ops);
    var s := Run(c, ops);
    assert BlockOk(c, i, s.blocks[i]);
    RemoteFetchIsExact(c, s, i);
  }

  /** After any run on any transport: when a fault fails, and when its block is in memory if it does not. */
  lemma SuccessfulFaultIsResident(c: RaidConfig, ops: seq<Op>, addr: nat)
    requires c.Valid()
    ensures var s := Run(c, ops);
            var (t, r) := HandleFault(c, s, addr);
            var i := addr / c.blockSize;
            && |s.blocks| == |t.blocks| == c.BlockCount()
            && (r.FaultFailed? <==>
                  || i >= c.BlockCount()
                  || (if Full(c, s) then Victim(s).None? || EvictionRefused(c, s) else !Restorable(c, s, i)))
            && (!r.FaultFailed? ==>
                  (t.blocks[i].location.Resident? <==> (Full(c, s) ==> RestorableOnceEvicted(c, s, i))))
            && (!r.FaultFailed? && !c.world.transport.Mux? ==> t.blocks[i].location.Resident?)
  {
    hide FaultAt, Run, CountWrites, TotalWeight, WriteMisses, Inv, ResidentSet, Victim, EvictionRefused, Restorable, RestorableOnceEvicted;
    RunAccounts(c, ops);
    FaultSucceedsIff(c, Run(c, ops), addr / c.blockSize);
    FaultAccounts(c, Run(c, ops), addr / c.blockSize);
  }

  /** After a repeat-free run the only failures are a bad address, an empty budget, and what the network refuses or
      does not deliver. */
  lemma FaultsSucceedAfterEveryRun(c: RaidConfig, ops: seq<Op>, addr: nat)
    requires c.Valid() && TotalWeight(ops) < U64_MAX
    requires forall k | 0 <= k < |ops| :: RepeatFree(ops[k])
    ensures var s := Run(c, ops);
            var r := HandleFault(c, s, addr).1;
            var i := addr / c.blockSize;
            && |s.blocks| == c.BlockCount()
            && (r.FaultFailed? <==>
                  || i >= c.BlockCount()
                  || (if Full(c, s) then s.residentCount == 0 || EvictionRefused(c, s) else !Restorable(c, s, i)))
            && (!c.world.transport.Mux? ==>
                  (r.FaultFailed? <==> i >= c.BlockCount() || (c.maxResident == 0 && s.residentCount == 0)))
  {
    hide FaultAt, Run, CountWrites, TotalWeight, WriteMisses, Inv, ResidentSet, EvictionRefused, Restorable;
    RunAccounts(c, ops);
    FaultOutcome(c, Run(c, ops), addr / c.blockSize);
  }

  // ---------------------------------------------------------------- the budget

  /**
   A production fault takes residency over the budget: memory is full, nothing is evicted, because there is no victim
   or because the network refuses it, and yet the block, not in memory, is restored.
   */
  predicate ProductionOverruns(c: RaidConfig, s: Raid, i: nat)
  {
    && i < |s.blocks| && Full(c, s) && !s.blocks[i].location.Resident?
    && (Victim(s).None? || EvictionRefused(c, s))
    && ProductionRestorable(c, s.(busSeq := s.busSeq + (if EvictionRefused(c, s) then 1 else 0)), i)
  }

  /** A production fault, which ignores a refused eviction, stays within the budget exactly when it does not overrun. */
  lemma ProductionCapacityIff(c: RaidConfig, s: Raid, i: nat)
    requires Inv(c, s) && s.residentCount <= c.maxResident
    ensures ProductionFaultAt(c, s, i).0.residentCount <= c.maxResident <==> !ProductionOverruns(c, s, i)
  {
    hide RestoreProduction, EvictColdest, Victim, ResidentSet, EvictionRefused;
    if i < |s.blocks| {
      EvictEffect(c, s);
      RestoreProductionEffect(c, EvictColdest(c, s).0, i);
      RestoreProductionEffect(c, s, i);
    }
  }

  /** It never does when stores are acknowledged, the counters are exact and the budget is not empty. */
  lemma ProductionKeepsCapacity(c: RaidConfig, s: Raid, i: nat)
    requires StoresAcknowledged(c) && Inv(c, s) && Excess(s) == 0 && Coolable(s)
    requires s.residentCount <= c.maxResident && c.maxResident > 0
    ensures ProductionFaultAt(c, s, i).0.residentCount <= c.maxResident
  {
    hide ProductionFaultAt, Victim, Inv, ResidentSet;
    ProductionCapacityIff(c, s, i);
    EvictionFreesIff(c, s);
    AcknowledgedIsNotRefused(c, s);
  }

  /** The blocks a batch counts without looking are named once each. */
  ghost predicate CountsOnce(s: Raid, batch: seq<nat>)
  {
    NoDup(Pick(s.blocks, batch, KVirgin)) && NoDup(Pick(s.blocks, batch, KRemote))
  }

  /** Room for a batch: enough already, or enough within the budget once acknowledged evictions have made it. */
  ghost predicate BatchWithinBudget(c: RaidConfig, s: Raid, batch: seq<nat>)
  {
    && CountsOnce(s, batch)
    && (|| s.residentCount + ToRestore(s, batch) <= c.maxResident
        || (StoresAcknowledged(c) && ToRestore(s, batch) <= c.maxResident))
  }

  /** Operations that respect the memory budget in state s. */
  ghost predicate WithinBudget(c: RaidConfig, s: Raid, op: Op)
    requires c.Valid()
  {
    match op
    case WriteOp(i) => s.residentCount + WriteMiss(s, i) <= c.maxResident
    case ProductionFault(addr) => !ProductionOverruns(c, s, addr / c.blockSize)
    case BatchOp(b) => BatchWithinBudget(c, s, b)
    case PrefetchOp(b) => BatchWithinBudget(c, s, NonResident(s.blocks, b))
    case _ => true
  }

  lemma BatchKeepsCapacity(c: RaidConfig, s: Raid, batch: seq<nat>)
    requires Inv(c, s) && Excess(s) == 0 && Coolable(s)
    requires s.residentCount <= c.maxResident && BatchWithinBudget(c, s, batch)
    ensures ReadBatch(c, s, batch).0.residentCount <= c.maxResident && Excess(ReadBatch(c, s, batch).0) == 0
  {
    hide ReadBatch, BatchLocalPart, ToRestore, Inv, ResidentSet, StoresAcknowledged, NoDup, BatchGain;
    if s.residentCount + ToRestore(s, batch) <= c.maxResident {
      RoomyBatchFits(c, s, batch);
    } else {
      BatchCapacityIff(c, s, batch);
      BatchGainBound(c, s, batch);
    }
    BatchCountExactIff(c, s, batch);
    var s1, remotes := BatchLocalPart(c, s, batch).0, Pick(s.blocks, batch, KRemote);
    if c.world.transport.Mux? && BatchAnswered(c.world.transport.reply, s1.busSeq, |remotes|) {
      VerifiedNoDup(c, s1, remotes, s1.busSeq);
    }
  }

  /** On every transport, an operation that respects the budget keeps residency within it and the counter exact. */
  lemma StepKeepsCapacity(c: RaidConfig, s: Raid, op: Op)
    requires c.Valid() && Inv(c, s) && Excess(s) == 0 && Coolable(s)
    requires s.residentCount <= c.maxResident && WithinBudget(c, s, op)
    ensures Step(c, s, op).residentCount <= c.maxResident && Excess(Step(c, s, op)) == 0
  {
    hide FaultAt, ProductionFaultAt, EvictColdest, ReadBatch, EvictUpTo, ToRestore, Inv, Excess, Coolable, ProductionOverruns, BatchWithinBudget;
    StepKeepsAccounts(c, s, op);
    match op
    case Fault(addr) => FaultKeepsCapacity(c, s, addr / c.blockSize);
    case ReadOp(i) => FaultKeepsCapacity(c, s, i); AddressOfBlock(i, c.blockSize);
    case WriteOp(i) =>
    case EvictOp => EvictEffect(c, s);
    case ProactiveOp => EvictUpToNeverGrows(c, s, SatSub(s.residentCount, EvictionTarget(c)));
    case ProductionFault(addr) => ProductionCapacityIff(c, s, addr / c.blockSize);
    case BatchOp(b) => BatchKeepsCapacity(c, s, b);
    case PrefetchOp(b) =>
      if NonResident(s.blocks, b) != [] { BatchKeepsCapacity(c, s, NonResident(s.blocks, b)); }
  }

  /** Over every run on every transport of operations that respect the budget, residency never exceeds it. */
  lemma {:induction false} RunKeepsCapacity(c: RaidConfig, ops: seq<Op>)
    requires c.Valid() && TotalWeight(ops) < U64_MAX
    requires forall k | 0 <= k < |ops| :: WithinBudget(c, Run(c, ops[..k]), ops[k])
    ensures Run(c, ops).residentCount <= c.maxResident
    ensures Run(c, ops).residentCount == |ResidentSet(Run(c, ops).blocks)|
  {
    if ops != [] {
      var before, last := ops[..|ops| - 1], ops[|ops| - 1];
      forall k | 0 <= k < |before|
        ensures WithinBudget(c, Run(c, before[..k]), before[k])
      {
        assert before[..k] == ops[..k];
      }
      RunKeepsCapacity(c, before);
      RunAccounts(c, before);
      StepKeepsCapacity(c, Run(c, before), last);
    } else {
      InitialState(c);
    }
  }
}
