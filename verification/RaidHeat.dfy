/** How warm each block is: the access count as a tally over the run, and what reading does to the eviction order. */
module RaidHeat {
  import opened Prelude
  import opened RaidModel
  import opened RaidProofs
  import opened RaidSurvival

  // ---------------------------------------------------------------- one operation

  /** The access count of the faulted block after a fault, told from the state before it. */
  function FaultHeat(c: RaidConfig, s: Raid, i: nat, n: nat): nat
    requires i < |s.blocks|
  {
    var b := s.blocks[i];
    var victim := Full(c, s) && Victim(s) == Some(i);
    if Full(c, s) && (Victim(s).None? || EvictionRefused(c, s)) then n
    else if b.location.Resident? && !victim then n
    else if b.location.Virgin? || (victim && !b.dirty && b.contentHash.None?) then 1
    else if if Full(c, s) then RestorableOnceEvicted(c, s, i) else Restorable(c, s, i) then n + 1
    else n
  }

  /** The same for a production fault, which goes on when nothing can be evicted. */
  function ProductionFaultHeat(c: RaidConfig, s: Raid, i: nat, n: nat): nat
    requires i < |s.blocks|
  {
    var s1 := if Full(c, s) then EvictColdest(c, s).0 else s;
    var b := s1.blocks[i];
    if b.location.Resident? then n
    else if b.location.Virgin? then 1
    else if ProductionRestorable(c, s1, i) then n + 1
    else n
  }

  /**
   The access count of block i after a batch: a Resident member gains one for each time it is named, a Virgin one starts
   at one, a locally stored one gains one, and a remote one gains one for each time it is installed.
   */
  function BatchHeat(c: RaidConfig, s: Raid, batch: seq<nat>, i: nat, n: nat): nat
    requires i < |s.blocks|
  {
    match s.blocks[i].location
    case Resident => n + multiset(batch)[i]
    case Virgin => if i in batch then 1 else n
    case LocalStore(_) => if i in batch then n + 1 else n
    case RemoteKernel(_, _, _) => n + RemoteInstalls(c, s, batch, i)
    case Fetching => n
  }

  /** How often a batch installs remote block i: once if named, or over a network once for each intact answer. */
  function RemoteInstalls(c: RaidConfig, s: Raid, batch: seq<nat>, i: nat): nat
  {
    if !c.world.transport.Mux? then (if i in batch then 1 else 0)
    else
      var remotes := Pick(s.blocks, batch, KRemote);
      var base := BatchLocalPart(c, s, batch).0.busSeq;
      if BatchAnswered(c.world.transport.reply, base, |remotes|) then IntactAnswers(c, s, remotes, base, i) else 0
  }

  /** How many answers of a pipeline are for block i and carry its recorded hash. */
  function IntactAnswers(c: RaidConfig, s: Raid, remotes: seq<nat>, base: nat, i: nat): nat
    requires c.world.transport.Mux? && BatchAnswered(c.world.transport.reply, base, |remotes|)
    requires InRange(remotes, |s.blocks|)
  {
    if remotes == [] then 0
    else
      var k := |remotes| - 1;
      var hash := s.blocks[remotes[k]].contentHash;
      IntactAnswers(c, s, remotes[..k], base, i)
      + (if remotes[k] == i && (hash.Some? ==> c.world.sha256(c.world.transport.reply(base + k).value) == hash.value) then 1 else 0)
  }

  /** The access count of block i after one operation, from what it was: writes and resident reads add one, evictions
      leave it, and a zero fill starts it at one. */
  function NextHeat(c: RaidConfig, s: Raid, op: Op, i: nat, n: nat): nat
    requires c.Valid() && i < |s.blocks|
  {
    match op
    case WriteOp(j) => if j == i then n + 1 else n
    case ReadOp(j) =>
      if j != i then n else if s.blocks[i].location.Resident? then n + 1 else FaultHeat(c, s, i, n)
    case Fault(addr) => if addr / c.blockSize == i then FaultHeat(c, s, i, n) else n
    case ProductionFault(addr) => if addr / c.blockSize == i then ProductionFaultHeat(c, s, i, n) else n
    case BatchOp(batch) => BatchHeat(c, s, batch, i, n)
    case PrefetchOp(batch) => BatchHeat(c, s, NonResident(s.blocks, batch), i, n)
    case _ => n
  }

  /** The tally of a run for block i. */
  function Heat(c: RaidConfig, ops: seq<Op>, i: nat): nat
    requires c.Valid()
  {
    if ops == [] then 0
    else
      var before, last := ops[..|ops| - 1], ops[|ops| - 1];
      if i < |Run(c, before).blocks| then NextHeat(c, Run(c, before), last, i, Heat(c, before, i)) else 0
  }

  // ---------------------------------------------------------------- faults

  /** What an eviction makes of its victim, as a later restore sees it. */
  lemma EvictedLocation(c: RaidConfig, s: Raid)
    requires Victim(s).Some? && EvictColdest(c, s).1.Freed()
    ensures var w := Victim(s).value;
            EvictColdest(c, s).0.blocks[w].location.Virgin? <==> !s.blocks[w].dirty && s.blocks[w].contentHash.None?
  {
    hide Victim;
  }

  lemma FaultHeats(c: RaidConfig, s: Raid, i: nat)
    requires Inv(c, s) && i < |s.blocks|
    ensures var t := FaultAt(c, s, i).0;
            && (forall j | 0 <= j < |s.blocks| && j != i :: t.blocks[j].accessCount == s.blocks[j].accessCount)
            && t.blocks[i].accessCount == FaultHeat(c, s, i, s.blocks[i].accessCount)
  {
    hide RestoreBlock, EvictColdest, Victim, RestorableOnceEvicted, Restorable, Inv, Kept, EvictionRefused;
    if Full(c, s) {
      EvictEffect(c, s);
      var s1 := EvictColdest(c, s).0;
      if EvictColdest(c, s).1.Freed() {
        EvictedLocation(c, s);
        EvictionDecidesRestore(c, s, i);
        InvAfterEviction(c, s);
        RestoreEffect(c, s1, i);
        VirginIsRestorable(c, s1, i);
      }
    } else {
      RestoreEffect(c, s, i);
      VirginIsRestorable(c, s, i);
    }
  }

  lemma VirginIsRestorable(c: RaidConfig, s: Raid, i: nat)
    requires i < |s.blocks|
    ensures s.blocks[i].location.Virgin? ==> Restorable(c, s, i) && ProductionRestorable(c, s, i)
  {
  }

  lemma InvAfterEviction(c: RaidConfig, s: Raid)
    requires Inv(c, s)
    ensures Inv(c, EvictColdest(c, s).0)
  {
    hide EvictColdest;
    EvictEffect(c, s);
  }

  lemma ProductionFaultHeats(c: RaidConfig, s: Raid, i: nat)
    requires Inv(c, s) && i < |s.blocks|
    ensures var t := ProductionFaultAt(c, s, i).0;
            && (forall j | 0 <= j < |s.blocks| && j != i :: t.blocks[j].accessCount == s.blocks[j].accessCount)
            && t.blocks[i].accessCount == ProductionFaultHeat(c, s, i, s.blocks[i].accessCount)
  {
    hide RestoreProduction, EvictColdest, Victim, Inv, Kept, ProductionRestorable, EvictionRefused;
    EvictEffect(c, s);
    InvAfterEviction(c, s);
    var s1 := if Full(c, s) then EvictColdest(c, s).0 else s;
    RestoreProductionEffect(c, s1, i);
    VirginIsRestorable(c, s1, i);
  }

  // ---------------------------------------------------------------- batches

  lemma {:induction false} PickKeepsMultiplicity(blocks: seq<RaidBlock>, batch: seq<nat>, k: Kind, i: nat)
    ensures multiset(Pick(blocks, batch, k))[i]
            == if i < |blocks| && KindOf(blocks[i].location) == k then multiset(batch)[i] else 0
  {
    if batch != [] {
      var a, x := batch[..|batch| - 1], batch[|batch| - 1];
      assert batch == a + [x];
      PickKeepsMultiplicity(blocks, a, k, i);
    }
  }

  /** The touch stage raises each Resident member by exactly the number of times the batch names it. */
  lemma TouchStageHeats(c: RaidConfig, s: Raid, t: Raid, batch: seq<nat>, j: nat)
    requires |t.blocks| == |s.blocks| && j < |s.blocks| && s.blocks[j].location.Resident?
    ensures TouchAll(t, Pick(s.blocks, batch, KResident)).blocks[j].accessCount == t.blocks[j].accessCount + multiset(batch)[j]
  {
    hide Kept;
    TouchAllEffect(c, t, Pick(s.blocks, batch, KResident));
    PickKeepsMultiplicity(s.blocks, batch, KResident, j);
  }

  /** The access count of a block after the stages of a batch that come before its remote part. */
  function LocalHeat(b: RaidBlock, times: nat): nat
  {
    match b.location
    case Resident => b.accessCount + times
    case Virgin => if times > 0 then 1 else b.accessCount
    case LocalStore(_) => if times > 0 then b.accessCount + 1 else b.accessCount
    case _ => b.accessCount
  }

  lemma LocalStagesHeat(c: RaidConfig, s: Raid, batch: seq<nat>, s1: Raid, s2: Raid, s3: Raid, s4: Raid, j: nat)
    requires |s1.blocks| == |s.blocks| && j < |s.blocks|
    requires var blocks := s.blocks;
             && EvictedMany(c, s, s1) && TouchedMany(c, s1, Pick(blocks, batch, KResident), s2)
             && FilledMany(c, s2, Pick(blocks, batch, KVirgin), s3) && RestoredMany(c, s3, Pick(blocks, batch, KLocal), s4)
             && (j in Pick(blocks, batch, KLocal) ==> s4.blocks[j].accessCount == RestoredCount(s3.blocks[j], true))
    ensures s4.blocks[j].accessCount == LocalHeat(s.blocks[j], multiset(batch)[j])
  {
    hide Inv, Excess, Balance, Pick, Repeats;
    PickKeepsMultiplicity(s.blocks, batch, KResident, j);
    assert multiset(batch)[j] > 0 <==> j in batch;
    var blocks := s.blocks;
    var residents, virgins, locals := Pick(blocks, batch, KResident), Pick(blocks, batch, KVirgin), Pick(blocks, batch, KLocal);
    match blocks[j].location
    case Resident => assert j !in virgins && j !in locals;
    case Virgin => assert j !in residents && j !in locals;
    case LocalStore(_) => assert j !in residents && j !in virgins;
    case _ => assert j !in residents && j !in virgins && j !in locals;
  }

  lemma LocalPartHeats(c: RaidConfig, s: Raid, batch: seq<nat>, j: nat)
    requires Inv(c, s) && j < |s.blocks|
    ensures BatchLocalPart(c, s, batch).0.blocks[j].accessCount == LocalHeat(s.blocks[j], multiset(batch)[j])
  {
    hide EvictTimes, TouchAll, FillAll, RestoreAll, Inv, Elems, SlotsNeeded, Kept, Excess, Balance, BatchLocalPart;
    var blocks := s.blocks;
    var residents, virgins, locals := Pick(blocks, batch, KResident), Pick(blocks, batch, KVirgin), Pick(blocks, batch, KLocal);
    EvictTimesEffect(c, s, SlotsNeeded(c, s, batch));
    var s1 := EvictTimes(c, s, SlotsNeeded(c, s, batch));
    TouchAllEffect(c, s1, residents);
    var s2 := TouchAll(s1, residents);
    FillAllEffect(c, s2, virgins);
    var s3 := FillAll(s2, virgins);
    InvThroughStages(c, s, s1, s2, s3, residents, virgins);
    RestoreAllEffect(c, s3, locals);
    RestoreAllSucceeds(c, s3, locals);
    LocalStagesHeat(c, s, batch, s1, s2, s3, RestoreAll(c, s3, locals).0, j);
    BatchLocalIsStages(c, s, batch);
  }

  lemma InvThroughStages(c: RaidConfig, s: Raid, s1: Raid, s2: Raid, s3: Raid, residents: seq<nat>, virgins: seq<nat>)
    requires Inv(c, s) && EvictedMany(c, s, s1) && TouchedMany(c, s1, residents, s2) && FilledMany(c, s2, virgins, s3)
    ensures Inv(c, s3)
  {
    hide Inv;
  }

  lemma {:induction false} VerifiedCountsIntactAnswers(c: RaidConfig, s: Raid, t: Raid, b: seq<nat>, base: nat, i: nat)
    requires c.world.transport.Mux? && BatchAnswered(c.world.transport.reply, base, |b|)
    requires InRange(b, |s.blocks|) && |t.blocks| == |s.blocks|
    requires forall j | j in b :: t.blocks[j] == s.blocks[j]
    ensures multiset(Verified(c, t, b, base))[i] == IntactAnswers(c, s, b, base, i)
  {
    if b != [] {
      var a, x := b[..|b| - 1], b[|b| - 1];
      assert b == a + [x];
      VerifiedCountsIntactAnswers(c, s, t, a, base, i);
    }
  }

  lemma InstallsAreAnswers(c: RaidConfig, s: Raid, batch: seq<nat>, i: nat)
    requires Inv(c, s) && i < |s.blocks| && s.blocks[i].location.RemoteKernel?
    ensures Installs(c, BatchLocalPart(c, s, batch).0, Pick(s.blocks, batch, KRemote), i) == RemoteInstalls(c, s, batch, i)
  {
    hide BatchLocalPart, Inv, Excess, Balance, Verified, IntactAnswers;
    BatchPartsMeet(c, s, batch);
    var s1, remotes := BatchLocalPart(c, s, batch).0, Pick(s.blocks, batch, KRemote);
    if c.world.transport.Mux? && BatchAnswered(c.world.transport.reply, s1.busSeq, |remotes|) {
      VerifiedCountsIntactAnswers(c, s, s1, remotes, s1.busSeq, i);
    }
  }

  lemma NotListedNotInstalled(c: RaidConfig, s: Raid, b: seq<nat>, i: nat)
    requires InRange(b, |s.blocks|) && i !in b
    ensures Installs(c, s, b, i) == 0
  {
  }

  lemma BatchHeats(c: RaidConfig, s: Raid, batch: seq<nat>, i: nat)
    requires Inv(c, s) && i < |s.blocks|
    ensures ReadBatch(c, s, batch).0.blocks[i].accessCount == BatchHeat(c, s, batch, i, s.blocks[i].accessCount)
  {
    hide BatchLocalPart, ReadBatch, Inv, Excess, Balance, Installs, RemoteInstalls, Repeats, RemoteRepeats;
    BatchPartsMeet(c, s, batch);
    LocalPartHeats(c, s, batch, i);
    var s1, remotes := BatchLocalPart(c, s, batch).0, Pick(s.blocks, batch, KRemote);
    assert i in batch <==> multiset(batch)[i] > 0;
    if s.blocks[i].location.RemoteKernel? {
      InstallsAreAnswers(c, s, batch, i);
    } else {
      NotListedNotInstalled(c, s1, remotes, i);
    }
  }

  // ---------------------------------------------------------------- runs

  lemma NothingPrefetched(c: RaidConfig, s: Raid, i: nat)
    requires Inv(c, s) && i < |s.blocks|
    ensures BatchHeat(c, s, [], i, s.blocks[i].accessCount) == s.blocks[i].accessCount
  {
    hide BatchLocalPart, Inv;
    if s.blocks[i].location.RemoteKernel? && c.world.transport.Mux? {
      assert Pick(s.blocks, [], KRemote) == [];
    }
  }

  lemma StepHeats(c: RaidConfig, s: Raid, op: Op, i: nat)
    requires c.Valid() && Inv(c, s) && i < |s.blocks|
    ensures |Step(c, s, op).blocks| == |s.blocks|
    ensures Step(c, s, op).blocks[i].accessCount == NextHeat(c, s, op, i, s.blocks[i].accessCount)
  {
    hide FaultAt, ProductionFaultAt, EvictColdest, ReadBatch, EvictUpTo, Inv, FaultHeat, ProductionFaultHeat, BatchHeat, EvictedMany;
    StepKeepsAccounts(c, s, op);
    match op
    case Fault(addr) =>
      if addr / c.blockSize < |s.blocks| { FaultHeats(c, s, addr / c.blockSize); } else { FarFault(c, s, addr / c.blockSize); }
    case ProductionFault(addr) =>
      if addr / c.blockSize < |s.blocks| { ProductionFaultHeats(c, s, addr / c.blockSize); } else { FarFault(c, s, addr / c.blockSize); }
    case ReadOp(j) =>
      if j < |s.blocks| { AddressOfBlock(j, c.blockSize); FaultHeats(c, s, j); }
    case WriteOp(_) =>
    case EvictOp => EvictEffect(c, s);
    case ProactiveOp =>
      EvictUpToEffect(c, s, SatSub(s.residentCount, EvictionTarget(c)));
      EvictedKeepHeat(c, s, Step(c, s, op), i);
    case BatchOp(batch) => BatchHeats(c, s, batch, i);
    case PrefetchOp(batch) =>
      BatchHeats(c, s, NonResident(s.blocks, batch), i);
      NothingPrefetched(c, s, i);
  }

  lemma FarFault(c: RaidConfig, s: Raid, i: nat)
    requires i >= |s.blocks|
    ensures FaultAt(c, s, i).0 == s && ProductionFaultAt(c, s, i).0 == s
  {
  }

  lemma EvictedKeepHeat(c: RaidConfig, s: Raid, t: Raid, i: nat)
    requires (EvictedMany(c, s, t) || t == s) && i < |s.blocks|
    ensures |t.blocks| == |s.blocks| && t.blocks[i].accessCount == s.blocks[i].accessCount
  {
  }

  /**
   Over every run on every transport the access count of a block is its tally: writes, reads while Resident, mentions in
   batches while Resident, and successful restores, since the last time the block was zero-filled, which counts one.
   */
  lemma {:induction false} RunHeats(c: RaidConfig, ops: seq<Op>, i: nat)
    requires c.Valid() && i < c.BlockCount()
    ensures |Run(c, ops).blocks| == c.BlockCount() && Run(c, ops).blocks[i].accessCount == Heat(c, ops, i)
  {
    hide Step, NextHeat, Inv, CountWrites, TotalWeight, WriteMisses, ResidentSet;
    if ops == [] {
      assert Run(c, ops) == Init(c);
    } else {
      var before, last := ops[..|ops| - 1], ops[|ops| - 1];
      RunHeats(c, before, i);
      RunAccounts(c, before);
      StepHeats(c, Run(c, before), last, i);
    }
  }

  // ---------------------------------------------------------------- reading protects

  /**
   Of two Resident blocks that are equally warm after a run, one further read of the first makes the second leave first,
   and everything ahead of the second is then ahead of the first.
   */
  lemma ReadingProtects(c: RaidConfig, ops: seq<Op>, i: nat, j: nat)
    requires c.Valid() && i < c.BlockCount() && j < c.BlockCount() && i != j && Heat(c, ops, i) == Heat(c, ops, j)
    requires |Run(c, ops).blocks| == c.BlockCount()
    requires Run(c, ops).blocks[i].location.Resident? && Run(c, ops).blocks[j].location.Resident?
    ensures var t := Run(c, ops + [ReadOp(i)]);
            && |t.blocks| == c.BlockCount() && t.blocks[i].location.Resident? && t.blocks[j].location.Resident?
            && LeavesBefore(t.blocks, HandOf(t), j, i) && !LeavesBefore(t.blocks, HandOf(t), i, j)
            && Ahead(t.blocks, HandOf(t), j) + {j} <= Ahead(t.blocks, HandOf(t), i)
  {
    hide Inv, Hand, Heat, CountWrites, TotalWeight, WriteMisses, ResidentSet;
    RunHeats(c, ops, i);
    RunHeats(c, ops, j);
    assert (ops + [ReadOp(i)])[..|ops|] == ops;
    var s, t := Run(c, ops), Run(c, ops + [ReadOp(i)]);
    assert t == Read(c, s, i).0;
    hide Run;
    assert t.blocks[i].accessCount == s.blocks[i].accessCount + 1;
    forall k: nat | k in Ahead(t.blocks, HandOf(t), j) ensures k in Ahead(t.blocks, HandOf(t), i) {
    }
  }

  /** So no number of evictions takes the block just read and leaves the other. */
  lemma ReadBlockOutlives(c: RaidConfig, ops: seq<Op>, i: nat, j: nat, n: nat)
    requires c.Valid() && i < c.BlockCount() && j < c.BlockCount() && i != j && Heat(c, ops, i) == Heat(c, ops, j)
    requires StoresAcknowledged(c) && Heat(c, ops, i) + 1 < U64_MAX
    requires |Run(c, ops).blocks| == c.BlockCount()
    requires Run(c, ops).blocks[i].location.Resident? && Run(c, ops).blocks[j].location.Resident?
    ensures var t := EvictTimes(c, Run(c, ops + [ReadOp(i)]), n);
            |t.blocks| == c.BlockCount() && (!t.blocks[i].location.Resident? ==> !t.blocks[j].location.Resident?)
  {
    hide Hand, Run, Heat, EvictTimes, Ahead, LeavesBefore, StoresAcknowledged;
    ReadingProtects(c, ops, i, j);
    var t := Run(c, ops + [ReadOp(i)]);
    SurvivesIff(c, t, i, n);
    SurvivesIff(c, t, j, n);
    RunHeats(c, ops + [ReadOp(i)], j);
    ReadLeavesOthers(c, ops, i, j);
    var ahead, behind := Ahead(t.blocks, HandOf(t), j), Ahead(t.blocks, HandOf(t), i);
    SubsetSize(ahead, behind);
  }

  lemma ReadLeavesOthers(c: RaidConfig, ops: seq<Op>, i: nat, j: nat)
    requires c.Valid() && j < c.BlockCount() && i != j
    ensures Heat(c, ops + [ReadOp(i)], j) == Heat(c, ops, j)
  {
    RunHeats(c, ops, j);
    assert (ops + [ReadOp(i)])[..|ops|] == ops;
  }

  lemma SubsetSize(a: set<nat>, b: set<nat>)
    requires a <= b
    ensures |a| <= |b|
  {
    assert b == a + (b - a);
  }
}
