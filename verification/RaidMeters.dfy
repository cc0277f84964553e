/** The traffic counters of the controller, as tallies of what its operations reported. */
module RaidMeters {
  import opened Prelude
  import opened ClusterTransport
  import opened RaidModel
  import opened RaidProofs
  import opened RaidHeat

  /** Zero pages served, bytes compressed and decompressed, transfers to and from RAM B, and bus numbers drawn. */
  datatype Meters = Meters(zeroPages: nat, compressed: nat, decompressed: nat, transfers: nat, bus: nat)
  {
    function Plus(m: Meters): Meters
    {
      Meters(zeroPages + m.zeroPages, compressed + m.compressed, decompressed + m.decompressed, transfers + m.transfers, bus + m.bus)
    }
  }

  const NOTHING: Meters := Meters(0, 0, 0, 0, 0)

  function MetersOf(s: Raid): Meters
  {
    Meters(s.zeroPagesServed, s.bytesCompressed, s.bytesDecompressed, s.remoteTransfers, s.busSeq)
  }

  // ---------------------------------------------------------------- what each result stands for

  /** An eviction that writes compresses one block and draws a number; to RAM B it is also a transfer. */
  function EvictionCost(c: RaidConfig, e: EvictionResult): Meters
  {
    match e
    case EvictedLocal(_) => Meters(0, c.blockSize, 0, 0, 1)
    case EvictedRemote(_) => Meters(0, c.blockSize, 0, 1, 1)
    case EvictionFailed(_) => Meters(0, 0, 0, 0, 1)
    case _ => NOTHING
  }

  /** A restore of a block asks the bus for a number exactly when the block is on RAM B; size is what came from there. */
  function RestoreCost(c: RaidConfig, remote: bool, r: FaultResult, size: nat): Meters
  {
    match r
    case ZeroFilled(_) => Meters(1, 0, 0, 0, 0)
    case RestoredLocal(_) => Meters(0, 0, c.blockSize, 0, 0)
    case RestoredRemote(_) => Meters(0, 0, size, 1, 1)
    case FaultFailed(_, _) => if remote then Meters(0, 0, 0, 0, 1) else NOTHING
    case _ => NOTHING
  }

  /** The size of what a fetch of block i delivers. */
  function FetchedSize(c: RaidConfig, s: Raid, i: nat): nat
  {
    match c.world.transport
    case Simulation => c.blockSize
    case InMemory => if i in s.store.blocks then |s.store.blocks[i].data| else 0
    case Mux(_, reply) => AnswerSize(reply, s.busSeq)
  }

  function AnswerSize(reply: nat -> Option<Bytes>, n: nat): nat
  {
    if reply(n).Some? then |reply(n).value| else 0
  }

  lemma EvictionIsMetered(c: RaidConfig, s: Raid)
    ensures MetersOf(EvictColdest(c, s).0) == MetersOf(s).Plus(EvictionCost(c, EvictColdest(c, s).1))
  {
    hide Victim;
  }

  lemma RestoreIsMetered(c: RaidConfig, s: Raid, i: nat)
    requires i < |s.blocks|
    ensures MetersOf(RestoreBlock(c, s, i).0)
            == MetersOf(s).Plus(RestoreCost(c, s.blocks[i].location.RemoteKernel?, RestoreBlock(c, s, i).1, FetchedSize(c, s, i)))
  {
  }

  /** The production path fetches over a network only; without one it takes a page of zeros for a remote block. */
  lemma ProductionIsMetered(c: RaidConfig, s: Raid, i: nat)
    requires i < |s.blocks|
    ensures var (t, r, d) := RestoreProduction(c, s, i);
            MetersOf(t) == MetersOf(s).Plus(RestoreCost(c, s.blocks[i].location.RemoteKernel?, r, |d|))
  {
  }

  // ---------------------------------------------------------------- operations

  function RestoreTally(c: RaidConfig, s: Raid, i: nat): Meters
    requires i < |s.blocks|
  {
    RestoreCost(c, s.blocks[i].location.RemoteKernel?, RestoreBlock(c, s, i).1, FetchedSize(c, s, i))
  }

  function FaultTally(c: RaidConfig, s: Raid, i: nat): Meters
  {
    if i >= |s.blocks| then NOTHING
    else if !Full(c, s) then RestoreTally(c, s, i)
    else
      var (s1, e) := EvictColdest(c, s);
      EvictionCost(c, e).Plus(if e.Freed() then RestoreTally(c, s1, i) else NOTHING)
  }

  function ProductionTally(c: RaidConfig, s: Raid, i: nat): Meters
  {
    if i >= |s.blocks| then NOTHING
    else
      var (s1, e) := if Full(c, s) then EvictColdest(c, s) else (s, NothingToEvict);
      var (_, r, d) := RestoreProduction(c, s1, i);
      EvictionCost(c, e).Plus(RestoreCost(c, s1.blocks[i].location.RemoteKernel?, r, |d|))
  }

  function EvictionsTally(c: RaidConfig, s: Raid, n: nat): Meters
  {
    if n == 0 then NOTHING
    else EvictionsTally(c, s, n - 1).Plus(EvictionCost(c, EvictColdest(c, EvictTimes(c, s, n - 1)).1))
  }

  function ResultsTally(c: RaidConfig, es: seq<EvictionResult>): Meters
  {
    if es == [] then NOTHING else EvictionCost(c, es[0]).Plus(ResultsTally(c, es[1..]))
  }

  function RestoresTally(c: RaidConfig, s: Raid, b: seq<nat>): Meters
    requires InRange(b, |s.blocks|)
  {
    if b == [] then NOTHING
    else RestoresTally(c, s, b[..|b| - 1]).Plus(RestoreTally(c, RestoreAll(c, s, b[..|b| - 1]).0, b[|b| - 1]))
  }

  /** Installing pipelined answers: each result that is a restore moves one answer. */
  function AnswersTally(c: RaidConfig, reply: nat -> Option<Bytes>, rs: seq<FaultResult>, base: nat): Meters
  {
    if rs == [] then NOTHING
    else
      var k := |rs| - 1;
      AnswersTally(c, reply, rs[..k], base).Plus(
        if rs[k].RestoredRemote? then Meters(0, 0, AnswerSize(reply, base + k), 1, 0) else NOTHING)
  }

  /** The remote part draws a number for every member; one by one, each fetch draws another. */
  function RemoteTally(c: RaidConfig, s: Raid, b: seq<nat>): Meters
    requires InRange(b, |s.blocks|)
  {
    var numbers := Meters(0, 0, 0, 0, |b|);
    match c.world.transport
    case Mux(_, reply) => numbers.Plus(AnswersTally(c, reply, BatchRestoreRemote(c, s, b).1, s.busSeq))
    case _ => numbers.Plus(RestoresTally(c, s.(busSeq := s.busSeq + |b|), b))
  }

  function BatchTally(c: RaidConfig, s: Raid, batch: seq<nat>): Meters
  {
    var residents, virgins, locals := Pick(s.blocks, batch, KResident), Pick(s.blocks, batch, KVirgin), Pick(s.blocks, batch, KLocal);
    var n := SlotsNeeded(c, s, batch);
    var filled := FillAll(TouchAll(EvictTimes(c, s, n), residents), virgins);
    var local := EvictionsTally(c, s, n).Plus(Meters(|virgins|, 0, 0, 0, 0)).Plus(RestoresTally(c, filled, locals));
    var remotes := Pick(s.blocks, batch, KRemote);
    if remotes == [] then local else local.Plus(RemoteTally(c, BatchLocalPart(c, s, batch).0, remotes))
  }

  function OpTally(c: RaidConfig, s: Raid, op: Op): Meters
    requires c.Valid()
  {
    match op
    case Fault(addr) => FaultTally(c, s, addr / c.blockSize)
    case ProductionFault(addr) => ProductionTally(c, s, addr / c.blockSize)
    case ReadOp(i) => if i < |s.blocks| && s.blocks[i].location.Resident? then NOTHING else FaultTally(c, s, i)
    case WriteOp(_) => NOTHING
    case EvictOp => EvictionCost(c, EvictColdest(c, s).1)
    case ProactiveOp => ResultsTally(c, ProactiveEvict(c, s).1)
    case BatchOp(batch) => BatchTally(c, s, batch)
    case PrefetchOp(batch) =>
      var wanted := NonResident(s.blocks, batch);
      if wanted == [] then NOTHING else BatchTally(c, s, wanted)
  }

  function RunTally(c: RaidConfig, ops: seq<Op>): Meters
    requires c.Valid()
  {
    if ops == [] then NOTHING
    else RunTally(c, ops[..|ops| - 1]).Plus(OpTally(c, Run(c, ops[..|ops| - 1]), ops[|ops| - 1]))
  }

  // ---------------------------------------------------------------- the counters are the tallies

  lemma FaultIsMetered(c: RaidConfig, s: Raid, i: nat)
    ensures MetersOf(FaultAt(c, s, i).0) == MetersOf(s).Plus(FaultTally(c, s, i))
  {
    hide EvictColdest, RestoreBlock, RestoreCost, EvictionCost;
    if i < |s.blocks| {
      EvictionIsMetered(c, s);
      RestoreIsMetered(c, s, i);
      RestoreIsMetered(c, EvictColdest(c, s).0, i);
    }
  }

  lemma ProductionFaultIsMetered(c: RaidConfig, s: Raid, i: nat)
    ensures MetersOf(ProductionFaultAt(c, s, i).0) == MetersOf(s).Plus(ProductionTally(c, s, i))
  {
    hide EvictColdest, RestoreProduction, RestoreCost;
    if i < |s.blocks| {
      EvictionIsMetered(c, s);
      ProductionIsMetered(c, if Full(c, s) then EvictColdest(c, s).0 else s, i);
    }
  }

  lemma {:induction false} EvictionsAreMetered(c: RaidConfig, s: Raid, n: nat)
    ensures MetersOf(EvictTimes(c, s, n)) == MetersOf(s).Plus(EvictionsTally(c, s, n))
  {
    hide EvictColdest, EvictionCost;
    if n > 0 {
      EvictionsAreMetered(c, s, n - 1);
      EvictionIsMetered(c, EvictTimes(c, s, n - 1));
    }
  }

  lemma TallyFirst(c: RaidConfig, e: EvictionResult, es: seq<EvictionResult>)
    ensures ResultsTally(c, [e] + es) == EvictionCost(c, e).Plus(ResultsTally(c, es))
    ensures EvictionCost(c, NothingToEvict) == NOTHING && ResultsTally(c, []) == NOTHING
  {
    assert ([e] + es)[1..] == es;
  }

  lemma {:induction false} EvictUpToIsMetered(c: RaidConfig, s: Raid, n: nat)
    ensures MetersOf(EvictUpTo(c, s, n).0) == MetersOf(s).Plus(ResultsTally(c, EvictUpTo(c, s, n).1))
    decreases n
  {
    hide EvictColdest, EvictionCost, ResultsTally;
    var (s1, e) := EvictColdest(c, s);
    TallyFirst(c, e, []);
    if n > 0 {
      EvictionIsMetered(c, s);
      EvictUpToIsMetered(c, s1, n - 1);
      TallyFirst(c, e, EvictUpTo(c, s1, n - 1).1);
    }
  }

  lemma {:induction false} TouchesAreFree(s: Raid, b: seq<nat>)
    requires InRange(b, |s.blocks|)
    ensures MetersOf(TouchAll(s, b)) == MetersOf(s)
  {
    if b != [] { TouchesAreFree(s, b[..|b| - 1]); }
  }

  lemma {:induction false} FillsAreMetered(s: Raid, b: seq<nat>)
    requires InRange(b, |s.blocks|)
    ensures MetersOf(FillAll(s, b)) == MetersOf(s).Plus(Meters(|b|, 0, 0, 0, 0))
  {
    if b != [] { FillsAreMetered(s, b[..|b| - 1]); }
  }

  lemma {:induction false} RestoresAreMetered(c: RaidConfig, s: Raid, b: seq<nat>)
    requires InRange(b, |s.blocks|)
    ensures MetersOf(RestoreAll(c, s, b).0) == MetersOf(s).Plus(RestoresTally(c, s, b))
  {
    hide RestoreBlock, RestoreCost;
    if b != [] {
      RestoresAreMetered(c, s, b[..|b| - 1]);
      RestoreIsMetered(c, RestoreAll(c, s, b[..|b| - 1]).0, b[|b| - 1]);
    }
  }

  lemma {:induction false} InstallIsMetered(c: RaidConfig, s: Raid, b: seq<nat>, base: nat)
    requires c.world.transport.Mux? && BatchAnswered(c.world.transport.reply, base, |b|) && InRange(b, |s.blocks|)
    ensures var (t, rs) := InstallBatch(c, s, b, base);
            |rs| == |b| && MetersOf(t) == MetersOf(s).Plus(AnswersTally(c, c.world.transport.reply, rs, base))
  {
    hide Intact;
    if b != [] {
      var k := |b| - 1;
      InstallIsMetered(c, s, b[..k], base);
      var rs := InstallBatch(c, s, b[..k], base).1;
      assert InstallBatch(c, s, b, base).1[..k] == rs;
    }
  }

  lemma {:induction false} FailuresAreFree(c: RaidConfig, reply: nat -> Option<Bytes>, rs: seq<FaultResult>, base: nat)
    requires forall k | 0 <= k < |rs| :: rs[k].FaultFailed?
    ensures AnswersTally(c, reply, rs, base) == NOTHING
  {
    if rs != [] { FailuresAreFree(c, reply, rs[..|rs| - 1], base); }
  }

  lemma RemoteIsMetered(c: RaidConfig, s: Raid, b: seq<nat>)
    requires InRange(b, |s.blocks|)
    ensures MetersOf(BatchRestoreRemote(c, s, b).0) == MetersOf(s).Plus(RemoteTally(c, s, b))
  {
    hide RestoreAll, InstallBatch, AnswersTally, RestoresTally;
    var s1 := s.(busSeq := s.busSeq + |b|);
    match c.world.transport
    case Mux(_, reply) =>
      if BatchAnswered(reply, s.busSeq, |b|) {
        InstallIsMetered(c, s1, b, s.busSeq);
      } else {
        FailuresAreFree(c, reply, BatchRestoreRemote(c, s, b).1, s.busSeq);
      }
    case _ => RestoresAreMetered(c, s1, b);
  }

  lemma BatchIsMetered(c: RaidConfig, s: Raid, batch: seq<nat>)
    ensures MetersOf(ReadBatch(c, s, batch).0) == MetersOf(s).Plus(BatchTally(c, s, batch))
  {
    hide EvictTimes, TouchAll, FillAll, RestoreAll, BatchRestoreRemote, SlotsNeeded, BatchLocalPart, EvictionsTally, RestoresTally, RemoteTally;
    var residents, virgins, locals := Pick(s.blocks, batch, KResident), Pick(s.blocks, batch, KVirgin), Pick(s.blocks, batch, KLocal);
    var n := SlotsNeeded(c, s, batch);
    EvictionsAreMetered(c, s, n);
    TouchesAreFree(EvictTimes(c, s, n), residents);
    FillsAreMetered(TouchAll(EvictTimes(c, s, n), residents), virgins);
    RestoresAreMetered(c, FillAll(TouchAll(EvictTimes(c, s, n), residents), virgins), locals);
    BatchLocalIsStages(c, s, batch);
    RemoteIsMetered(c, BatchLocalPart(c, s, batch).0, Pick(s.blocks, batch, KRemote));
  }

  lemma StepIsMetered(c: RaidConfig, s: Raid, op: Op)
    requires c.Valid()
    ensures MetersOf(Step(c, s, op)) == MetersOf(s).Plus(OpTally(c, s, op))
  {
    hide FaultAt, ProductionFaultAt, EvictColdest, EvictUpTo, ReadBatch, FaultTally, ProductionTally, BatchTally, EvictionCost;
    match op
    case Fault(addr) => FaultIsMetered(c, s, addr / c.blockSize);
    case ProductionFault(addr) => ProductionFaultIsMetered(c, s, addr / c.blockSize);
    case ReadOp(i) => AddressOfBlock(i, c.blockSize); FaultIsMetered(c, s, i); FarFaultIsFree(c, s, i);
    case WriteOp(_) =>
    case EvictOp => EvictionIsMetered(c, s);
    case ProactiveOp => EvictUpToIsMetered(c, s, SatSub(s.residentCount, EvictionTarget(c)));
    case BatchOp(batch) => BatchIsMetered(c, s, batch);
    case PrefetchOp(batch) => BatchIsMetered(c, s, NonResident(s.blocks, batch));
  }

  lemma FarFaultIsFree(c: RaidConfig, s: Raid, i: nat)
    ensures i >= |s.blocks| ==> FaultTally(c, s, i) == NOTHING
  {
  }

  /** Over every run on every transport the traffic counters are the tallies of what the operations reported. */
  lemma {:induction false} RunIsMetered(c: RaidConfig, ops: seq<Op>)
    requires c.Valid()
    ensures MetersOf(Run(c, ops)) == RunTally(c, ops)
  {
    hide Step, OpTally;
    if ops != [] {
      RunIsMetered(c, ops[..|ops| - 1]);
      StepIsMetered(c, Run(c, ops[..|ops| - 1]), ops[|ops| - 1]);
    }
  }
}
