/**
 The RAM RAID controller (ram_raid.rs) as functions on its state. The class in RamRaid.dfy is
 proved to compute exactly these functions; RaidProofs.dfy proves what every run of them keeps.
 */
module RaidModel {
  import opened Prelude
  import opened ClusterTransport

  const U64_MAX: nat := 0xFFFF_FFFF_FFFF_FFFF

  datatype Stripe = RamA | RamB

  function StripeOf(i: nat): Stripe
  {
    if i % 2 == 0 then RamA else RamB
  }

  /** The fork tokens and .tza paths the source formats as strings. */
  datatype ForkToken = CleanDrop(block: nat) | LocalFork(seqNo: nat) | RemoteFork(seqNo: nat)

  datatype Location =
    | Resident
    | LocalStore(token: ForkToken)
    | RemoteKernel(kernelId: string, endpoint: string, token: ForkToken)
    | Fetching
    | Virgin

  datatype RaidBlock = RaidBlock(
    location: Location,
    contentHash: Option<string>,
    accessCount: nat,
    writeCount: nat,
    dirty: bool)

  /**
   How RAM B is reached. Mux is an arbitrary network: storeOk(n) says whether the store request
   with bus sequence number n is acknowledged, reply(n) which bytes, if any, answer fetch n.
   */
  datatype Transport =
    | Simulation
    | InMemory
    | Mux(storeOk: nat -> bool, reply: nat -> Option<Bytes>)

  /** Library functions and the contents of application memory, as inputs. */
  datatype World = World(
    transport: Transport,
    sha256: Bytes -> string,
    simulatedHash: Bytes -> string,
    dirtyMark: (nat, nat) -> string,
    /** arena(i, w): the bytes of block i after its w-th write. */
    arena: (nat, nat) -> Bytes)

  datatype RaidConfig = RaidConfig(
    arenaSize: nat,
    blockSize: nat,
    maxResident: nat,
    endpoint: Option<string>,
    kernelId: Option<string>,
    fromAint: string,
    world: World)
  {
    predicate Valid() { blockSize > 0 }

    function BlockCount(): nat
      requires Valid()
    {
      arenaSize / blockSize
    }
  }

  datatype Raid = Raid(
    blocks: seq<RaidBlock>,
    residentCount: int,
    faultsHandled: nat,
    evictionsPerformed: nat,
    bytesCompressed: nat,
    bytesDecompressed: nat,
    remoteTransfers: nat,
    zeroPagesServed: nat,
    busSeq: nat,
    lruClock: nat,
    store: StoreValue)

  datatype FailReason = OutOfRange | CannotEvict | FetchFailed | NotInStore | Integrity | AlreadyFetching

  datatype FaultResult =
    | AlreadyResident(block: nat)
    | RestoredLocal(block: nat)
    | RestoredRemote(block: nat)
    | ZeroFilled(block: nat)
    | EvictedThenRestored(victim: nat, block: nat)
    | FaultFailed(block: nat, reason: FailReason)

  datatype EvictionResult =
    | EvictedLocal(block: nat)
    | EvictedRemote(block: nat)
    | Dropped(block: nat)
    | NothingToEvict
    | EvictionFailed(block: nat)
  {
    predicate Freed() { EvictedLocal? || EvictedRemote? || Dropped? }
  }

  const VIRGIN_BLOCK: RaidBlock := RaidBlock(Virgin, None, 0, 0, false)

  function Init(c: RaidConfig): Raid
    requires c.Valid()
  {
    Raid(seq(c.BlockCount(), _ => VIRGIN_BLOCK), 0, 0, 0, 0, 0, 0, 0, 0, 0, EMPTY_STORE)
  }

  // ---------------------------------------------------------------- restoring a block

  /** A zero page is injected into block i. */
  function ZeroFill(s: Raid, i: nat): Raid
    requires i < |s.blocks|
  {
    s.(blocks := s.blocks[i := s.blocks[i].(location := Resident, accessCount := 1)],
       residentCount := s.residentCount + 1,
       zeroPagesServed := s.zeroPagesServed + 1,
       faultsHandled := s.faultsHandled + 1)
  }

  /** Block i is injected from its stored form, n bytes long. */
  function Reload(s: Raid, i: nat, n: nat, remote: bool): Raid
    requires i < |s.blocks|
  {
    s.(blocks := s.blocks[i := s.blocks[i].(location := Resident, accessCount := s.blocks[i].accessCount + 1, dirty := false)],
       residentCount := s.residentCount + 1,
       bytesDecompressed := s.bytesDecompressed + n,
       remoteTransfers := s.remoteTransfers + (if remote then 1 else 0),
       faultsHandled := s.faultsHandled + 1)
  }

  datatype Fetched = Got(data: Bytes) | Unverified | Refused(reason: FailReason)

  /** Ask the attached transport for block i under the current bus sequence number. */
  function FetchRemote(c: RaidConfig, s: Raid, i: nat): (Raid, Fetched)
  {
    var s1 := s.(busSeq := s.busSeq + 1);
    match c.world.transport
    case Mux(_, reply) =>
      (match reply(s.busSeq)
       case None => (s1, Refused(FetchFailed))
       case Some(d) => (s1, Got(d)))
    case InMemory =>
      var (v, b) := Get(s.store, i);
      (s1.(store := v), if b.Some? then Got(b.value.data) else Refused(NotInStore))
    case Simulation => (s1, Unverified)
  }

  predicate Intact(c: RaidConfig, b: RaidBlock, data: Bytes)
  {
    b.contentHash.Some? ==> c.world.sha256(data) == b.contentHash.value
  }

  function RestoreRemote(c: RaidConfig, s: Raid, i: nat): (Raid, FaultResult)
    requires i < |s.blocks|
  {
    var (s1, f) := FetchRemote(c, s, i);
    match f
    case Refused(reason) => (s1, FaultFailed(i, reason))
    case Unverified => (Reload(s1, i, c.blockSize, true), RestoredRemote(i))
    case Got(d) =>
      if Intact(c, s.blocks[i], d) then
        (Reload(s1, i, |d|, true), RestoredRemote(i))
      else
        (s1, FaultFailed(i, Integrity))
  }

  function RestoreBlock(c: RaidConfig, s: Raid, i: nat): (r: (Raid, FaultResult))
    requires i < |s.blocks|
    ensures |r.0.blocks| == |s.blocks|
  {
    match s.blocks[i].location
    case Resident => (s, AlreadyResident(i))
    case Virgin => (ZeroFill(s, i), ZeroFilled(i))
    case LocalStore(_) => (Reload(s, i, c.blockSize, false), RestoredLocal(i))
    case RemoteKernel(_, _, _) => RestoreRemote(c, s, i)
    case Fetching => (s, FaultFailed(i, AlreadyFetching))
  }

  /** The production path: same as RestoreBlock, but without a Mux client a remote block is taken to be zeros. */
  function RestoreProduction(c: RaidConfig, s: Raid, i: nat): (r: (Raid, FaultResult, Bytes))
    requires i < |s.blocks|
    ensures |r.0.blocks| == |s.blocks|
  {
    match s.blocks[i].location
    case Resident => (s, AlreadyResident(i), [])
    case Virgin => (ZeroFill(s, i), ZeroFilled(i), Zeros(c.blockSize))
    case LocalStore(_) => (Reload(s, i, c.blockSize, false), RestoredLocal(i), Zeros(c.blockSize))
    case RemoteKernel(_, _, _) =>
      var s1 := s.(busSeq := s.busSeq + 1);
      var fetched := if c.world.transport.Mux? then c.world.transport.reply(s.busSeq) else Some(Zeros(c.blockSize));
      if fetched.None? then
        (s1, FaultFailed(i, FetchFailed), [])
      else if !Intact(c, s.blocks[i], fetched.value) then
        (s1, FaultFailed(i, Integrity), [])
      else
        (Reload(s1, i, |fetched.value|, true), RestoredRemote(i), fetched.value)
    case Fetching => (s, FaultFailed(i, AlreadyFetching), [])
  }

  // ---------------------------------------------------------------- eviction

  /** The k-th block the clock hand looks at. */
  function ClockSlot(start: nat, k: nat, n: nat): (i: nat)
    requires n > 0
    ensures i < n
  {
    (start + k) % n
  }

  /** The coldest Resident block among the first k the clock hand looks at. */
  function Coldest(blocks: seq<RaidBlock>, start: nat, k: nat): (best: Option<nat>)
    requires |blocks| > 0
    ensures best.Some? ==> best.value < |blocks|
  {
    if k == 0 then None
    else
      var best := Coldest(blocks, start, k - 1);
      var i := ClockSlot(start, k - 1, |blocks|);
      if blocks[i].location.Resident? && blocks[i].accessCount < AccessBound(blocks, best) then Some(i) else best
  }

  function AccessBound(blocks: seq<RaidBlock>, best: Option<nat>): nat
    requires best.Some? ==> best.value < |blocks|
  {
    if best.Some? then blocks[best.value].accessCount else U64_MAX
  }

  function Victim(s: Raid): (v: Option<nat>)
    ensures v.Some? ==> v.value < |s.blocks|
  {
    if |s.blocks| == 0 then None
    else Coldest(s.blocks, s.lruClock % |s.blocks|, |s.blocks|)
  }

  /** Bookkeeping shared by every successful eviction of block i to a new block record. */
  function Depart(s: Raid, i: nat, b: RaidBlock): Raid
    requires i < |s.blocks|
  {
    s.(blocks := s.blocks[i := b],
       residentCount := s.residentCount - 1,
       evictionsPerformed := s.evictionsPerformed + 1)
  }

  function DropClean(s: Raid, i: nat): Raid
    requires i < |s.blocks|
  {
    var b := s.blocks[i];
    Depart(s, i, b.(location := if b.contentHash.Some? then LocalStore(CleanDrop(i)) else Virgin))
  }

  function OrEmpty(o: Option<string>): string
  {
    if o.Some? then o.value else ""
  }

  /** A dirty odd block goes to RAM B, unless the network refuses it. */
  function EvictRemote(c: RaidConfig, s: Raid, i: nat): (Raid, EvictionResult)
    requires i < |s.blocks|
  {
    var data := c.world.arena(i, s.blocks[i].writeCount);
    var hash := c.world.sha256(data);
    var s1 := s.(busSeq := s.busSeq + 1);
    if c.world.transport.Mux? && !c.world.transport.storeOk(s.busSeq) then
      (s1, EvictionFailed(i))
    else
      var s2 := if c.world.transport.InMemory?
                then s1.(store := Put(s.store, i, data, hash, c.blockSize, c.fromAint, s.busSeq))
                else s1;
      var b := s.blocks[i].(
        location := RemoteKernel(OrEmpty(c.kernelId), OrEmpty(c.endpoint), RemoteFork(s.busSeq)),
        contentHash := Some(hash),
        dirty := false);
      (Depart(s2, i, b).(bytesCompressed := s.bytesCompressed + c.blockSize,
                         remoteTransfers := s.remoteTransfers + 1),
       EvictedRemote(i))
  }

  function EvictLocal(c: RaidConfig, s: Raid, i: nat): Raid
    requires i < |s.blocks|
  {
    var data := c.world.arena(i, s.blocks[i].writeCount);
    var b := s.blocks[i].(
      location := LocalStore(LocalFork(s.busSeq)),
      contentHash := Some(c.world.simulatedHash(data)),
      dirty := false);
    Depart(s, i, b).(bytesCompressed := s.bytesCompressed + c.blockSize, busSeq := s.busSeq + 1)
  }

  function EvictBlock(c: RaidConfig, s: Raid, i: nat): (Raid, EvictionResult)
    requires i < |s.blocks|
  {
    if !s.blocks[i].dirty then (DropClean(s, i), Dropped(i))
    else if c.endpoint.Some? && StripeOf(i).RamB? then EvictRemote(c, s, i)
    else (EvictLocal(c, s, i), EvictedLocal(i))
  }

  function EvictColdest(c: RaidConfig, s: Raid): (r: (Raid, EvictionResult))
    ensures |r.0.blocks| == |s.blocks|
  {
    match Victim(s)
    case None => (s, NothingToEvict)
    case Some(i) => EvictBlock(c, s.(lruClock := i + 1), i)
  }

  // ---------------------------------------------------------------- entry points

  /** A fault on block i: make room if at capacity, then restore. */
  function FaultAt(c: RaidConfig, s: Raid, i: nat): (r: (Raid, FaultResult))
    ensures |r.0.blocks| == |s.blocks|
  {
    if i >= |s.blocks| then (s, FaultFailed(i, OutOfRange))
    else if s.residentCount >= c.maxResident then
      var (s1, e) := EvictColdest(c, s);
      if e.Freed() then (RestoreBlock(c, s1, i).0, EvictedThenRestored(e.block, i))
      else (s1, FaultFailed(i, CannotEvict))
    else RestoreBlock(c, s, i)
  }

  function HandleFault(c: RaidConfig, s: Raid, addr: nat): (Raid, FaultResult)
    requires c.Valid()
  {
    FaultAt(c, s, addr / c.blockSize)
  }

  /** The production fault ignores the outcome of its eviction. */
  function ProductionFaultAt(c: RaidConfig, s: Raid, i: nat): (r: (Raid, FaultResult, Bytes))
    ensures |r.0.blocks| == |s.blocks|
  {
    if i >= |s.blocks| then (s, FaultFailed(i, OutOfRange), [])
    else RestoreProduction(c, if s.residentCount >= c.maxResident then EvictColdest(c, s).0 else s, i)
  }

  function HandleFaultProduction(c: RaidConfig, s: Raid, addr: nat): (Raid, FaultResult, Bytes)
    requires c.Valid()
  {
    ProductionFaultAt(c, s, addr / c.blockSize)
  }

  function Touch(s: Raid, i: nat): Raid
    requires i < |s.blocks|
  {
    s.(blocks := s.blocks[i := s.blocks[i].(accessCount := s.blocks[i].accessCount + 1)])
  }

  function Read(c: RaidConfig, s: Raid, i: nat): (Raid, FaultResult)
    requires c.Valid()
  {
    if i >= |s.blocks| then (s, FaultFailed(i, OutOfRange))
    else if s.blocks[i].location.Resident? then (Touch(s, i), AlreadyResident(i))
    else HandleFault(c, s, i * c.blockSize)
  }

  function Write(c: RaidConfig, s: Raid, i: nat): Raid
  {
    if i >= |s.blocks| then s
    else
      var b := s.blocks[i];
      s.(blocks := s.blocks[i := RaidBlock(Resident, Some(c.world.dirtyMark(i, b.writeCount + 1)), b.accessCount + 1, b.writeCount + 1, true)],
         residentCount := s.residentCount + (if b.location.Resident? then 0 else 1))
  }

  /** The proactive loop: up to n evictions, stopping when nothing is left to evict. */
  function EvictUpTo(c: RaidConfig, s: Raid, n: nat): (Raid, seq<EvictionResult>)
    decreases n
  {
    if n == 0 then (s, [])
    else
      var (s1, e) := EvictColdest(c, s);
      if e.NothingToEvict? then (s1, [])
      else
        var (s2, es) := EvictUpTo(c, s1, n - 1);
        (s2, [e] + es)
  }

  /** 75% of the budget triggers, 60% of it is the target. */
  predicate UnderPressure(c: RaidConfig, s: Raid)
  {
    !(s.residentCount * 4 < c.maxResident * 3)
  }

  function EvictionTarget(c: RaidConfig): nat
  {
    c.maxResident * 3 / 5
  }

  function ProactiveEvict(c: RaidConfig, s: Raid): (Raid, seq<EvictionResult>)
  {
    if !UnderPressure(c, s) then (s, [])
    else EvictUpTo(c, s, SatSub(s.residentCount, EvictionTarget(c)))
  }

  // ---------------------------------------------------------------- batches

  datatype Kind = KResident | KLocal | KRemote | KVirgin | KFetching

  function KindOf(l: Location): Kind
  {
    match l
    case Resident => KResident
    case LocalStore(_) => KLocal
    case RemoteKernel(_, _, _) => KRemote
    case Virgin => KVirgin
    case Fetching => KFetching
  }

  /** The in-range members of a batch whose block is of kind k, in request order. */
  function Pick(blocks: seq<RaidBlock>, batch: seq<nat>, k: Kind): (r: seq<nat>)
    ensures forall i :: i in r <==> i in batch && i < |blocks| && KindOf(blocks[i].location) == k
    ensures InRange(r, |blocks|)
  {
    if batch == [] then []
    else
      var rest := Pick(blocks, batch[..|batch| - 1], k);
      var i := batch[|batch| - 1];
      assert batch == batch[..|batch| - 1] + [i];
      if i < |blocks| && KindOf(blocks[i].location) == k then rest + [i] else rest
  }

  /** The batch loop: n evictions whose results are ignored. */
  function EvictTimes(c: RaidConfig, s: Raid, n: nat): (t: Raid)
    ensures |t.blocks| == |s.blocks|
  {
    if n == 0 then s else EvictColdest(c, EvictTimes(c, s, n - 1)).0
  }

  function TouchAll(s: Raid, batch: seq<nat>): (t: Raid)
    requires InRange(batch, |s.blocks|)
    ensures |t.blocks| == |s.blocks|
  {
    if batch == [] then s
    else Touch(TouchAll(s, batch[..|batch| - 1]), batch[|batch| - 1])
  }

  function FillAll(s: Raid, batch: seq<nat>): (t: Raid)
    requires InRange(batch, |s.blocks|)
    ensures |t.blocks| == |s.blocks|
  {
    if batch == [] then s
    else ZeroFill(FillAll(s, batch[..|batch| - 1]), batch[|batch| - 1])
  }

  function RestoreAll(c: RaidConfig, s: Raid, batch: seq<nat>): (r: (Raid, seq<FaultResult>))
    requires InRange(batch, |s.blocks|)
    ensures |r.0.blocks| == |s.blocks|
  {
    if batch == [] then (s, [])
    else
      var (s1, rs) := RestoreAll(c, s, batch[..|batch| - 1]);
      var (s2, x) := RestoreBlock(c, s1, batch[|batch| - 1]);
      (s2, rs + [x])
  }

  /** Every reply of a pipelined batch whose first request carries bus sequence number base. */
  predicate BatchAnswered(reply: nat -> Option<Bytes>, base: nat, n: nat)
  {
    forall q: nat | base <= q < base + n :: reply(q).Some?
  }

  /** The verify-and-install loop over the answers of a pipelined batch. */
  function InstallBatch(c: RaidConfig, s: Raid, batch: seq<nat>, base: nat): (r: (Raid, seq<FaultResult>))
    requires c.world.transport.Mux? && BatchAnswered(c.world.transport.reply, base, |batch|)
    requires InRange(batch, |s.blocks|)
    ensures |r.0.blocks| == |s.blocks|
  {
    if batch == [] then (s, [])
    else
      var k := |batch| - 1;
      var i := batch[k];
      var (s1, rs) := InstallBatch(c, s, batch[..k], base);
      var data := c.world.transport.reply(base + k).value;
      if Intact(c, s1.blocks[i], data) then
        (Reload(s1, i, |data|, true), rs + [RestoredRemote(i)])
      else
        (s1, rs + [FaultFailed(i, Integrity)])
  }

  function BatchRestoreRemote(c: RaidConfig, s: Raid, batch: seq<nat>): (r: (Raid, seq<FaultResult>))
    requires InRange(batch, |s.blocks|)
    ensures |r.0.blocks| == |s.blocks|
  {
    var s1 := s.(busSeq := s.busSeq + |batch|);
    match c.world.transport
    case Mux(_, reply) =>
      if BatchAnswered(reply, s.busSeq, |batch|) then InstallBatch(c, s1, batch, s.busSeq)
      else (s1, seq(|batch|, k requires 0 <= k < |batch| => FaultFailed(batch[k], FetchFailed)))
    case _ => RestoreAll(c, s1, batch)
  }

  function ToRestore(s: Raid, batch: seq<nat>): nat
  {
    |Pick(s.blocks, batch, KLocal)| + |Pick(s.blocks, batch, KRemote)| + |Pick(s.blocks, batch, KVirgin)|
  }

  function SlotsNeeded(c: RaidConfig, s: Raid, batch: seq<nat>): nat
  {
    SatSub(ToRestore(s, batch), SatSub(c.maxResident, s.residentCount))
  }

  /** The first three stages of a batch: make room, touch resident members, fill and restore local ones. */
  function BatchLocalPart(c: RaidConfig, s: Raid, batch: seq<nat>): (r: (Raid, seq<FaultResult>))
    ensures |r.0.blocks| == |s.blocks|
  {
    var residents := Pick(s.blocks, batch, KResident);
    var virgins := Pick(s.blocks, batch, KVirgin);
    var s1 := EvictTimes(c, s, SlotsNeeded(c, s, batch));
    var s2 := TouchAll(s1, residents);
    var s3 := FillAll(s2, virgins);
    var (s4, fromLocal) := RestoreAll(c, s3, Pick(s.blocks, batch, KLocal));
    (s4,
     seq(|residents|, k requires 0 <= k < |residents| => AlreadyResident(residents[k]))
     + seq(|virgins|, k requires 0 <= k < |virgins| => ZeroFilled(virgins[k]))
     + fromLocal)
  }

  function ReadBatch(c: RaidConfig, s: Raid, batch: seq<nat>): (r: (Raid, seq<FaultResult>))
    ensures |r.0.blocks| == |s.blocks|
  {
    var (s1, results) := BatchLocalPart(c, s, batch);
    var remotes := Pick(s.blocks, batch, KRemote);
    if remotes == [] then (s1, results)
    else
      var (s2, fromRemote) := BatchRestoreRemote(c, s1, remotes);
      (s2, results + fromRemote)
  }

  function NonResident(blocks: seq<RaidBlock>, batch: seq<nat>): (r: seq<nat>)
    ensures forall i :: i in r <==> i in batch && i < |blocks| && !blocks[i].location.Resident?
  {
    if batch == [] then []
    else
      var rest := NonResident(blocks, batch[..|batch| - 1]);
      var i := batch[|batch| - 1];
      assert batch == batch[..|batch| - 1] + [i];
      if i < |blocks| && !blocks[i].location.Resident? then rest + [i] else rest
  }

  function CountGood(rs: seq<FaultResult>): nat
  {
    if rs == [] then 0
    else CountGood(rs[..|rs| - 1]) + (if rs[|rs| - 1].FaultFailed? then 0 else 1)
  }

  function Prefetch(c: RaidConfig, s: Raid, batch: seq<nat>): (Raid, nat)
  {
    var wanted := NonResident(s.blocks, batch);
    if wanted == [] then (s, 0)
    else
      var (s1, rs) := ReadBatch(c, s, wanted);
      (s1, CountGood(rs))
  }

  // ---------------------------------------------------------------- runs

  datatype Op =
    | Fault(addr: nat)
    | ProductionFault(addr: nat)
    | ReadOp(block: nat)
    | WriteOp(block: nat)
    | EvictOp
    | ProactiveOp
    | BatchOp(batch: seq<nat>)
    | PrefetchOp(batch: seq<nat>)

  function Step(c: RaidConfig, s: Raid, op: Op): Raid
    requires c.Valid()
  {
    match op
    case Fault(addr) => HandleFault(c, s, addr).0
    case ProductionFault(addr) => HandleFaultProduction(c, s, addr).0
    case ReadOp(i) => Read(c, s, i).0
    case WriteOp(i) => Write(c, s, i)
    case EvictOp => EvictColdest(c, s).0
    case ProactiveOp => ProactiveEvict(c, s).0
    case BatchOp(batch) => ReadBatch(c, s, batch).0
    case PrefetchOp(batch) => Prefetch(c, s, batch).0
  }

  /** The state after a run of operations from a freshly constructed controller. */
  function Run(c: RaidConfig, ops: seq<Op>): Raid
    requires c.Valid()
  {
    if ops == [] then Init(c)
    else Step(c, Run(c, ops[..|ops| - 1]), ops[|ops| - 1])
  }
}
