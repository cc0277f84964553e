/** The RAID controller and the multiplexed transport together: RAM B is an honest server behind one connection. */
module RaidNetwork {
  import opened Prelude
  import opened RaidModel
  import opened RaidProofs
  import M = MuxModel
  import P = MuxProofs
  import R = MuxRuns

  /** The controller and the link its client holds. */
  datatype Joint = Joint(raid: Raid, link: M.Link)

  /** The configuration as one call sees it, with the network's answers to that call. */
  function Answering(c: RaidConfig, storeOk: bool, reply: nat -> Option<Bytes>): RaidConfig
  {
    c.(world := c.world.(transport := Mux(_ => storeOk, reply)))
  }

  /** For steps that make no call. */
  function Offline(c: RaidConfig): RaidConfig
  {
    Answering(c, true, _ => None)
  }

  function ToOption(r: M.Result<Bytes>): Option<Bytes>
  {
    if r.Success? then Some(r.value) else None
  }

  // ---------------------------------------------------------------- calls over the link

  predicate GoesToRamB(c: RaidConfig, s: Raid, i: nat)
    requires i < |s.blocks|
  {
    s.blocks[i].dirty && c.endpoint.Some? && StripeOf(i).RamB?
  }

  /** One eviction: a victim bound for RAM B is stored over the link first. */
  function EvictOver(c: RaidConfig, x: Joint): (r: (Joint, EvictionResult))
    ensures |r.0.raid.blocks| == |x.raid.blocks|
  {
    var s, v := x.raid, Victim(x.raid);
    if v.Some? && GoesToRamB(c, s, v.value) then
      var data := c.world.arena(v.value, s.blocks[v.value].writeCount);
      var (l, r) := M.StoreBlock(c.world.sha256, x.link, v.value, data, c.world.sha256(data), c.blockSize, c.fromAint, s.busSeq);
      var (t, e) := EvictColdest(Answering(c, r.Success?, _ => None), s);
      (Joint(t, l), e)
    else
      var (t, e) := EvictColdest(Offline(c), s);
      (Joint(t, x.link), e)
  }

  /** The fetch a restore of block i makes: its answer, and the link afterwards. */
  function FetchOver(c: RaidConfig, x: Joint, i: nat): (M.Link, Option<Bytes>)
    requires i < |x.raid.blocks|
  {
    var b := x.raid.blocks[i];
    if b.location.RemoteKernel? then
      var (l, r) := M.FetchBlock(c.world.sha256, x.link, i, b.contentHash, x.raid.busSeq);
      (l, ToOption(r))
    else (x.link, None)
  }

  function RestoreOver(c: RaidConfig, x: Joint, i: nat): (Joint, FaultResult)
    requires i < |x.raid.blocks|
  {
    var (l, answer) := FetchOver(c, x, i);
    var (t, r) := RestoreBlock(Answering(c, true, _ => answer), x.raid, i);
    (Joint(t, l), r)
  }

  function RestoreProductionOver(c: RaidConfig, x: Joint, i: nat): (Joint, FaultResult, Bytes)
    requires i < |x.raid.blocks|
  {
    var (l, answer) := FetchOver(c, x, i);
    var (t, r, data) := RestoreProduction(Answering(c, true, _ => answer), x.raid, i);
    (Joint(t, l), r, data)
  }

  /** The requests of a pipelined restore, numbered from base. */
  function Requests(batch: seq<nat>, base: nat): seq<(nat, nat)>
  {
    seq(|batch|, k requires 0 <= k < |batch| => (batch[k], base + k))
  }

  /** What a pipelined fetch delivers under each bus number. */
  function Replies(r: M.Result<seq<(nat, Bytes)>>, base: nat): nat -> Option<Bytes>
  {
    n => if r.Success? && base <= n < base + |r.value| then Some(r.value[n - base].1) else None
  }

  function RemoteOver(c: RaidConfig, x: Joint, batch: seq<nat>): (r: (Joint, seq<FaultResult>))
    requires InRange(batch, |x.raid.blocks|)
    ensures |r.0.raid.blocks| == |x.raid.blocks|
  {
    if batch == [] then (x, [])
    else
      var base := x.raid.busSeq;
      var (l, r) := M.FetchBatch(c.world.sha256, x.link, Requests(batch, base));
      var (t, results) := BatchRestoreRemote(Answering(c, true, Replies(r, base)), x.raid, batch);
      (Joint(t, l), results)
  }

  // ---------------------------------------------------------------- operations

  function FaultOver(c: RaidConfig, x: Joint, i: nat): (Joint, FaultResult)
  {
    if i >= |x.raid.blocks| then (x, FaultFailed(i, OutOfRange))
    else if x.raid.residentCount >= c.maxResident then
      var (y, e) := EvictOver(c, x);
      if e.Freed() then (RestoreOver(c, y, i).0, EvictedThenRestored(e.block, i))
      else (y, FaultFailed(i, CannotEvict))
    else RestoreOver(c, x, i)
  }

  function ProductionFaultOver(c: RaidConfig, x: Joint, i: nat): (Joint, FaultResult, Bytes)
  {
    if i >= |x.raid.blocks| then (x, FaultFailed(i, OutOfRange), [])
    else RestoreProductionOver(c, if x.raid.residentCount >= c.maxResident then EvictOver(c, x).0 else x, i)
  }

  function EvictTimesOver(c: RaidConfig, x: Joint, n: nat): (y: Joint)
    ensures |y.raid.blocks| == |x.raid.blocks|
  {
    if n == 0 then x else EvictOver(c, EvictTimesOver(c, x, n - 1)).0
  }

  function EvictUpToOver(c: RaidConfig, x: Joint, n: nat): Joint
    decreases n
  {
    if n == 0 then x
    else
      var (y, e) := EvictOver(c, x);
      if e.NothingToEvict? then y else EvictUpToOver(c, y, n - 1)
  }

  /** The stages of a batch before its remote part. */
  function LocalOver(c: RaidConfig, x: Joint, batch: seq<nat>): (y: Joint)
    ensures |y.raid.blocks| == |x.raid.blocks|
  {
    var blocks := x.raid.blocks;
    var y := EvictTimesOver(c, x, SlotsNeeded(c, x.raid, batch));
    var t := FillAll(TouchAll(y.raid, Pick(blocks, batch, KResident)), Pick(blocks, batch, KVirgin));
    y.(raid := RestoreAll(Offline(c), t, Pick(blocks, batch, KLocal)).0)
  }

  function BatchOver(c: RaidConfig, x: Joint, batch: seq<nat>): (y: Joint)
    ensures |y.raid.blocks| == |x.raid.blocks|
  {
    RemoteOver(c, LocalOver(c, x, batch), Pick(x.raid.blocks, batch, KRemote)).0
  }

  function StepOver(c: RaidConfig, x: Joint, op: Op): Joint
    requires c.Valid()
  {
    match op
    case Fault(addr) => FaultOver(c, x, addr / c.blockSize).0
    case ProductionFault(addr) => ProductionFaultOver(c, x, addr / c.blockSize).0
    case ReadOp(i) =>
      if i < |x.raid.blocks| && x.raid.blocks[i].location.Resident? then x.(raid := Touch(x.raid, i))
      else FaultOver(c, x, i).0
    case WriteOp(i) => x.(raid := Write(c, x.raid, i))
    case EvictOp => EvictOver(c, x).0
    case ProactiveOp =>
      if UnderPressure(c, x.raid) then EvictUpToOver(c, x, SatSub(x.raid.residentCount, EvictionTarget(c))) else x
    case BatchOp(batch) => BatchOver(c, x, batch)
    case PrefetchOp(batch) =>
      var wanted := NonResident(x.raid.blocks, batch);
      if wanted == [] then x else BatchOver(c, x, wanted)
  }

  /** A run of a new controller over a given link. */
  function RunOver(c: RaidConfig, l: M.Link, ops: seq<Op>): Joint
    requires c.Valid()
  {
    if ops == [] then Joint(Init(c), l)
    else StepOver(c, RunOver(c, l, ops[..|ops| - 1]), ops[|ops| - 1])
  }

  // ---------------------------------------------------------------- what the two keep together

  /** The server holds, for every block on RAM B, the bytes of its last write. */
  ghost predicate Backed(c: RaidConfig, s: Raid, m: map<nat, Bytes>)
  {
    forall i | 0 <= i < |s.blocks| && s.blocks[i].location.RemoteKernel? ::
      i in m && m[i] == c.world.arena(i, s.blocks[i].writeCount)
  }

  /** The link is drained and its server honest. */
  ghost predicate Sound(c: RaidConfig, l: M.Link)
  {
    M.Drained(l) && M.Honest(c.world.sha256, l.store)
  }

  ghost predicate Joined(c: RaidConfig, x: Joint)
  {
    Inv(Offline(c), x.raid) && Sound(c, x.link) && Backed(c, x.raid, P.Contents(x.link.store))
  }

  /** The controller's invariant does not depend on what the network answers. */
  lemma InvIgnoresAnswers(c: RaidConfig, storeOk: bool, reply: nat -> Option<Bytes>, s: Raid)
    ensures Inv(Answering(c, storeOk, reply), s) <==> Inv(Offline(c), s)
  {
    var c1, c2 := Answering(c, storeOk, reply), Offline(c);
    forall i | 0 <= i < |s.blocks|
      ensures BlockOk(c1, i, s.blocks[i]) && Stored(c1, i, s.blocks[i], s.store.blocks) <==>
              BlockOk(c2, i, s.blocks[i]) && Stored(c2, i, s.blocks[i], s.store.blocks)
    {
    }
  }

  /** From x to y the two stay joined and nothing is written. */
  ghost predicate Together(c: RaidConfig, x: Joint, y: Joint)
  {
    Joined(c, y) && WritesKept(x.raid, y.raid)
  }

  /** The record a successful eviction leaves behind. */
  lemma EvictedRecord(c: RaidConfig, s: Raid)
    requires Victim(s).Some? && EvictColdest(c, s).1.Freed()
    ensures EvictColdest(c, s).0.blocks[Victim(s).value].location.RemoteKernel? ==> GoesToRamB(c, s, Victim(s).value)
  {
    hide Victim;
  }

  lemma EvictionsNeverFetch(c: RaidConfig, s: Raid, reply: nat -> Option<Bytes>)
    ensures EvictColdest(Answering(c, true, reply), s) == EvictColdest(Offline(c), s)
  {
    hide Victim;
  }

  /** Over an honest link an eviction is never refused, and a block that leaves for RAM B is held there. */
  lemma EvictOverKeeps(c: RaidConfig, x: Joint)
    requires Joined(c, x)
    ensures var (y, e) := EvictOver(c, x);
            && Together(c, x, y) && !e.EvictionFailed?
            && (y.raid, e) == EvictColdest(Offline(c), x.raid)
            && EvictedMany(Offline(c), x.raid, y.raid)
            && (e.NothingToEvict? <==> Victim(x.raid).None?)
  {
    hide EvictColdest, Victim, Inv, M.StoreBlock, P.Contents, M.Honest, ResidentSet;
    var s, v := x.raid, Victim(x.raid);
    var m := P.Contents(x.link.store);
    if v.Some? && GoesToRamB(c, s, v.value) {
      var data := c.world.arena(v.value, s.blocks[v.value].writeCount);
      R.StoreMeetsSpec(c.world.sha256, x.link, v.value, data, c.world.sha256(data), c.blockSize, c.fromAint, s.busSeq);
      var c1 := Answering(c, true, _ => None);
      assert EvictOver(c, x).0.raid == EvictColdest(c1, s).0;
      EvictionsNeverFetch(c, s, _ => None);
      EvictEffect(c1, s);
      InvIgnoresAnswers(c, true, _ => None, s);
      InvIgnoresAnswers(c, true, _ => None, EvictColdest(c1, s).0);
    } else {
      EvictEffect(Offline(c), s);
      if EvictColdest(Offline(c), s).1.Freed() { EvictedRecord(Offline(c), s); }
    }
  }

  /** A fetch of a block on RAM B delivers the bytes of its last write. */
  lemma FetchOverIsExact(c: RaidConfig, x: Joint, i: nat)
    requires Joined(c, x) && i < |x.raid.blocks|
    ensures var (l, answer) := FetchOver(c, x, i);
            && Sound(c, l) && P.Contents(l.store) == P.Contents(x.link.store)
            && (x.raid.blocks[i].location.RemoteKernel? ==> answer == Some(c.world.arena(i, x.raid.blocks[i].writeCount)))
  {
    hide M.FetchBlock, P.Contents, M.Honest;
    var b := x.raid.blocks[i];
    assert BlockOk(Offline(c), i, b);
    if b.location.RemoteKernel? {
      R.FetchMeetsSpec(c.world.sha256, x.link, i, b.contentHash, x.raid.busSeq);
    }
  }

  /** So a restore never fails, whatever the block's location, and the block is in memory afterwards. */
  lemma RestoreOverSucceeds(c: RaidConfig, x: Joint, i: nat)
    requires Joined(c, x) && i < |x.raid.blocks|
    ensures var (y, r) := RestoreOver(c, x, i);
            && Together(c, x, y) && !r.FaultFailed? && y.raid.blocks[i].location.Resident?
            && (x.raid.blocks[i].location.RemoteKernel? ==> r == RestoredRemote(i))
  {
    hide FetchOver, P.Contents, M.Honest, ResidentSet;
    FetchOverIsExact(c, x, i);
    var answer := FetchOver(c, x, i).1;
    var c1 := Answering(c, true, _ => answer);
    InvIgnoresAnswers(c, true, _ => answer, x.raid);
    assert BlockOk(c1, i, x.raid.blocks[i]);
    RestoreEffect(c1, x.raid, i);
    InvIgnoresAnswers(c, true, _ => answer, RestoreOver(c, x, i).0.raid);
    hide Inv, RestoreBlock;
  }

  /** The production path injects exactly those bytes. */
  lemma RestoreProductionOverSucceeds(c: RaidConfig, x: Joint, i: nat)
    requires Joined(c, x) && i < |x.raid.blocks|
    ensures var (y, r, data) := RestoreProductionOver(c, x, i);
            && Together(c, x, y) && !r.FaultFailed? && y.raid.blocks[i].location.Resident?
            && (x.raid.blocks[i].location.RemoteKernel? ==>
                  r == RestoredRemote(i) && data == c.world.arena(i, x.raid.blocks[i].writeCount))
  {
    hide FetchOver, P.Contents, M.Honest, ResidentSet;
    FetchOverIsExact(c, x, i);
    var answer := FetchOver(c, x, i).1;
    var c1 := Answering(c, true, _ => answer);
    InvIgnoresAnswers(c, true, _ => answer, x.raid);
    assert BlockOk(c1, i, x.raid.blocks[i]);
    RestoreProductionEffect(c1, x.raid, i);
    InvIgnoresAnswers(c, true, _ => answer, RestoreProductionOver(c, x, i).0.raid);
  }

  lemma {:induction false} AnswersForLength(m: map<nat, Bytes>, batch: seq<(nat, nat)>, k: nat, x: nat)
    requires k <= x <= |batch|
    requires forall j | k <= j < x :: batch[j].0 in m
    ensures |P.AnswersFor(m, batch, k, x)| == x - k
    decreases x - k
  {
    if k < x {
      AnswersForLength(m, batch, k + 1, x);
    }
  }

  lemma {:induction false} AnswersForAt(m: map<nat, Bytes>, batch: seq<(nat, nat)>, k: nat, x: nat, j: nat)
    requires k <= j < x <= |batch|
    requires forall j | k <= j < x :: batch[j].0 in m
    ensures |P.AnswersFor(m, batch, k, x)| == x - k
    ensures P.AnswersFor(m, batch, k, x)[j - k] == (batch[j].0, m[batch[j].0])
    decreases x - k
  {
    AnswersForLength(m, batch, k, x);
    if k < j {
      AnswersForAt(m, batch, k + 1, x, j);
      assert P.AnswersFor(m, batch, k, x)[1..] == P.AnswersFor(m, batch, k + 1, x);
    }
  }

  /** A pipelined fetch of blocks on RAM B is answered in full, in order, and leaves the link drained. */
  lemma PipelineIsExact(c: RaidConfig, x: Joint, batch: seq<nat>)
    requires Joined(c, x) && InRange(batch, |x.raid.blocks|)
    requires forall i | i in batch :: x.raid.blocks[i].location.RemoteKernel?
    ensures var base := x.raid.busSeq;
            var (l, r) := M.FetchBatch(c.world.sha256, x.link, Requests(batch, base));
            && Sound(c, l) && P.Contents(l.store) == P.Contents(x.link.store)
            && (forall k | 0 <= k < |batch| ::
                  Replies(r, base)(base + k) == Some(c.world.arena(batch[k], x.raid.blocks[batch[k]].writeCount)))
  {
    hide M.FetchBatch, P.Contents, M.Honest, Inv, P.BatchSpec, P.DrainsCleanly, P.FirstMissing, Requests, Replies;
    var base, m := x.raid.busSeq, P.Contents(x.link.store);
    AllRequestsPresent(c, x.raid, m, batch, base);
    P.BatchMeetsSpec(c.world.sha256, x.link, Requests(batch, base));
    var r := M.FetchBatch(c.world.sha256, x.link, Requests(batch, base)).1;
    forall k | 0 <= k < |batch|
      ensures Replies(r, base)(base + k) == Some(c.world.arena(batch[k], x.raid.blocks[batch[k]].writeCount))
    {
      ReplyAt(r, base, k);
    }
  }

  lemma ReplyAt(r: M.Result<seq<(nat, Bytes)>>, base: nat, k: nat)
    requires r.Success? && k < |r.value|
    ensures Replies(r, base)(base + k) == Some(r.value[k].1)
  {
  }

  lemma AllRequestsPresent(c: RaidConfig, s: Raid, m: map<nat, Bytes>, batch: seq<nat>, base: nat)
    requires Backed(c, s, m) && InRange(batch, |s.blocks|)
    requires forall i | i in batch :: s.blocks[i].location.RemoteKernel?
    ensures P.DrainsCleanly(m, Requests(batch, base))
    ensures var r := P.BatchSpec(m, Requests(batch, base));
            && r.Success? && |r.value| == |batch|
            && forall k | 0 <= k < |batch| :: r.value[k].1 == c.world.arena(batch[k], s.blocks[batch[k]].writeCount)
  {
    hide P.AnswersFor;
    var reqs := Requests(batch, base);
    assert forall k | 0 <= k < |batch| :: batch[k] in batch && reqs[k].0 == batch[k] && batch[k] in m;
    assert P.FirstMissing(m, reqs, 0) == |reqs|;
    AnswersForLength(m, reqs, 0, |reqs|);
    forall k | 0 <= k < |batch|
      ensures P.BatchSpec(m, reqs).value[k].1 == c.world.arena(batch[k], s.blocks[batch[k]].writeCount)
    {
      AnswersForAt(m, reqs, 0, |reqs|, k);
    }
  }

  lemma RemoteOverSucceeds(c: RaidConfig, x: Joint, batch: seq<nat>)
    requires Joined(c, x) && InRange(batch, |x.raid.blocks|)
    requires forall i | i in batch :: x.raid.blocks[i].location.RemoteKernel?
    ensures var y := RemoteOver(c, x, batch).0;
            && Together(c, x, y)
            && (forall i | i in batch :: y.raid.blocks[i].location.Resident?)
            && (forall i | 0 <= i < |x.raid.blocks| && i !in batch :: y.raid.blocks[i] == x.raid.blocks[i])
  {
    hide P.Contents, M.Honest, ResidentSet, BatchRestoreRemote, RemoteGain, RemoteRepeats, Requests, M.FetchBatch;
    if batch != [] {
      PipelineIsExact(c, x, batch);
      var base := x.raid.busSeq;
      var r := M.FetchBatch(c.world.sha256, x.link, Requests(batch, base)).1;
      var reply := Replies(r, base);
      var c1 := Answering(c, true, reply);
      InvIgnoresAnswers(c, true, reply, x.raid);
      EveryMemberArrives(c, x.raid, batch, reply);
      BatchRestoreEffect(c1, x.raid, batch);
      InvIgnoresAnswers(c, true, reply, RemoteOver(c, x, batch).0.raid);
      hide Inv, Replies;
    }
  }

  lemma EveryMemberArrives(c: RaidConfig, s: Raid, batch: seq<nat>, reply: nat -> Option<Bytes>)
    requires Inv(Offline(c), s) && InRange(batch, |s.blocks|)
    requires forall i | i in batch :: s.blocks[i].location.RemoteKernel?
    requires forall k | 0 <= k < |batch| ::
               reply(s.busSeq + k) == Some(c.world.arena(batch[k], s.blocks[batch[k]].writeCount))
    ensures forall i | i in batch :: Arrives(Answering(c, true, reply), s, batch, i)
  {
    forall q: nat | s.busSeq <= q < s.busSeq + |batch| ensures reply(q).Some? {
      var k := q - s.busSeq;
      assert reply(s.busSeq + k) == Some(c.world.arena(batch[k], s.blocks[batch[k]].writeCount));
    }
    forall i | i in batch ensures Arrives(Answering(c, true, reply), s, batch, i) {
      var k :| 0 <= k < |batch| && batch[k] == i;
      assert BlockOk(Offline(c), i, s.blocks[i]);
      assert Intact(Answering(c, true, reply), s.blocks[i], reply(s.busSeq + k).value);
    }
  }

  // ---------------------------------------------------------------- every operation

  lemma FaultOverKeeps(c: RaidConfig, x: Joint, i: nat)
    requires Joined(c, x)
    ensures var (y, r) := FaultOver(c, x, i);
            && Together(c, x, y)
            && (r.FaultFailed? <==> i >= |x.raid.blocks| || (Full(c, x.raid) && Victim(x.raid).None?))
            && (!r.FaultFailed? ==> y.raid.blocks[i].location.Resident?)
  {
    hide Joined, EvictOver, RestoreOver, Victim;
    if i < |x.raid.blocks| {
      if Full(c, x.raid) {
        EvictOverKeeps(c, x);
        RestoreOverSucceeds(c, EvictOver(c, x).0, i);
      } else {
        RestoreOverSucceeds(c, x, i);
      }
    }
  }

  lemma ProductionFaultOverKeeps(c: RaidConfig, x: Joint, i: nat)
    requires Joined(c, x)
    ensures var (y, r, data) := ProductionFaultOver(c, x, i);
            && Together(c, x, y)
            && (r.FaultFailed? <==> i >= |x.raid.blocks|)
            && (!r.FaultFailed? ==> y.raid.blocks[i].location.Resident?)
  {
    hide Joined, EvictOver, RestoreProductionOver, Victim;
    if i < |x.raid.blocks| {
      if Full(c, x.raid) {
        EvictOverKeeps(c, x);
        RestoreProductionOverSucceeds(c, EvictOver(c, x).0, i);
      } else {
        RestoreProductionOverSucceeds(c, x, i);
      }
    }
  }

  lemma {:induction false} EvictTimesOverKeeps(c: RaidConfig, x: Joint, n: nat)
    requires Joined(c, x)
    ensures Together(c, x, EvictTimesOver(c, x, n)) && EvictedMany(Offline(c), x.raid, EvictTimesOver(c, x, n).raid)
  {
    hide EvictOver, Joined, Kept, Victim;
    if n > 0 {
      EvictTimesOverKeeps(c, x, n - 1);
      var y := EvictTimesOver(c, x, n - 1);
      EvictOverKeeps(c, y);
      EvictedManyStep(Offline(c), x.raid, y.raid, EvictTimesOver(c, x, n).raid);
    } else {
      assert Kept(Offline(c), x.raid, x.raid) by { KeptItself(Offline(c), x.raid); }
    }
  }

  lemma KeptItself(c: RaidConfig, s: Raid)
    ensures Kept(c, s, s)
  {
  }

  lemma {:induction false} EvictUpToOverKeeps(c: RaidConfig, x: Joint, n: nat)
    requires Joined(c, x)
    ensures Together(c, x, EvictUpToOver(c, x, n))
    decreases n
  {
    hide EvictOver, Joined, Victim, Kept;
    if n > 0 {
      EvictOverKeeps(c, x);
      EvictUpToOverKeeps(c, EvictOver(c, x).0, n - 1);
    }
  }

  /** Stages that make no call leave remote blocks and the link alone. */
  lemma LocalOverKeeps(c: RaidConfig, x: Joint, batch: seq<nat>)
    requires Joined(c, x)
    ensures var y := LocalOver(c, x, batch);
            var blocks := x.raid.blocks;
            && Together(c, x, y)
            && LocalPartFacts(Offline(c), x.raid, Pick(blocks, batch, KResident), Pick(blocks, batch, KVirgin), Pick(blocks, batch, KLocal), y.raid)
  {
    hide EvictTimesOver, TouchAll, FillAll, RestoreAll, Inv, ResidentSet, Elems, P.Contents, M.Honest, SlotsNeeded;
    var blocks, c1 := x.raid.blocks, Offline(c);
    var residents, virgins, locals := Pick(blocks, batch, KResident), Pick(blocks, batch, KVirgin), Pick(blocks, batch, KLocal);
    var y := EvictTimesOver(c, x, SlotsNeeded(c, x.raid, batch));
    EvictTimesOverKeeps(c, x, SlotsNeeded(c, x.raid, batch));
    TouchAllEffect(c1, y.raid, residents);
    var s2 := TouchAll(y.raid, residents);
    FillAllEffect(c1, s2, virgins);
    var s3 := FillAll(s2, virgins);
    RestoreAllEffect(c1, s3, locals);
    RestoreAllSucceeds(c1, s3, locals);
    LocalPartCompose(c1, x.raid, residents, virgins, locals, y.raid, s2, s3, RestoreAll(c1, s3, locals).0);
    StillBacked(c, y.raid, LocalOver(c, x, batch).raid, P.Contents(y.link.store)) by {
      OnlyOldRemotes(c, x.raid, y.raid, s2, s3, RestoreAll(c1, s3, locals).0, residents, virgins, locals);
    }
  }

  /** Nothing on RAM B is new, and what is there has not been written since. */
  ghost predicate NoNewRemotes(s: Raid, t: Raid)
  {
    && WritesKept(s, t)
    && forall i | 0 <= i < |s.blocks| && t.blocks[i].location.RemoteKernel? :: s.blocks[i].location.RemoteKernel?
  }

  lemma StillBacked(c: RaidConfig, s: Raid, t: Raid, m: map<nat, Bytes>)
    requires Backed(c, s, m) && NoNewRemotes(s, t)
    ensures Backed(c, t, m)
  {
  }

  lemma OnlyOldRemotes(c: RaidConfig, s: Raid, s1: Raid, s2: Raid, s3: Raid, s4: Raid, residents: seq<nat>, virgins: seq<nat>, locals: seq<nat>)
    requires EvictedMany(Offline(c), s, s1) && TouchedMany(Offline(c), s1, residents, s2)
    requires FilledMany(Offline(c), s2, virgins, s3) && RestoredMany(Offline(c), s3, locals, s4)
    requires forall j | 0 <= j < |s.blocks| && j in locals :: s4.blocks[j].location.Resident?
    ensures NoNewRemotes(s1, s4)
  {
    hide Inv, Excess, Balance, Repeats;
  }

  /** A batch keeps the two together, and every member that was out of memory is in memory afterwards. */
  lemma BatchOverSucceeds(c: RaidConfig, x: Joint, batch: seq<nat>)
    requires Joined(c, x)
    ensures Together(c, x, BatchOver(c, x, batch))
    ensures forall i | i in batch && i < |x.raid.blocks| && !x.raid.blocks[i].location.Resident? ::
              BatchOver(c, x, batch).raid.blocks[i].location.Resident?
  {
    hide LocalOver, RemoteOver, Backed, Sound, Excess, Balance;
    LocalOverKeeps(c, x, batch);
    var y := LocalOver(c, x, batch);
    var blocks := x.raid.blocks;
    var remotes := Pick(blocks, batch, KRemote);
    RemoteOverSucceeds(c, y, remotes);
    forall i | i in batch && i < |blocks| && !blocks[i].location.Resident?
      ensures BatchOver(c, x, batch).raid.blocks[i].location.Resident?
    {
      assert BlockOk(Offline(c), i, blocks[i]);
      if blocks[i].location.RemoteKernel? {
        assert i in remotes;
      } else {
        assert i in Pick(blocks, batch, KVirgin) || i in Pick(blocks, batch, KLocal);
      }
    }
  }

  lemma LocalStepKeeps(c: RaidConfig, x: Joint, t: Raid)
    requires Joined(c, x) && Inv(Offline(c), t) && |t.blocks| == |x.raid.blocks|
    requires forall i | 0 <= i < |t.blocks| && t.blocks[i].location.RemoteKernel? ::
               x.raid.blocks[i].location.RemoteKernel? && t.blocks[i].writeCount == x.raid.blocks[i].writeCount
    ensures Joined(c, x.(raid := t))
  {
  }

  /** Every operation keeps the controller and its server together, and counts its writes. */
  lemma StepOverKeeps(c: RaidConfig, x: Joint, op: Op)
    requires c.Valid() && Joined(c, x)
    ensures var y := StepOver(c, x, op);
            && Joined(c, y) && |y.raid.blocks| == |x.raid.blocks|
            && (forall j | 0 <= j < |x.raid.blocks| ::
                  y.raid.blocks[j].writeCount == x.raid.blocks[j].writeCount + (if op == WriteOp(j) then 1 else 0))
  {
    hide FaultOver, ProductionFaultOver, EvictOver, EvictUpToOver, BatchOver, Inv, Sound, Backed, Victim;
    match op
    case Fault(addr) => FaultOverKeeps(c, x, addr / c.blockSize);
    case ProductionFault(addr) => ProductionFaultOverKeeps(c, x, addr / c.blockSize);
    case ReadOp(i) =>
      if i < |x.raid.blocks| && x.raid.blocks[i].location.Resident? {
        TouchEffect(Offline(c), x.raid, i);
        LocalStepKeeps(c, x, Touch(x.raid, i));
      } else {
        FaultOverKeeps(c, x, i);
      }
    case WriteOp(i) =>
      WriteEffect(Offline(c), x.raid, i);
      LocalStepKeeps(c, x, Write(c, x.raid, i));
    case EvictOp => EvictOverKeeps(c, x);
    case ProactiveOp => EvictUpToOverKeeps(c, x, SatSub(x.raid.residentCount, EvictionTarget(c)));
    case BatchOp(batch) => BatchOverSucceeds(c, x, batch);
    case PrefetchOp(batch) =>
      if NonResident(x.raid.blocks, batch) != [] { BatchOverSucceeds(c, x, NonResident(x.raid.blocks, batch)); }
  }

  // ---------------------------------------------------------------- the same steps as over an arbitrary network

  lemma {:induction false} EvictTimesAgree(c: RaidConfig, x: Joint, n: nat, reply: nat -> Option<Bytes>)
    requires Joined(c, x)
    ensures EvictTimesOver(c, x, n).raid == EvictTimes(Answering(c, true, reply), x.raid, n)
  {
    hide EvictOver, EvictColdest, Joined, EvictedMany;
    if n > 0 {
      EvictTimesAgree(c, x, n - 1, reply);
      EvictTimesOverKeeps(c, x, n - 1);
      EvictOverKeeps(c, EvictTimesOver(c, x, n - 1));
      EvictionsNeverFetch(c, EvictTimesOver(c, x, n - 1).raid, reply);
    }
  }

  lemma {:induction false} EvictUpToAgrees(c: RaidConfig, x: Joint, n: nat, reply: nat -> Option<Bytes>)
    requires Joined(c, x)
    ensures EvictUpToOver(c, x, n).raid == EvictUpTo(Answering(c, true, reply), x.raid, n).0
    decreases n
  {
    hide EvictOver, EvictColdest, Joined, EvictedMany;
    if n > 0 {
      EvictOverKeeps(c, x);
      EvictionsNeverFetch(c, x.raid, reply);
      EvictUpToAgrees(c, EvictOver(c, x).0, n - 1, reply);
    }
  }

  /** Restoring blocks that are not on RAM B asks the network nothing. */
  lemma {:induction false} LocalRestoresAgree(c: RaidConfig, s: Raid, b: seq<nat>, reply: nat -> Option<Bytes>)
    requires InRange(b, |s.blocks|) && Inv(Offline(c), s)
    requires forall i | i in b :: !s.blocks[i].location.RemoteKernel? && !s.blocks[i].location.Resident?
    ensures RestoreAll(Offline(c), s, b) == RestoreAll(Answering(c, true, reply), s, b)
  {
    hide Inv, Kept;
    if b != [] {
      var a, x := b[..|b| - 1], b[|b| - 1];
      assert b == a + [x];
      LocalRestoresAgree(c, s, a, reply);
      RestoreAllEffect(Offline(c), s, a);
      RestoreAllSucceeds(Offline(c), s, a);
      var t := RestoreAll(Offline(c), s, a).0;
      assert !t.blocks[x].location.RemoteKernel?;
      assert RestoreBlock(Offline(c), t, x) == RestoreBlock(Answering(c, true, reply), t, x);
    }
  }

  lemma LocalPartAgrees(c: RaidConfig, x: Joint, batch: seq<nat>, reply: nat -> Option<Bytes>)
    requires Joined(c, x)
    ensures LocalOver(c, x, batch).raid == BatchLocalPart(Answering(c, true, reply), x.raid, batch).0
  {
    hide EvictTimesOver, EvictTimes, TouchAll, FillAll, RestoreAll, Inv, Elems, SlotsNeeded, Kept, Backed, Sound;
    var blocks, c1 := x.raid.blocks, Answering(c, true, reply);
    var residents, virgins, locals := Pick(blocks, batch, KResident), Pick(blocks, batch, KVirgin), Pick(blocks, batch, KLocal);
    var n := SlotsNeeded(c, x.raid, batch);
    SlotsAgree(c, x.raid, batch, reply);
    EvictTimesOverKeeps(c, x, n);
    EvictTimesAgree(c, x, n, reply);
    var y := EvictTimesOver(c, x, n);
    TouchAllEffect(Offline(c), y.raid, residents);
    var s2 := TouchAll(y.raid, residents);
    FillAllEffect(Offline(c), s2, virgins);
    var s3 := FillAll(s2, virgins);
    assert Inv(Offline(c), s3) by { StagesKeepInv(c, x.raid, y.raid, s2, s3, residents, virgins); }
    LocalRestoresAgree(c, s3, locals, reply);
    BatchLocalIsStages(c1, x.raid, batch);
  }

  lemma SlotsAgree(c: RaidConfig, s: Raid, batch: seq<nat>, reply: nat -> Option<Bytes>)
    ensures SlotsNeeded(Answering(c, true, reply), s, batch) == SlotsNeeded(c, s, batch)
  {
  }

  lemma StagesKeepInv(c: RaidConfig, s: Raid, s1: Raid, s2: Raid, s3: Raid, residents: seq<nat>, virgins: seq<nat>)
    requires Inv(Offline(c), s) && EvictedMany(Offline(c), s, s1)
    requires TouchedMany(Offline(c), s1, residents, s2) && FilledMany(Offline(c), s2, virgins, s3)
    ensures Inv(Offline(c), s3)
  {
    hide Inv;
  }

  lemma BatchAgrees(c: RaidConfig, x: Joint, batch: seq<nat>) returns (reply: nat -> Option<Bytes>)
    requires Joined(c, x)
    ensures BatchOver(c, x, batch).raid == ReadBatch(Answering(c, true, reply), x.raid, batch).0
  {
    hide LocalOver, BatchLocalPart, BatchRestoreRemote, M.FetchBatch, Joined;
    var y := LocalOver(c, x, batch);
    var remotes, base := Pick(x.raid.blocks, batch, KRemote), y.raid.busSeq;
    reply := Replies(M.FetchBatch(c.world.sha256, y.link, Requests(remotes, base)).1, base);
    LocalPartAgrees(c, x, batch, reply);
  }

  lemma FaultAgrees(c: RaidConfig, x: Joint, i: nat) returns (reply: nat -> Option<Bytes>)
    requires Joined(c, x)
    ensures FaultOver(c, x, i).0.raid == FaultAt(Answering(c, true, reply), x.raid, i).0
    ensures FaultOver(c, x, i).1 == FaultAt(Answering(c, true, reply), x.raid, i).1
  {
    hide EvictOver, EvictColdest, FetchOver, RestoreBlock, Joined, EvictedMany;
    EvictOverKeeps(c, x);
    var y := if x.raid.residentCount >= c.maxResident then EvictOver(c, x).0 else x;
    var answer := if i < |y.raid.blocks| then FetchOver(c, y, i).1 else None;
    reply := _ => answer;
    EvictionsNeverFetch(c, x.raid, reply);
    if i < |x.raid.blocks| { RestoreOverByReply(c, y, i, reply); }
  }

  lemma RestoreOverByReply(c: RaidConfig, x: Joint, i: nat, reply: nat -> Option<Bytes>)
    requires i < |x.raid.blocks| && forall n: nat :: reply(n) == FetchOver(c, x, i).1
    ensures RestoreOver(c, x, i).0.raid == RestoreBlock(Answering(c, true, reply), x.raid, i).0
    ensures RestoreOver(c, x, i).1 == RestoreBlock(Answering(c, true, reply), x.raid, i).1
    ensures RestoreProductionOver(c, x, i).0.raid == RestoreProduction(Answering(c, true, reply), x.raid, i).0
  {
    hide FetchOver;
  }

  lemma ProductionFaultAgrees(c: RaidConfig, x: Joint, i: nat) returns (reply: nat -> Option<Bytes>)
    requires Joined(c, x)
    ensures ProductionFaultOver(c, x, i).0.raid == ProductionFaultAt(Answering(c, true, reply), x.raid, i).0
  {
    hide EvictOver, EvictColdest, FetchOver, RestoreProduction, Joined, EvictedMany;
    EvictOverKeeps(c, x);
    var y := if x.raid.residentCount >= c.maxResident then EvictOver(c, x).0 else x;
    var answer := if i < |y.raid.blocks| then FetchOver(c, y, i).1 else None;
    reply := _ => answer;
    EvictionsNeverFetch(c, x.raid, reply);
    if i < |x.raid.blocks| { RestoreOverByReply(c, y, i, reply); }
  }

  lemma FaultOutOfRange(c: RaidConfig, x: Joint, i: nat)
    ensures i >= |x.raid.blocks| ==> FaultOver(c, x, i).0 == x
  {
  }

  /**
   A step over the link is a step over a network that acknowledges every store and gives some replies: what is proved
   of every network holds of the two together.
   */
  lemma StepOverIsAStep(c: RaidConfig, x: Joint, op: Op) returns (reply: nat -> Option<Bytes>)
    requires c.Valid() && Joined(c, x)
    ensures StepOver(c, x, op).raid == Step(Answering(c, true, reply), x.raid, op)
    ensures StoresAcknowledged(Answering(c, true, reply))
  {
    hide FaultOver, ProductionFaultOver, EvictOver, EvictUpToOver, BatchOver, Joined, FaultAt, ProductionFaultAt, EvictColdest, EvictUpTo, ReadBatch;
    reply := _ => None;
    match op
    case Fault(addr) => reply := FaultAgrees(c, x, addr / c.blockSize);
    case ProductionFault(addr) => reply := ProductionFaultAgrees(c, x, addr / c.blockSize);
    case ReadOp(i) =>
      AddressOfBlock(i, c.blockSize);
      reply := FaultAgrees(c, x, i);
      FaultOutOfRange(c, x, i);
    case WriteOp(i) =>
    case EvictOp => EvictOverKeeps(c, x); EvictionsNeverFetch(c, x.raid, reply);
    case ProactiveOp => EvictUpToAgrees(c, x, SatSub(x.raid.residentCount, EvictionTarget(c)), reply);
    case BatchOp(batch) => reply := BatchAgrees(c, x, batch);
    case PrefetchOp(batch) => reply := BatchAgrees(c, x, NonResident(x.raid.blocks, batch));
  }

  // ---------------------------------------------------------------- runs

  lemma InitiallyJoined(c: RaidConfig, l: M.Link)
    requires c.Valid() && Sound(c, l)
    ensures Joined(c, Joint(Init(c), l))
  {
    InitialState(Offline(c));
  }

  /**
   Over every run of a controller whose client holds a drained link to an honest server: the link is drained and the
   server honest after every operation, and the server holds the last written bytes of every block on RAM B.
   */
  lemma {:induction false} RunOverKeeps(c: RaidConfig, l: M.Link, ops: seq<Op>)
    requires c.Valid() && Sound(c, l)
    ensures var x := RunOver(c, l, ops);
            && Joined(c, x) && |x.raid.blocks| == c.BlockCount()
            && (forall j | 0 <= j < |x.raid.blocks| :: x.raid.blocks[j].writeCount == CountWrites(ops, j))
  {
    hide StepOver, Joined, Sound;
    if ops == [] {
      InitiallyJoined(c, l);
    } else {
      var before, last := ops[..|ops| - 1], ops[|ops| - 1];
      RunOverKeeps(c, l, before);
      StepOverKeeps(c, RunOver(c, l, before), last);
    }
  }

  /**
   So after any run no restore of a block on RAM B fails, on either fault path, and the production path injects the
   bytes of its last write; no eviction is refused; and every member of a batch ends in memory.
   */
  lemma HonestServerNeverFails(c: RaidConfig, l: M.Link, ops: seq<Op>)
    requires c.Valid() && Sound(c, l)
    ensures var x := RunOver(c, l, ops);
            && M.Drained(x.link) && |x.raid.blocks| == c.BlockCount()
            && !EvictOver(c, x).1.EvictionFailed?
            && (forall i: nat | i < c.BlockCount() && x.raid.blocks[i].location.RemoteKernel? ::
                  && RestoreOver(c, x, i).1 == RestoredRemote(i)
                  && RestoreProductionOver(c, x, i).1 == RestoredRemote(i)
                  && RestoreProductionOver(c, x, i).2 == c.world.arena(i, CountWrites(ops, i)))
            && (forall batch: seq<nat>, i: nat | i in batch && i < c.BlockCount() && !x.raid.blocks[i].location.Resident? ::
                  BatchOver(c, x, batch).raid.blocks[i].location.Resident?)
  {
    hide EvictOver, RestoreOver, RestoreProductionOver, BatchOver, RunOver, Inv, Backed, Victim, M.Honest;
    RunOverKeeps(c, l, ops);
    var x := RunOver(c, l, ops);
    EvictOverKeeps(c, x);
    forall i: nat | i < c.BlockCount() && x.raid.blocks[i].location.RemoteKernel?
      ensures RestoreOver(c, x, i).1 == RestoredRemote(i)
      ensures RestoreProductionOver(c, x, i).1 == RestoredRemote(i)
      ensures RestoreProductionOver(c, x, i).2 == c.world.arena(i, CountWrites(ops, i))
    {
      RestoreOverSucceeds(c, x, i);
      RestoreProductionOverSucceeds(c, x, i);
    }
    forall batch: seq<nat>, i: nat | i in batch && i < c.BlockCount() && !x.raid.blocks[i].location.Resident?
      ensures BatchOver(c, x, batch).raid.blocks[i].location.Resident?
    {
      BatchOverSucceeds(c, x, batch);
    }
  }

  /** And after any run a fault fails only on a bad address, or when memory is full and there is no victim. */
  lemma HonestServerFaults(c: RaidConfig, l: M.Link, ops: seq<Op>, addr: nat)
    requires c.Valid() && Sound(c, l)
    ensures var x := RunOver(c, l, ops);
            var i := addr / c.blockSize;
            var (y, r) := FaultOver(c, x, i);
            && |x.raid.blocks| == |y.raid.blocks| == c.BlockCount()
            && (r.FaultFailed? <==> i >= c.BlockCount() || (Full(c, x.raid) && Victim(x.raid).None?))
            && (!r.FaultFailed? ==> y.raid.blocks[i].location.Resident?)
  {
    hide FaultOver, RunOver, Joined, Victim;
    RunOverKeeps(c, l, ops);
    FaultOverKeeps(c, RunOver(c, l, ops), addr / c.blockSize);
  }
}
