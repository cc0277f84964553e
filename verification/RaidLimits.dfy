/** Inputs on which the RAM RAID controller does not keep a promise its neighbours keep. */
module RaidLimits {
  import opened Prelude
  import opened RaidModel
  import opened RaidProofs
  import opened RaidSurvival

  const FLAT: World := World(Simulation, _ => "sha", _ => "sim", (_, _) => "dirty", (_, _) => [])

  function Small(blocks: nat, budget: nat, world: World): (c: RaidConfig)
    ensures c.Valid()
  {
    RaidConfig(blocks, 1, budget, Some("endpoint"), Some("kernel"), "raid.aint", world)
  }

  /** Picking from a batch of two looks at each member once, in order. */
  lemma PickPair(blocks: seq<RaidBlock>, i: nat, j: nat, k: Kind)
    requires i < |blocks| && j < |blocks|
    ensures Pick(blocks, [i, j], k)
            == (if KindOf(blocks[i].location) == k then [i] else []) + (if KindOf(blocks[j].location) == k then [j] else [])
  {
    assert [i, j][..1] == [i] && [i][..0] == [];
    assert Pick(blocks, [], k) == [];
    assert Pick(blocks, [i], k) == if KindOf(blocks[i].location) == k then [i] else [];
  }

  /** A lone resident is the victim. */
  lemma LoneResidentIsVictim(s: Raid, v: nat)
    requires v < |s.blocks| && s.blocks[v].location.Resident? && s.blocks[v].accessCount < U64_MAX
    requires forall j | 0 <= j < |s.blocks| && s.blocks[j].location.Resident? :: j == v
    ensures Victim(s) == Some(v)
  {
    hide Victim;
    VictimIsColdest(s);
  }

  lemma RunOne(c: RaidConfig, ops: seq<Op>, op: Op)
    requires c.Valid()
    ensures Run(c, ops + [op]) == Step(c, Run(c, ops), op)
  {
    assert (ops + [op])[..|ops|] == ops;
  }

  /** A batch that names one Virgin block twice counts it twice: two residents in a table of one. */
  lemma RepeatedVirginIsCountedTwice()
    ensures var s := Run(Small(1, 1, FLAT), [BatchOp([0, 0])]);
            s.residentCount == 2 && |ResidentSet(s.blocks)| == 1
  {
    hide ReadBatch, Pick, Inv, Balance, BatchLocalPart;
    var c := Small(1, 1, FLAT);
    var s := Init(c);
    RunOne(c, [], BatchOp([0, 0]));
    assert [] + [BatchOp([0, 0])] == [BatchOp([0, 0])];
    InitialState(c);
    BatchEffect(c, s, [0, 0]);
    PickPair(s.blocks, 0, 0, KVirgin);
    PickPair(s.blocks, 0, 0, KRemote);
    assert [0 as nat] + [0] == [0, 0] && Elems([0, 0]) == {0};
    BatchMemberResidentIff(c, s, [0, 0], 0);
    assert ResidentSet(ReadBatch(c, s, [0, 0]).0.blocks) == {0};
  }

  /** A batch can evict its own resident member to make room and still report it AlreadyResident. */
  lemma BatchReportsAnEvictedMember()
    ensures var c := Small(2, 1, FLAT);
            var s := Run(c, [WriteOp(0)]);
            var (t, rs) := ReadBatch(c, s, [0, 1]);
            AlreadyResident(0) in rs && |t.blocks| == 2 && !t.blocks[0].location.Resident?
  {
    hide Run, Pick, Inv, ReadBatch, Ahead;
    var c := Small(2, 1, FLAT);
    RunOne(c, [], WriteOp(0));
    RunBase(c);
    assert [] + [WriteOp(0)] == [WriteOp(0)];
    var s := Run(c, [WriteOp(0)]);
    forall k: Kind ensures Pick(s.blocks, [0, 1], k) == if k == KResident then [0] else if k == KVirgin then [1] else [] {
      PickPair(s.blocks, 0, 1, k);
    }
    RunAccounts(c, [WriteOp(0)]);
    LoneResidentIsFirst(s, 0);
    ResidentMemberSurvivesIff(c, s, [0, 1], 0);
  }

  lemma LoneResidentIsFirst(s: Raid, v: nat)
    requires v < |s.blocks| && s.blocks[v].location.Resident?
    requires forall j | 0 <= j < |s.blocks| && s.blocks[j].location.Resident? :: j == v
    ensures Ahead(s.blocks, HandOf(s), v) == {}
  {
    hide Hand;
  }

  lemma RunBase(c: RaidConfig)
    requires c.Valid()
    ensures Run(c, []) == Init(c)
  {
  }

  /** Over a network that refuses its store, a production fault takes residency over the budget. */
  lemma ProductionFaultOverrunsTheBudget()
    ensures var c := Small(2, 1, FLAT.(transport := Mux(_ => false, _ => None)));
            var s := Run(c, [WriteOp(1)]);
            s.residentCount == c.maxResident && HandleFaultProduction(c, s, 0).0.residentCount > c.maxResident
  {
    hide Run, Victim, ProductionFaultAt, Inv, Balance, Excess;
    var c := Small(2, 1, FLAT.(transport := Mux(_ => false, _ => None)));
    RunOne(c, [], WriteOp(1));
    RunBase(c);
    assert [] + [WriteOp(1)] == [WriteOp(1)];
    var s := Run(c, [WriteOp(1)]);
    RunAccounts(c, [WriteOp(1)]);
    LoneResidentIsVictim(s, 1);
    ProductionCapacityIff(c, s, 0);
  }

  /** Over a network whose fetch goes unanswered, a fault that had to evict reports success
      while its block is still on RAM B. */
  lemma FaultReportsARestoreThatFailed()
    ensures var c := Small(2, 1, FLAT.(transport := Mux(_ => true, _ => None)));
            var s := Run(c, [WriteOp(1), EvictOp, WriteOp(0)]);
            var (t, r) := FaultAt(c, s, 1);
            r == EvictedThenRestored(0, 1) && |t.blocks| == 2 && t.blocks[1].location.RemoteKernel?
  {
    hide Run, Victim, RestoreBlock, Balance, Excess;
    var c := Small(2, 1, FLAT.(transport := Mux(_ => true, _ => None)));
    var ops0, ops1, ops2 := [WriteOp(1)], [WriteOp(1), EvictOp], [WriteOp(1), EvictOp, WriteOp(0)];
    assert [] + [WriteOp(1)] == ops0 && ops0 + [EvictOp] == ops1 && ops1 + [WriteOp(0)] == ops2;
    RunOne(c, [], WriteOp(1));
    RunOne(c, ops0, EvictOp);
    RunOne(c, ops1, WriteOp(0));
    RunBase(c);
    var s1, s2, s3 := Run(c, ops0), Run(c, ops1), Run(c, ops2);
    LoneResidentIsVictim(s1, 1);
    assert s2.blocks[1].location.RemoteKernel? && s2.blocks[0].location.Virgin?;
    LoneResidentIsVictim(s3, 0);
    assert EvictColdest(c, s3).1 == EvictedLocal(0);
    hide EvictColdest, RestoreRemote;
    RunAccounts(c, ops2);
    EvictEffect(c, s3);
    var s4 := EvictColdest(c, s3).0;
    RestoreEffect(c, s4, 1);
  }
}
