/** What the controller reports: the bytes a production fault injects, and the number a prefetch returns. */
module RaidResults {
  import opened Prelude
  import opened RaidModel
  import opened RaidProofs

  /**
   The production path hands over a whole page of zeros for a block that was never written or is stored locally, the
   answer of the network, carrying the hash of the last written bytes, for a block on RAM B, and nothing when nothing is
   injected.
   */
  lemma ProductionInjects(c: RaidConfig, s: Raid, i: nat)
    requires Inv(c, s) && i < |s.blocks|
    ensures var (t, r, d) := RestoreProduction(c, s, i);
            && (r == AlreadyResident(i) <==> s.blocks[i].location.Resident?)
            && (r == ZeroFilled(i) <==> s.blocks[i].location.Virgin?)
            && (r == RestoredLocal(i) <==> s.blocks[i].location.LocalStore?)
            && (r.ZeroFilled? || r.RestoredLocal? ==> |d| == c.blockSize && forall k | 0 <= k < |d| :: d[k] == 0)
            && (r.RestoredRemote? && c.world.transport.Mux? ==> c.world.transport.reply(s.busSeq) == Some(d))
            && (r.RestoredRemote? ==> c.world.sha256(d) == c.world.sha256(c.world.arena(i, s.blocks[i].writeCount)))
            && (r.AlreadyResident? || r.FaultFailed? ==> d == [])
  {
    assert BlockOk(c, i, s.blocks[i]);
  }

  // ---------------------------------------------------------------- counting what did not fail

  lemma {:induction false} CountGoodOfConcat(a: seq<FaultResult>, b: seq<FaultResult>)
    ensures CountGood(a + b) == CountGood(a) + CountGood(b)
  {
    if b == [] {
      assert a + b == a;
    } else {
      var n := |b| - 1;
      CountGoodOfConcat(a, b[..n]);
      assert (a + b)[..|a + b| - 1] == a + b[..n];
    }
  }

  lemma {:induction false} AllGood(rs: seq<FaultResult>)
    requires forall k | 0 <= k < |rs| :: !rs[k].FaultFailed?
    ensures CountGood(rs) == |rs|
  {
    if rs != [] { AllGood(rs[..|rs| - 1]); }
  }

  lemma {:induction false} NoneGood(rs: seq<FaultResult>)
    requires forall k | 0 <= k < |rs| :: rs[k].FaultFailed?
    ensures CountGood(rs) == 0
  {
    if rs != [] { NoneGood(rs[..|rs| - 1]); }
  }

  /** Restoring blocks that no network is needed for reports one success each. */
  lemma {:induction false} RestoreAllReports(c: RaidConfig, s: Raid, b: seq<nat>)
    requires InRange(b, |s.blocks|) && Inv(c, s)
    requires c.world.transport.Mux? ==> forall i | i in b :: !s.blocks[i].location.RemoteKernel?
    requires forall i | i in b :: !s.blocks[i].location.Resident?
    ensures var rs := RestoreAll(c, s, b).1;
            |rs| == |b| && forall k | 0 <= k < |rs| :: !rs[k].FaultFailed?
  {
    hide Inv, Kept;
    if b != [] {
      var a, x := b[..|b| - 1], b[|b| - 1];
      assert b == a + [x];
      RestoreAllReports(c, s, a);
      RestoreAllEffect(c, s, a);
      RestoreAllSucceeds(c, s, a);
      var t := RestoreAll(c, s, a).0;
      assert Inv(c, t) by { KeptInv(c, s, t); }
      RestoreEffect(c, t, x);
    }
  }

  lemma KeptInv(c: RaidConfig, s: Raid, t: Raid)
    requires Inv(c, s) && Kept(c, s, t)
    ensures Inv(c, t)
  {
  }

  lemma {:induction false} InstallReports(c: RaidConfig, s: Raid, b: seq<nat>, base: nat)
    requires c.world.transport.Mux? && BatchAnswered(c.world.transport.reply, base, |b|)
    requires InRange(b, |s.blocks|) && Inv(c, s)
    requires forall i | i in b :: s.blocks[i].location.RemoteKernel?
    ensures CountGood(InstallBatch(c, s, b, base).1) == |Verified(c, s, b, base)|
  {
    hide Inv, Excess, Balance;
    if b != [] {
      var a := b[..|b| - 1];
      assert b == a + [b[|b| - 1]];
      InstallReports(c, s, a, base);
      InstallBatchEffect(c, s, a, base);
    }
  }

  /** How many remote members a batch reports restored: each of them, or over a network one for each intact answer. */
  ghost function RemoteGood(c: RaidConfig, s: Raid, b: seq<nat>): nat
    requires InRange(b, |s.blocks|)
  {
    if !c.world.transport.Mux? then |b|
    else if BatchAnswered(c.world.transport.reply, s.busSeq, |b|) then |Verified(c, s, b, s.busSeq)|
    else 0
  }

  lemma RemoteReports(c: RaidConfig, s: Raid, b: seq<nat>)
    requires InRange(b, |s.blocks|) && Inv(c, s)
    requires forall i | i in b :: s.blocks[i].location.RemoteKernel?
    ensures CountGood(BatchRestoreRemote(c, s, b).1) == RemoteGood(c, s, b)
  {
    hide RestoreAll, InstallBatch, Verified, CountGood;
    var s1 := s.(busSeq := s.busSeq + |b|);
    assert Inv(c, s1);
    if !c.world.transport.Mux? {
      RestoreAllReports(c, s1, b);
      AllGood(RestoreAll(c, s1, b).1);
    } else if BatchAnswered(c.world.transport.reply, s.busSeq, |b|) {
      InstallReports(c, s1, b, s.busSeq);
      VerifiedIgnoresBusSeq(c, s, s1, b, s.busSeq);
    } else {
      NoneGood(BatchRestoreRemote(c, s, b).1);
    }
  }

  // ---------------------------------------------------------------- prefetch

  lemma {:induction false} PicksSplit(blocks: seq<RaidBlock>, b: seq<nat>)
    requires forall i | i in b :: i < |blocks| && !blocks[i].location.Fetching?
    ensures |Pick(blocks, b, KResident)| + |Pick(blocks, b, KVirgin)| + |Pick(blocks, b, KLocal)| + |Pick(blocks, b, KRemote)| == |b|
  {
    if b != [] {
      var a := b[..|b| - 1];
      assert b == a + [b[|b| - 1]];
      assert b[|b| - 1] in b;
      PicksSplit(blocks, a);
    }
  }

  lemma NonResidentSplits(blocks: seq<RaidBlock>, batch: seq<nat>)
    requires forall i | 0 <= i < |blocks| :: !blocks[i].location.Fetching?
    ensures var wanted := NonResident(blocks, batch);
            && Pick(blocks, wanted, KResident) == []
            && |Pick(blocks, wanted, KVirgin)| + |Pick(blocks, wanted, KLocal)| + |Pick(blocks, wanted, KRemote)| == |wanted|
  {
    hide NonResident, Pick;
    var wanted := NonResident(blocks, batch);
    PicksSplit(blocks, wanted);
    SomeMember(Pick(blocks, wanted, KResident));
  }

  lemma SomeMember(b: seq<nat>)
    ensures b != [] ==> exists i :: i in b
  {
    if b != [] { assert b[0] in b; }
  }

  lemma LocalPartReports(c: RaidConfig, s: Raid, batch: seq<nat>)
    requires Inv(c, s)
    ensures CountGood(BatchLocalPart(c, s, batch).1)
            == |Pick(s.blocks, batch, KResident)| + |Pick(s.blocks, batch, KVirgin)| + |Pick(s.blocks, batch, KLocal)|
  {
    hide EvictTimes, TouchAll, FillAll, RestoreAll, Inv, Elems, SlotsNeeded, Kept, Excess, Balance, CountGood, Pick;
    var blocks := s.blocks;
    var residents, virgins, locals := Pick(blocks, batch, KResident), Pick(blocks, batch, KVirgin), Pick(blocks, batch, KLocal);
    EvictTimesEffect(c, s, SlotsNeeded(c, s, batch));
    var s1 := EvictTimes(c, s, SlotsNeeded(c, s, batch));
    TouchAllEffect(c, s1, residents);
    var s2 := TouchAll(s1, residents);
    FillAllEffect(c, s2, virgins);
    var s3 := FillAll(s2, virgins);
    assert Inv(c, s3) by { KeptInv(c, s, s1); KeptInv(c, s1, s2); }
    RestoreAllReports(c, s3, locals);
    var rs := RestoreAll(c, s3, locals).1;
    var touched := seq(|residents|, k requires 0 <= k < |residents| => AlreadyResident(residents[k]));
    var filled := seq(|virgins|, k requires 0 <= k < |virgins| => ZeroFilled(virgins[k]));
    AllGood(touched);
    AllGood(filled);
    AllGood(rs);
    CountGoodOfConcat(touched, filled);
    CountGoodOfConcat(touched + filled, rs);
    assert BatchLocalPart(c, s, batch).1 == touched + filled + rs;
  }

  /**
   Prefetch returns the number of absent blocks it was asked for, repeats included; over a network, remote ones count
   once for each intact answer of a pipeline answered in full.
   */
  lemma PrefetchCounts(c: RaidConfig, s: Raid, batch: seq<nat>)
    requires Inv(c, s)
    ensures var wanted := NonResident(s.blocks, batch);
            var remotes := Pick(s.blocks, wanted, KRemote);
            && |BatchLocalPart(c, s, wanted).0.blocks| == |s.blocks|
            && Prefetch(c, s, batch).1 == |wanted| - |remotes| + RemoteGood(c, BatchLocalPart(c, s, wanted).0, remotes)
            && (!c.world.transport.Mux? ==> Prefetch(c, s, batch).1 == |wanted|)
  {
    hide BatchLocalPart, BatchRestoreRemote, Pick, NonResident, CountGood, RemoteGood;
    var wanted := NonResident(s.blocks, batch);
    forall i | 0 <= i < |s.blocks| ensures !s.blocks[i].location.Fetching? { assert BlockOk(c, i, s.blocks[i]); }
    NonResidentSplits(s.blocks, batch);
    var (s1, results) := BatchLocalPart(c, s, wanted);
    var remotes := Pick(s.blocks, wanted, KRemote);
    LocalPartReports(c, s, wanted);
    BatchPartsMeet(c, s, wanted);
    RemotesWait(c, s, wanted);
    RemoteReports(c, s1, remotes);
    CountGoodOfConcat(results, BatchRestoreRemote(c, s1, remotes).1);
    NothingRemote(c, s1);
    NothingGood();
    if !c.world.transport.Mux? { AllRemoteGood(c, s1, remotes); }
  }

  lemma AllRemoteGood(c: RaidConfig, s: Raid, b: seq<nat>)
    requires InRange(b, |s.blocks|) && !c.world.transport.Mux?
    ensures RemoteGood(c, s, b) == |b|
  {
  }

  lemma NothingRemote(c: RaidConfig, s: Raid)
    ensures RemoteGood(c, s, []) == 0
  {
  }

  lemma NothingGood()
    ensures CountGood([]) == 0
  {
  }

  lemma RemotesWait(c: RaidConfig, s: Raid, batch: seq<nat>)
    requires Inv(c, s)
    ensures |BatchLocalPart(c, s, batch).0.blocks| == |s.blocks|
    ensures Inv(c, BatchLocalPart(c, s, batch).0)
    ensures forall i | i in Pick(s.blocks, batch, KRemote) :: BatchLocalPart(c, s, batch).0.blocks[i].location.RemoteKernel?
  {
    hide BatchLocalPart, Inv;
    BatchPartsMeet(c, s, batch);
  }
}
