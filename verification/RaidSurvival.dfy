/** Which resident blocks survive when a batch makes room: read off the table before the call. */
module RaidSurvival {
  import opened Prelude
  import opened RaidModel
  import opened RaidProofs

  // ---------------------------------------------------------------- the eviction order

  predicate AtLevel(blocks: seq<RaidBlock>, j: nat, level: nat)
  {
    j < |blocks| && blocks[j].location.Resident? && blocks[j].accessCount == level
  }

  /** The slot after w on the clock face. */
  function NextSlot(w: nat, n: nat): nat
    requires w < n
  {
    if w + 1 < n then w + 1 else 0
  }

  /** The last Resident block of this access count among the first k that the hand passes. */
  function LastPassed(blocks: seq<RaidBlock>, start: nat, level: nat, k: nat): (last: Option<nat>)
    requires start < |blocks|
    ensures last.Some? ==> AtLevel(blocks, last.value, level)
  {
    if k == 0 then None
    else
      var i := ClockSlot(start, k - 1, |blocks|);
      if AtLevel(blocks, i, level) then Some(i) else LastPassed(blocks, start, level, k - 1)
  }

  /** Where the hand stands when every Resident block of a lower access count has gone. */
  function Hand(blocks: seq<RaidBlock>, start: nat, level: nat): (h: nat)
    requires start < |blocks|
    ensures h < |blocks|
  {
    if level == 0 then start
    else
      var h := Hand(blocks, start, level - 1);
      match LastPassed(blocks, h, level - 1, |blocks|)
      case None => h
      case Some(w) => NextSlot(w, |blocks|)
  }

  /** Block j leaves before block v: it is colder, or as cold and reached first by the hand. */
  predicate LeavesBefore(blocks: seq<RaidBlock>, start: nat, j: nat, v: nat)
    requires start < |blocks| && j < |blocks| && v < |blocks|
  {
    var level, n := blocks[v].accessCount, |blocks|;
    && blocks[j].location.Resident?
    && (|| blocks[j].accessCount < level
        || (blocks[j].accessCount == level
            && ClockDistance(Hand(blocks, start, level), j, n) < ClockDistance(Hand(blocks, start, level), v, n)))
  }

  ghost function Ahead(blocks: seq<RaidBlock>, start: nat, v: nat): set<nat>
    requires start < |blocks| && v < |blocks|
  {
    set j: nat | j < |blocks| && LeavesBefore(blocks, start, j, v)
  }

  ghost function Colder(blocks: seq<RaidBlock>, v: nat): set<nat>
    requires v < |blocks|
  {
    set j: nat | j < |blocks| && blocks[j].location.Resident? && blocks[j].accessCount < blocks[v].accessCount
  }

  lemma {:induction false} LastPassedCorrect(blocks: seq<RaidBlock>, start: nat, level: nat, k: nat)
    requires start < |blocks| && k <= |blocks|
    ensures match LastPassed(blocks, start, level, k)
            case None => forall j: nat | AtLevel(blocks, j, level) :: ClockDistance(start, j, |blocks|) >= k
            case Some(w) =>
              && ClockDistance(start, w, |blocks|) < k
              && forall j: nat | AtLevel(blocks, j, level) && ClockDistance(start, j, |blocks|) < k ::
                   ClockDistance(start, j, |blocks|) <= ClockDistance(start, w, |blocks|)
  {
    if k > 0 {
      LastPassedCorrect(blocks, start, level, k - 1);
      ClockReaches(start, k - 1, |blocks|);
      var i := ClockSlot(start, k - 1, |blocks|);
      forall j: nat | j < |blocks| && ClockDistance(start, j, |blocks|) == k - 1 ensures j == i {
      }
    }
  }

  // ---------------------------------------------------------------- one eviction

  /** The table after the first victim w has left: the others keep their place and their access count. */
  ghost predicate Left(blocks: seq<RaidBlock>, after: seq<RaidBlock>, start: nat, w: nat)
  {
    && start < |blocks| == |after| && w < |blocks|
    && ColdestWithin(blocks, start, w, |blocks|)
    && !after[w].location.Resident?
    && (forall j | 0 <= j < |blocks| && j != w :: after[j] == blocks[j])
  }

  /** Below the coldest level nothing moves the hand. */
  lemma {:induction false} HandStays(blocks: seq<RaidBlock>, start: nat, level: nat)
    requires start < |blocks|
    requires forall j | 0 <= j < |blocks| && blocks[j].location.Resident? :: level <= blocks[j].accessCount
    ensures Hand(blocks, start, level) == start
  {
    if level > 0 {
      HandStays(blocks, start, level - 1);
    }
  }

  lemma ShiftedDistance(start: nat, w: nat, j: nat, n: nat)
    requires start < n && w < n && j < n && ClockDistance(start, w, n) < ClockDistance(start, j, n)
    ensures ClockDistance(NextSlot(w, n), j, n) == ClockDistance(start, j, n) - ClockDistance(start, w, n) - 1
  {
  }

  /** The others at the victim's level come after it, in the same order, from the new hand position. */
  lemma SameOrder(blocks: seq<RaidBlock>, after: seq<RaidBlock>, start: nat, w: nat, j: nat)
    requires Left(blocks, after, start, w) && j != w && AtLevel(blocks, j, blocks[w].accessCount)
    ensures var n := |blocks|;
            ClockDistance(NextSlot(w, n), j, n) == ClockDistance(start, j, n) - ClockDistance(start, w, n) - 1
  {
    ShiftedDistance(start, w, j, |blocks|);
  }

  /** Once the victim's level has gone the hand stands in the same place. */
  lemma SameHandAbove(blocks: seq<RaidBlock>, after: seq<RaidBlock>, start: nat, w: nat)
    requires Left(blocks, after, start, w)
    ensures var a := blocks[w].accessCount;
            Hand(blocks, start, a + 1) == Hand(after, NextSlot(w, |blocks|), a + 1)
  {
    hide LastPassed;
    var n, a, next := |blocks|, blocks[w].accessCount, NextSlot(w, |blocks|);
    HandStays(blocks, start, a);
    HandStays(after, next, a);
    LastPassedCorrect(blocks, start, a, n);
    LastPassedCorrect(after, next, a, n);
    var last, last1 := LastPassed(blocks, start, a, n), LastPassed(after, next, a, n);
    assert AtLevel(blocks, w, a);
    if last1.None? {
      assert forall j: nat | AtLevel(blocks, j, a) && j != w :: AtLevel(after, j, a);
    } else {
      var l, l1 := last.value, last1.value;
      assert AtLevel(blocks, l1, a) && l1 != w;
      SameOrder(blocks, after, start, w, l1);
      if l == w { assert false; }
      SameOrder(blocks, after, start, w, l);
      assert AtLevel(after, l, a);
    }
  }

  lemma {:induction false} SameHand(blocks: seq<RaidBlock>, after: seq<RaidBlock>, start: nat, w: nat, level: nat)
    requires Left(blocks, after, start, w) && level > blocks[w].accessCount
    ensures Hand(blocks, start, level) == Hand(after, NextSlot(w, |blocks|), level)
    decreases level
  {
    if level == blocks[w].accessCount + 1 {
      SameHandAbove(blocks, after, start, w);
    } else {
      hide LastPassed;
      SameHand(blocks, after, start, w, level - 1);
      SamePassed(blocks, after, w, Hand(blocks, start, level - 1), level - 1, |blocks|);
    }
  }

  lemma {:induction false} SamePassed(blocks: seq<RaidBlock>, after: seq<RaidBlock>, w: nat, start: nat, level: nat, k: nat)
    requires start < |blocks| == |after| && w < |blocks| && level != blocks[w].accessCount
    requires !after[w].location.Resident? && forall j | 0 <= j < |blocks| && j != w :: after[j] == blocks[j]
    ensures LastPassed(blocks, start, level, k) == LastPassed(after, start, level, k)
  {
    if k > 0 {
      SamePassed(blocks, after, w, start, level, k - 1);
    }
  }

  /** An eviction moves every other block exactly one place up the line. */
  lemma LineMovesUp(blocks: seq<RaidBlock>, after: seq<RaidBlock>, start: nat, w: nat, v: nat)
    requires Left(blocks, after, start, w) && v < |blocks| && v != w && blocks[v].location.Resident?
    ensures w in Ahead(blocks, start, v)
    ensures Ahead(after, NextSlot(w, |blocks|), v) == Ahead(blocks, start, v) - {w}
  {
    hide Hand;
    var n, a, level, next := |blocks|, blocks[w].accessCount, blocks[v].accessCount, NextSlot(w, |blocks|);
    if level == a {
      HandStays(blocks, start, a);
      HandStays(after, next, a);
      SameOrder(blocks, after, start, w, v);
      forall j: nat | AtLevel(blocks, j, a) && j != w
        ensures LeavesBefore(after, next, j, v) <==> LeavesBefore(blocks, start, j, v)
      {
        SameOrder(blocks, after, start, w, j);
      }
    } else {
      SameHand(blocks, after, start, w, level);
    }
    forall j: nat | j < n ensures LeavesBefore(after, next, j, v) <==> j != w && LeavesBefore(blocks, start, j, v) {
      if j != w && level == a && blocks[j].location.Resident? && blocks[j].accessCount == a {
        assert AtLevel(blocks, j, a);
      }
    }
  }

  /** The victim has nobody ahead of it. */
  lemma VictimIsFirst(blocks: seq<RaidBlock>, start: nat, w: nat)
    requires start < |blocks| && w < |blocks| && ColdestWithin(blocks, start, w, |blocks|)
    ensures Ahead(blocks, start, w) == {}
  {
    HandStays(blocks, start, blocks[w].accessCount);
  }

  // ---------------------------------------------------------------- many evictions

  function HandOf(s: Raid): nat
    requires |s.blocks| > 0
  {
    s.lruClock % |s.blocks|
  }

  lemma EvictionMovesHand(c: RaidConfig, s: Raid)
    requires Victim(s).Some?
    ensures EvictColdest(c, s).0.lruClock == Victim(s).value + 1
  {
    hide Victim;
  }

  lemma EvictionLeaves(c: RaidConfig, s: Raid)
    requires Victim(s).Some? && !EvictionRefused(c, s)
    ensures var w := Victim(s).value;
            var t := EvictColdest(c, s).0;
            Left(s.blocks, t.blocks, HandOf(s), w) && HandOf(t) == NextSlot(w, |s.blocks|)
  {
    hide Victim, EvictColdest, ColdestWithin, Kept, EvictionRefused;
    VictimIsColdest(s);
    EvictEffect(c, s);
    EvictionMovesHand(c, s);
    NextSlotIsModulo(Victim(s).value, |s.blocks|);
    hide NextSlot;
  }

  lemma NextSlotIsModulo(w: nat, n: nat)
    requires w < n
    ensures (w + 1) % n == NextSlot(w, n)
  {
    if w + 1 == n { ModOnce(w + 1, n); }
  }

  lemma {:induction false} EvictTimesFromFront(c: RaidConfig, s: Raid, n: nat)
    requires n > 0
    ensures EvictTimes(c, s, n) == EvictTimes(c, EvictColdest(c, s).0, n - 1)
  {
    hide EvictColdest;
    if n > 1 {
      EvictTimesFromFront(c, s, n - 1);
    } else {
      assert EvictTimes(c, s, 0) == s;
    }
  }

  /**
   When stores are acknowledged, a Resident block survives n evictions exactly when at least n blocks are ahead of it
   in the table as it stands, or its access count has reached the bound at which nothing is evicted.
   */
  lemma {:induction false} SurvivesIff(c: RaidConfig, s: Raid, v: nat, n: nat)
    requires StoresAcknowledged(c) && v < |s.blocks| && s.blocks[v].location.Resident?
    ensures EvictTimes(c, s, n).blocks[v].location.Resident? <==>
              s.blocks[v].accessCount >= U64_MAX || n <= |Ahead(s.blocks, HandOf(s), v)|
    decreases n
  {
    hide EvictColdest, Victim, Hand, StoresAcknowledged, ResidentSet, Inv, Ahead;
    if n > 0 {
      var t := EvictColdest(c, s).0;
      EvictTimesFromFront(c, s, n);
      VictimIsColdest(s);
      EvictEffect(c, s);
      AcknowledgedIsNotRefused(c, s);
      if Victim(s).Some? {
        EvictionLeaves(c, s);
        if Victim(s).value == v {
          VictimIsFirst(s.blocks, HandOf(s), v);
          EvictTimesEffect(c, t, n - 1);
        } else {
          LineMovesUp(s.blocks, t.blocks, HandOf(s), Victim(s).value, v);
          SurvivesIff(c, t, v, n - 1);
        }
      } else {
        SurvivesIff(c, t, v, n - 1);
      }
    }
  }

  /** On any transport, n colder blocks are enough to survive n evictions. */
  lemma {:induction false} ColderBlocksShield(c: RaidConfig, s: Raid, v: nat, n: nat)
    requires v < |s.blocks| && s.blocks[v].location.Resident? && n <= |Colder(s.blocks, v)|
    ensures EvictTimes(c, s, n).blocks[v].location.Resident?
    decreases n
  {
    hide EvictColdest, Victim, ResidentSet, Inv;
    if n > 0 {
      var t := EvictColdest(c, s).0;
      EvictTimesFromFront(c, s, n);
      VictimIsColdest(s);
      EvictEffect(c, s);
      var j :| j in Colder(s.blocks, v);
      if EvictColdest(c, s).1.Freed() {
        assert Colder(t.blocks, v) == Colder(s.blocks, v) - {Victim(s).value};
      } else {
        assert Colder(t.blocks, v) == Colder(s.blocks, v);
      }
      ColderBlocksShield(c, t, v, n - 1);
    }
  }

  /** When no other Resident block has its access count, those ahead of a block are the colder ones. */
  lemma AheadAreColder(blocks: seq<RaidBlock>, start: nat, v: nat)
    requires start < |blocks| && v < |blocks|
    requires forall j: nat | AtLevel(blocks, j, blocks[v].accessCount) :: j == v
    ensures Ahead(blocks, start, v) == Colder(blocks, v)
  {
    hide Hand;
    forall j: nat | j < |blocks| ensures j in Ahead(blocks, start, v) <==> j in Colder(blocks, v) {
      if AtLevel(blocks, j, blocks[v].accessCount) { assert j == v; }
    }
  }

  /**
   A batch member that was in memory is always reported AlreadyResident. When stores are acknowledged it is still in
   memory exactly when the slots the batch needs are no more than the blocks ahead of the member before the call:
   the colder ones and, among equals, those the clock hand reaches first.
   */
  lemma ResidentMemberSurvivesIff(c: RaidConfig, s: Raid, batch: seq<nat>, v: nat)
    requires Inv(c, s) && StoresAcknowledged(c)
    requires v in batch && v < |s.blocks| && s.blocks[v].location.Resident?
    ensures AlreadyResident(v) in ReadBatch(c, s, batch).1
    ensures ReadBatch(c, s, batch).0.blocks[v].location.Resident? <==>
              s.blocks[v].accessCount >= U64_MAX || SlotsNeeded(c, s, batch) <= |Ahead(s.blocks, HandOf(s), v)|
  {
    hide ReadBatch, EvictTimes, Inv, Ahead, StoresAcknowledged;
    OnlyMakingRoomEvicts(c, s, batch, v);
    SurvivesIff(c, s, v, SlotsNeeded(c, s, batch));
  }
}
