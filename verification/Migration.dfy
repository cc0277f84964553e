/** Live migration by dirty bitmap (bifurcation.rs, LiveMigration). */
module Migration {
  import opened Prelude

  datatype Phase = BulkSync | DeltaSync | MicroFreeze | Handoff | Complete | Aborted

  /** The content hash used to skip unchanged blocks, as an input. */
  type QuickHash = Bytes -> Bytes

  const NO_HASH: Bytes := Zeros(32)

  /** The controller, and what the destination holds of each block. */
  datatype Mig = Mig(
    hashes: seq<Bytes>,
    dirty: seq<bool>,
    bytesTransferred: nat,
    bytesSkipped: nat,
    rounds: nat,
    phase: Phase,
    dst: seq<Option<Bytes>>)

  ghost predicate Shaped(m: Mig)
  {
    |m.hashes| == |m.dirty| == |m.dst|
  }

  function NewMig(n: nat): (m: Mig)
    ensures Shaped(m) && |m.dirty| == n
  {
    Mig(seq(n, _ => NO_HASH), seq(n, _ => true), 0, 0, 0, BulkSync, seq(n, _ => None))
  }

  function MarkDirty(m: Mig, i: nat): Mig
  {
    if i < |m.dirty| then m.(dirty := m.dirty[i := true]) else m
  }

  /** Running totals of one round. */
  datatype Totals = Totals(transferred: nat, skipped: nat, bytes: nat)

  /** One block of a round: a clean block is skipped, a dirty one is sent unless its hash is the recorded one. */
  function SyncBlock(h: QuickHash, m: Mig, t: Totals, i: nat, data: Bytes): (r: (Mig, Totals))
    requires Shaped(m) && i < |m.dirty|
    ensures Shaped(r.0) && |r.0.dirty| == |m.dirty|
  {
    if !m.dirty[i] then (m, t.(skipped := t.skipped + 1))
    else if h(data) != m.hashes[i] then
      (m.(hashes := m.hashes[i := h(data)], dirty := m.dirty[i := false], dst := m.dst[i := Some(data)]),
       t.(transferred := t.transferred + 1, bytes := t.bytes + |data|))
    else (m.(dirty := m.dirty[i := false]), t.(skipped := t.skipped + 1))
  }

  /** The first n blocks of a round. */
  function SyncFirst(h: QuickHash, m: Mig, data: seq<Bytes>, n: nat): (r: (Mig, Totals))
    requires Shaped(m) && n <= |m.dirty| && n <= |data|
    ensures Shaped(r.0) && |r.0.dirty| == |m.dirty|
  {
    if n == 0 then (m, Totals(0, 0, 0))
    else
      var (m1, t) := SyncFirst(h, m, data, n - 1);
      SyncBlock(h, m1, t, n - 1, data[n - 1])
  }

  function CountDirty(dirty: seq<bool>): nat
  {
    if dirty == [] then 0 else CountDirty(dirty[..|dirty| - 1]) + (if dirty[|dirty| - 1] then 1 else 0)
  }

  /** The phase after a round that leaves some of n blocks dirty; one percent is the freeze threshold. */
  function NextPhase(phase: Phase, remaining: nat, n: nat): Phase
  {
    match phase
    case BulkSync => if remaining == 0 then DeltaSync else BulkSync
    case DeltaSync => if remaining * 100 < n then MicroFreeze else DeltaSync
    case MicroFreeze => if remaining == 0 then Handoff else MicroFreeze
    case Handoff => Complete
    case _ => phase
  }

  datatype SyncRound = SyncRound(phase: Phase, round: nat, transferred: nat, skipped: nat, bytes: nat, remaining: nat)

  function Round(h: QuickHash, m: Mig, data: seq<Bytes>, blockSize: nat): (r: (Mig, SyncRound))
    requires Shaped(m)
    ensures Shaped(r.0) && |r.0.dirty| == |m.dirty|
  {
    var n: nat := Min(|m.dirty|, |data|);
    var (m1, t) := SyncFirst(h, m, data, n);
    var remaining := CountDirty(m1.dirty);
    var phase := NextPhase(m.phase, remaining, |m.dirty|);
    (m1.(rounds := m.rounds + 1,
         bytesTransferred := m.bytesTransferred + t.bytes,
         bytesSkipped := m.bytesSkipped + t.skipped * blockSize,
         phase := phase),
     SyncRound(phase, m.rounds + 1, t.transferred, t.skipped, t.bytes, remaining))
  }

  // ---------------------------------------------------------------- runs

  /** What happens during a migration: marked writes, spurious marks, and rounds that see the first n source blocks. */
  datatype Event = WriteEv(block: nat, data: Bytes) | MarkEv(block: nat) | RoundEv(seen: nat)

  datatype World = World(src: seq<Bytes>, mig: Mig)

  function Happen(h: QuickHash, blockSize: nat, w: World, ev: Event): (r: World)
    requires Shaped(w.mig)
    ensures Shaped(r.mig) && |r.mig.dirty| == |w.mig.dirty| && |r.src| == |w.src|
  {
    match ev
    case WriteEv(i, data) =>
      if i < |w.src| then World(w.src[i := data], MarkDirty(w.mig, i)) else w
    case MarkEv(i) => w.(mig := MarkDirty(w.mig, i))
    case RoundEv(seen) => w.(mig := Round(h, w.mig, w.src[..Min(seen, |w.src|)], blockSize).0)
  }

  function Run(h: QuickHash, blockSize: nat, src: seq<Bytes>, events: seq<Event>): (w: World)
    ensures Shaped(w.mig) && |w.mig.dirty| == |src| == |w.src|
  {
    if events == [] then World(src, NewMig(|src|))
    else Happen(h, blockSize, Run(h, blockSize, src, events[..|events| - 1]), events[|events| - 1])
  }

  // ---------------------------------------------------------------- safety

  /** The hash tells the given contents apart, and from the initial all-zero record. */
  ghost predicate Distinguishes(h: QuickHash, contents: set<Bytes>)
  {
    && (forall a, b | a in contents && b in contents && h(a) == h(b) :: a == b)
    && (forall a | a in contents :: h(a) != NO_HASH)
  }

  /** Block i: what is recorded is the hash of what was sent, and a clean block has been sent as it is. */
  ghost predicate BlockInSync(h: QuickHash, contents: set<Bytes>, src: Bytes, hash: Bytes, dirty: bool, dst: Option<Bytes>)
  {
    && src in contents
    && (match dst
        case None => hash == NO_HASH && dirty
        case Some(d) => d in contents && hash == h(d))
    && (!dirty ==> dst == Some(src))
  }

  ghost predicate InSync(h: QuickHash, contents: set<Bytes>, src: seq<Bytes>, m: Mig)
  {
    && Shaped(m) && |src| == |m.dirty|
    && forall i | 0 <= i < |src| :: BlockInSync(h, contents, src[i], m.hashes[i], m.dirty[i], m.dst[i])
  }

  lemma SyncBlockKeepsSync(h: QuickHash, contents: set<Bytes>, src: seq<Bytes>, m: Mig, t: Totals, i: nat)
    requires Distinguishes(h, contents) && InSync(h, contents, src, m) && i < |src|
    ensures InSync(h, contents, src, SyncBlock(h, m, t, i, src[i]).0)
    ensures !SyncBlock(h, m, t, i, src[i]).0.dirty[i]
    ensures forall j | 0 <= j < |src| && !m.dirty[j] :: !SyncBlock(h, m, t, i, src[i]).0.dirty[j]
  {
    assert BlockInSync(h, contents, src[i], m.hashes[i], m.dirty[i], m.dst[i]);
  }

  lemma {:induction false} SyncFirstKeepsSync(h: QuickHash, contents: set<Bytes>, src: seq<Bytes>, m: Mig, seen: nat, n: nat)
    requires Distinguishes(h, contents) && InSync(h, contents, src, m) && n <= seen <= |src|
    ensures InSync(h, contents, src, SyncFirst(h, m, src[..seen], n).0)
  {
    hide SyncBlock, InSync, Distinguishes;
    InSyncShape(h, contents, src, m);
    if n > 0 {
      SyncFirstKeepsSync(h, contents, src, m, seen, n - 1);
      var (m1, t) := SyncFirst(h, m, src[..seen], n - 1);
      InSyncShape(h, contents, src, m1);
      SyncBlockKeepsSync(h, contents, src, m1, t, n - 1);
    }
  }

  lemma InSyncShape(h: QuickHash, contents: set<Bytes>, src: seq<Bytes>, m: Mig)
    requires InSync(h, contents, src, m)
    ensures Shaped(m) && |src| == |m.dirty|
  {
  }

  /** A round clears every dirty bit it reaches, whatever the hash says. */
  lemma {:induction false} SyncFirstClears(h: QuickHash, m: Mig, data: seq<Bytes>, n: nat)
    requires Shaped(m) && n <= |m.dirty| && n <= |data|
    ensures var m1 := SyncFirst(h, m, data, n).0;
            forall j | 0 <= j < |m.dirty| :: m1.dirty[j] == (m.dirty[j] && j >= n)
    ensures var t := SyncFirst(h, m, data, n).1; t.transferred + t.skipped == n
  {
    if n > 0 {
      SyncFirstClears(h, m, data, n - 1);
    }
  }

  lemma {:induction false} CountDirtyZeroIff(dirty: seq<bool>)
    ensures CountDirty(dirty) == 0 <==> forall j | 0 <= j < |dirty| :: !dirty[j]
  {
    if dirty != [] {
      CountDirtyZeroIff(dirty[..|dirty| - 1]);
    }
  }

  /** All contents a run can show: the initial blocks and everything written. */
  ghost function ContentsOf(src: seq<Bytes>, events: seq<Event>): set<Bytes>
  {
    (set i | 0 <= i < |src| :: src[i]) + (set k | 0 <= k < |events| && events[k].WriteEv? :: events[k].data)
  }

  lemma RoundKeepsSync(h: QuickHash, contents: set<Bytes>, blockSize: nat, src: seq<Bytes>, m: Mig, seen: nat)
    requires Distinguishes(h, contents) && InSync(h, contents, src, m)
    ensures InSync(h, contents, src, Round(h, m, src[..Min(seen, |src|)], blockSize).0)
  {
    hide SyncFirst, Distinguishes, BlockInSync, CountDirty;
    var k: nat := Min(seen, |src|);
    SyncFirstKeepsSync(h, contents, src, m, k, k);
  }

  lemma {:induction false} RunInSync(h: QuickHash, contents: set<Bytes>, blockSize: nat, src: seq<Bytes>, events: seq<Event>)
    requires Distinguishes(h, contents) && ContentsOf(src, events) <= contents
    ensures InSync(h, contents, Run(h, blockSize, src, events).src, Run(h, blockSize, src, events).mig)
  {
    if events == [] {
      forall i | 0 <= i < |src| ensures src[i] in contents { assert src[i] in ContentsOf(src, events); }
    } else {
      var before, last := events[..|events| - 1], events[|events| - 1];
      assert ContentsOf(src, before) <= ContentsOf(src, events) by {
        forall x | x in ContentsOf(src, before) ensures x in ContentsOf(src, events) {
          if x !in (set i | 0 <= i < |src| :: src[i]) {
            var k :| 0 <= k < |before| && before[k].WriteEv? && before[k].data == x;
            assert events[k].WriteEv? && events[k].data == x;
          }
        }
      }
      RunInSync(h, contents, blockSize, src, before);
      EventKeepsSync(h, contents, blockSize, Run(h, blockSize, src, before), last, src, events);
    }
  }

  lemma EventKeepsSync(h: QuickHash, contents: set<Bytes>, blockSize: nat, w: World, ev: Event, src: seq<Bytes>, events: seq<Event>)
    requires Distinguishes(h, contents) && InSync(h, contents, w.src, w.mig)
    requires ContentsOf(src, events) <= contents && events != [] && ev == events[|events| - 1]
    ensures InSync(h, contents, Happen(h, blockSize, w, ev).src, Happen(h, blockSize, w, ev).mig)
  {
    hide Distinguishes, SyncFirst, CountDirty;
    match ev
    case WriteEv(i, data) => assert data in ContentsOf(src, events);
    case MarkEv(i) =>
    case RoundEv(seen) => RoundKeepsSync(h, contents, blockSize, w.src, w.mig, seen);
  }

  /** If the round after these events is the one that enters Handoff, it leaves the destination equal to the source. */
  ghost predicate HandsOffExactly(h: QuickHash, blockSize: nat, src: seq<Bytes>, events: seq<Event>, seen: nat)
  {
    var w := Run(h, blockSize, src, events);
    var v := Happen(h, blockSize, w, RoundEv(seen));
    w.mig.phase != Handoff && v.mig.phase == Handoff ==> forall i | 0 <= i < |src| :: v.mig.dst[i] == Some(v.src[i])
  }

  /**
   Safety: in any run of marked writes, spurious marks and rounds, full or partial, if the hash tells the
   run's contents apart then at the moment a round enters Handoff the destination holds every source block.
   */
  lemma HandoffIsExact(h: QuickHash, blockSize: nat, src: seq<Bytes>, events: seq<Event>, seen: nat)
    requires Distinguishes(h, ContentsOf(src, events))
    ensures HandsOffExactly(h, blockSize, src, events, seen)
  {
    hide Distinguishes, SyncFirst, Run, CountDirty, ContentsOf;
    var contents := ContentsOf(src, events);
    RunInSync(h, contents, blockSize, src, events);
    var w := Run(h, blockSize, src, events);
    RoundKeepsSync(h, contents, blockSize, w.src, w.mig, seen);
    var v := Happen(h, blockSize, w, RoundEv(seen));
    CountDirtyZeroIff(v.mig.dirty);
  }

  lemma RunSnoc(h: QuickHash, blockSize: nat, src: seq<Bytes>, events: seq<Event>, ev: Event)
    ensures Run(h, blockSize, src, events + [ev]) == Happen(h, blockSize, Run(h, blockSize, src, events), ev)
  {
    assert (events + [ev])[..|events|] == events;
  }

  /** A round over a single dirty block whose hash is or is not the recorded one. */
  lemma OneBlockRound(h: QuickHash, w: World)
    requires Shaped(w.mig) && |w.src| == 1 && |w.mig.dirty| == 1
    ensures var v := Happen(h, 1, w, RoundEv(1)).mig;
            && v.dirty == [false]
            && v.phase == NextPhase(w.mig.phase, 0, 1)
            && (w.mig.dirty[0] && h(w.src[0]) != w.mig.hashes[0] ==> v.dst == [Some(w.src[0])] && v.hashes == [h(w.src[0])])
            && (!w.mig.dirty[0] || h(w.src[0]) == w.mig.hashes[0] ==> v.dst == w.mig.dst && v.hashes == w.mig.hashes)
  {
    FullRoundLeavesNothingDirty(h, 1, w, 1);
    assert w.src[..1] == w.src;
    assert SyncFirst(h, w.mig, w.src, 0) == (w.mig, Totals(0, 0, 0));
  }

  /** A block whose contents hash to the initial record is never sent: three rounds hand off an empty destination. */
  lemma ZeroHashHandsOffNothing(h: QuickHash, a: Bytes)
    requires h(a) == NO_HASH
    ensures var w := Run(h, 1, [a], [RoundEv(1)] + [RoundEv(1)] + [RoundEv(1)]);
            w.mig.phase == Handoff && w.src == [a] && w.mig.dst == [None]
    ensures Run(h, 1, [a], [RoundEv(1)] + [RoundEv(1)]).mig.phase == MicroFreeze
  {
    hide Round, Run;
    var src: seq<Bytes> := [a];
    RunSnoc(h, 1, src, [], RoundEv(1));
    assert [] + [RoundEv(1)] == [RoundEv(1)];
    RunSnoc(h, 1, src, [RoundEv(1)], RoundEv(1));
    RunSnoc(h, 1, src, [RoundEv(1)] + [RoundEv(1)], RoundEv(1));
    RunNothing(h, 1, src);
    OneBlockRound(h, Run(h, 1, src, []));
    OneBlockRound(h, Run(h, 1, src, [RoundEv(1)]));
    OneBlockRound(h, Run(h, 1, src, [RoundEv(1)] + [RoundEv(1)]));
  }

  /** A block rewritten with contents of the same hash is not sent again: Handoff leaves the old contents in place. */
  lemma CollisionHandsOffStaleData(h: QuickHash, a: Bytes, b: Bytes)
    requires h(a) == h(b) != NO_HASH
    ensures var w := Run(h, 1, [a], [RoundEv(1)] + [WriteEv(0, b)] + [RoundEv(1)] + [RoundEv(1)]);
            w.mig.phase == Handoff && w.src == [b] && w.mig.dst == [Some(a)]
    ensures Run(h, 1, [a], [RoundEv(1)] + [WriteEv(0, b)] + [RoundEv(1)]).mig.phase == MicroFreeze
  {
    hide Round, Run;
    var src: seq<Bytes> := [a];
    RunSnoc(h, 1, src, [], RoundEv(1));
    assert [] + [RoundEv(1)] == [RoundEv(1)];
    RunSnoc(h, 1, src, [RoundEv(1)], WriteEv(0, b));
    RunSnoc(h, 1, src, [RoundEv(1)] + [WriteEv(0, b)], RoundEv(1));
    RunSnoc(h, 1, src, [RoundEv(1)] + [WriteEv(0, b)] + [RoundEv(1)], RoundEv(1));
    RunNothing(h, 1, src);
    OneBlockRound(h, Run(h, 1, src, []));
    OneBlockRound(h, Run(h, 1, src, [RoundEv(1)] + [WriteEv(0, b)]));
    OneBlockRound(h, Run(h, 1, src, [RoundEv(1)] + [WriteEv(0, b)] + [RoundEv(1)]));
  }

  /** Every migration that shows only these contents hands off exactly. */
  ghost predicate SafeFor(h: QuickHash, contents: set<Bytes>)
  {
    forall blockSize: nat, src: seq<Bytes>, events: seq<Event>, seen: nat | ContentsOf(src, events) <= contents ::
      HandsOffExactly(h, blockSize, src, events, seen)
  }

  lemma DistinguishesSome(h: QuickHash, contents: set<Bytes>, some: set<Bytes>)
    requires Distinguishes(h, contents) && some <= contents
    ensures Distinguishes(h, some)
  {
  }

  /**
   For every hash and every set of contents: all migrations over those contents hand off exactly if and only if the
   hash tells the contents apart and none of them hashes to the initial record.
   */
  lemma SafeIff(h: QuickHash, contents: set<Bytes>)
    ensures SafeFor(h, contents) <==> Distinguishes(h, contents)
  {
    hide Run, ContentsOf, Distinguishes;
    if Distinguishes(h, contents) {
      forall blockSize: nat, src: seq<Bytes>, events: seq<Event>, seen: nat | ContentsOf(src, events) <= contents
        ensures HandsOffExactly(h, blockSize, src, events, seen)
      {
        DistinguishesSome(h, contents, ContentsOf(src, events));
        HandoffIsExact(h, blockSize, src, events, seen);
      }
    } else {
      UnsafeUnlessDistinguished(h, contents);
    }
  }

  lemma UnsafeUnlessDistinguished(h: QuickHash, contents: set<Bytes>)
    requires !Distinguishes(h, contents)
    ensures !SafeFor(h, contents)
  {
    hide Run, Happen;
    if a :| a in contents && h(a) == NO_HASH {
      var events := [RoundEv(1)] + [RoundEv(1)];
      ZeroHashHandsOffNothing(h, a);
      RunSnoc(h, 1, [a], events, RoundEv(1));
      assert ContentsOf([a], events) <= contents;
      var v := Run(h, 1, [a], events + [RoundEv(1)]);
      assert v.mig.dst[0] != Some(v.src[0]);
      assert !HandsOffExactly(h, 1, [a], events, 1);
    } else {
      var a, b :| a in contents && b in contents && h(a) == h(b) && a != b;
      var events := [RoundEv(1)] + [WriteEv(0, b)] + [RoundEv(1)];
      CollisionHandsOffStaleData(h, a, b);
      RunSnoc(h, 1, [a], events, RoundEv(1));
      assert ContentsOf([a], events) <= contents;
      var v := Run(h, 1, [a], events + [RoundEv(1)]);
      assert v.mig.dst[0] != Some(v.src[0]);
      assert !HandsOffExactly(h, 1, [a], events, 1);
    }
  }

  lemma RunNothing(h: QuickHash, blockSize: nat, src: seq<Bytes>)
    ensures Run(h, blockSize, src, []) == World(src, NewMig(|src|))
  {
  }

  // ---------------------------------------------------------------- one round, exactly

  /** The blocks among the first n that a round sends: dirty ones whose hash is not the recorded one. */
  ghost function Sent(h: QuickHash, m: Mig, data: seq<Bytes>, n: nat): set<nat>
    requires Shaped(m)
  {
    set i: nat | i < n && i < |m.dirty| && i < |data| && m.dirty[i] && h(data[i]) != m.hashes[i]
  }

  ghost function BytesOf(sent: set<nat>, data: seq<Bytes>, n: nat): nat
    requires n <= |data|
  {
    if n == 0 then 0 else BytesOf(sent, data, n - 1) + (if n - 1 in sent then |data[n - 1]| else 0)
  }

  lemma {:induction false} BytesIgnoreLater(s: set<nat>, t: set<nat>, data: seq<Bytes>, n: nat)
    requires n <= |data| && forall i: nat | i < n :: i in s <==> i in t
    ensures BytesOf(s, data, n) == BytesOf(t, data, n)
  {
    if n > 0 { BytesIgnoreLater(s, t, data, n - 1); }
  }

  /** The blocks after a round has dealt with the first n of them and sent some. */
  ghost predicate BlocksAfter(h: QuickHash, m: Mig, data: seq<Bytes>, sent: set<nat>, n: nat, m1: Mig)
    requires Shaped(m) && n <= |m.dirty| && n <= |data|
  {
    && Shaped(m1) && |m1.dirty| == |m.dirty| && (forall i | i in sent :: i < n)
    && m1 == m.(hashes := m1.hashes, dirty := m1.dirty, dst := m1.dst)
    && (forall i: nat | i < |m.dirty| ::
          && m1.dst[i] == (if i in sent then Some(data[i]) else m.dst[i])
          && m1.hashes[i] == (if i in sent then h(data[i]) else m.hashes[i])
          && m1.dirty[i] == (m.dirty[i] && i >= n))
  }

  ghost predicate TotalsAfter(data: seq<Bytes>, sent: set<nat>, n: nat, t: Totals)
    requires n <= |data|
  {
    t.transferred == |sent| && t.transferred + t.skipped == n && t.bytes == BytesOf(sent, data, n)
  }

  lemma OneMoreSent(h: QuickHash, m: Mig, data: seq<Bytes>, n: nat)
    requires Shaped(m) && n < |m.dirty| && n < |data|
    ensures var more := m.dirty[n] && h(data[n]) != m.hashes[n];
            && n !in Sent(h, m, data, n)
            && Sent(h, m, data, n + 1) == Sent(h, m, data, n) + (if more then {n} else {})
            && |Sent(h, m, data, n + 1)| == |Sent(h, m, data, n)| + (if more then 1 else 0)
            && BytesOf(Sent(h, m, data, n + 1), data, n + 1) == BytesOf(Sent(h, m, data, n), data, n) + (if more then |data[n]| else 0)
  {
    var before, after := Sent(h, m, data, n), Sent(h, m, data, n + 1);
    assert after == before + (if m.dirty[n] && h(data[n]) != m.hashes[n] then {n} else {});
    BytesIgnoreLater(before, after, data, n);
  }

  lemma BlockSends(h: QuickHash, m: Mig, data: seq<Bytes>, sent: set<nat>, n: nat, m1: Mig, t: Totals)
    requires Shaped(m) && n < |m.dirty| && n < |data| && BlocksAfter(h, m, data, sent, n, m1)
    ensures var more := m.dirty[n] && h(data[n]) != m.hashes[n];
            var (m2, t2) := SyncBlock(h, m1, t, n, data[n]);
            && BlocksAfter(h, m, data, sent + (if more then {n} else {}), n + 1, m2)
            && t2 == (if more then Totals(t.transferred + 1, t.skipped, t.bytes + |data[n]|) else t.(skipped := t.skipped + 1))
  {
    assert n !in sent && m1.dirty[n] == m.dirty[n] && m1.hashes[n] == m.hashes[n];
  }

  lemma OneMoreBlock(h: QuickHash, m: Mig, data: seq<Bytes>, n: nat, m1: Mig, t: Totals)
    requires Shaped(m) && n < |m.dirty| && n < |data|
    requires BlocksAfter(h, m, data, Sent(h, m, data, n), n, m1) && TotalsAfter(data, Sent(h, m, data, n), n, t)
    ensures var (m2, t2) := SyncBlock(h, m1, t, n, data[n]);
            BlocksAfter(h, m, data, Sent(h, m, data, n + 1), n + 1, m2) && TotalsAfter(data, Sent(h, m, data, n + 1), n + 1, t2)
  {
    hide BlocksAfter, SyncBlock, Sent, BytesOf;
    OneMoreSent(h, m, data, n);
    BlockSends(h, m, data, Sent(h, m, data, n), n, m1, t);
  }

  lemma NothingSentYet(h: QuickHash, m: Mig, data: seq<Bytes>)
    requires Shaped(m)
    ensures BlocksAfter(h, m, data, Sent(h, m, data, 0), 0, m) && TotalsAfter(data, Sent(h, m, data, 0), 0, Totals(0, 0, 0))
  {
    assert Sent(h, m, data, 0) == {};
  }

  lemma {:induction false} SyncFirstSends(h: QuickHash, m: Mig, data: seq<Bytes>, n: nat)
    requires Shaped(m) && n <= |m.dirty| && n <= |data|
    ensures BlocksAfter(h, m, data, Sent(h, m, data, n), n, SyncFirst(h, m, data, n).0)
    ensures TotalsAfter(data, Sent(h, m, data, n), n, SyncFirst(h, m, data, n).1)
  {
    hide BlocksAfter, TotalsAfter, SyncBlock, Sent;
    NothingSentYet(h, m, data);
    if n > 0 {
      SyncFirstSends(h, m, data, n - 1);
      OneMoreBlock(h, m, data, n - 1, SyncFirst(h, m, data, n - 1).0, SyncFirst(h, m, data, n - 1).1);
    }
  }

  /** The dirty blocks a round over the first n does not reach. */
  ghost function Unreached(m: Mig, n: nat): set<nat>
  {
    set i: nat | i < |m.dirty| && m.dirty[i] && i >= n
  }

  ghost function DirtySet(dirty: seq<bool>): set<nat>
  {
    set i: nat | i < |dirty| && dirty[i]
  }

  lemma {:induction false} CountDirtyIsSize(dirty: seq<bool>)
    ensures CountDirty(dirty) == |DirtySet(dirty)|
  {
    if dirty == [] {
      assert DirtySet(dirty) == {};
    } else {
      var n := |dirty| - 1;
      CountDirtyIsSize(dirty[..n]);
      assert DirtySet(dirty) == DirtySet(dirty[..n]) + (if dirty[n] then {n} else {});
    }
  }

  /**
   One round over the blocks at hand sends exactly the dirty ones whose hash is not the recorded one, and skips the rest;
   leaves dirty exactly those it did not reach; and reports and accumulates just that.
   */
  lemma RoundIsExact(h: QuickHash, m: Mig, data: seq<Bytes>, blockSize: nat)
    requires Shaped(m)
    ensures var (m1, r) := Round(h, m, data, blockSize);
            var n := Min(|m.dirty|, |data|);
            var sent := Sent(h, m, data, n);
            && (forall i: nat | i < |m.dirty| ::
                  && m1.dst[i] == (if i in sent then Some(data[i]) else m.dst[i])
                  && m1.hashes[i] == (if i in sent then h(data[i]) else m.hashes[i])
                  && m1.dirty[i] == (m.dirty[i] && i >= |data|))
            && m1.rounds == r.round == m.rounds + 1 && m1.phase == r.phase
            && r.transferred == |sent| && r.transferred + r.skipped == n && r.bytes == BytesOf(sent, data, n)
            && m1.bytesTransferred == m.bytesTransferred + r.bytes
            && m1.bytesSkipped == m.bytesSkipped + r.skipped * blockSize
            && r.remaining == |Unreached(m, |data|)|
  {
    hide SyncFirst, NextPhase, Sent, BytesOf, CountDirty;
    var n := Min(|m.dirty|, |data|);
    SyncFirstSends(h, m, data, n);
    var m1 := SyncFirst(h, m, data, n).0;
    CountDirtyIsSize(m1.dirty);
    assert DirtySet(m1.dirty) == Unreached(m, |data|);
  }

  /**
   When a round moves to the next phase: from bulk and from the freeze when it leaves nothing dirty, from delta when it
   leaves less than one block in a hundred dirty, from the handoff always; otherwise the phase stays.
   */
  lemma RoundAdvancesIff(h: QuickHash, m: Mig, data: seq<Bytes>, blockSize: nat)
    requires Shaped(m)
    ensures var phase := Round(h, m, data, blockSize).0.phase;
            var left := Unreached(m, |data|);
            && (m.phase == BulkSync ==> phase == if left == {} then DeltaSync else BulkSync)
            && (m.phase == DeltaSync ==> phase == if |left| * 100 < |m.dirty| then MicroFreeze else DeltaSync)
            && (m.phase == MicroFreeze ==> phase == if left == {} then Handoff else MicroFreeze)
            && (m.phase == Handoff ==> phase == Complete)
            && (m.phase == Complete || m.phase == Aborted ==> phase == m.phase)
  {
    hide SyncFirst;
    RoundIsExact(h, m, data, blockSize);
  }

  // ---------------------------------------------------------------- progress

  function RoundsIn(events: seq<Event>): nat
  {
    if events == [] then 0 else RoundsIn(events[..|events| - 1]) + (if events[|events| - 1].RoundEv? then 1 else 0)
  }

  ghost predicate FullRounds(n: nat, events: seq<Event>)
  {
    forall k | 0 <= k < |events| && events[k].RoundEv? :: events[k].seen >= n
  }

  function PhaseAfter(rounds: nat): Phase
  {
    if rounds == 0 then BulkSync
    else if rounds == 1 then DeltaSync
    else if rounds == 2 then MicroFreeze
    else if rounds == 3 then Handoff
    else Complete
  }

  lemma FullRoundLeavesNothingDirty(h: QuickHash, blockSize: nat, w: World, seen: nat)
    requires Shaped(w.mig) && |w.src| == |w.mig.dirty| && seen >= |w.src|
    ensures Happen(h, blockSize, w, RoundEv(seen)).mig.phase == NextPhase(w.mig.phase, 0, |w.src|)
  {
    hide SyncFirst, CountDirty;
    var data := w.src[..Min(seen, |w.src|)];
    SyncFirstClears(h, w.mig, data, |w.src|);
    CountDirtyZeroIff(SyncFirst(h, w.mig, data, |w.src|).0.dirty);
  }

  /**
   Progress: with full rounds and at least one block the phase is decided by the number of rounds alone,
   whatever is written or marked in between, so exactly four rounds reach Complete; with no blocks at all
   a migration never gets past DeltaSync.
   */
  lemma {:induction false} PhaseIsRoundCount(h: QuickHash, blockSize: nat, src: seq<Bytes>, events: seq<Event>)
    requires FullRounds(|src|, events)
    ensures var phase := Run(h, blockSize, src, events).mig.phase;
            phase == if |src| > 0 then PhaseAfter(RoundsIn(events))
                     else if RoundsIn(events) == 0 then BulkSync else DeltaSync
  {
    hide Round;
    if events != [] {
      var before, last := events[..|events| - 1], events[|events| - 1];
      PhaseIsRoundCount(h, blockSize, src, before);
      if last.RoundEv? {
        FullRoundLeavesNothingDirty(h, blockSize, Run(h, blockSize, src, before), last.seen);
      }
    }
  }

  /** Four full rounds complete a migration exactly when there is a block to migrate. */
  lemma FourRoundsCompleteIff(h: QuickHash, blockSize: nat, src: seq<Bytes>, events: seq<Event>)
    requires FullRounds(|src|, events) && RoundsIn(events) == 4
    ensures Run(h, blockSize, src, events).mig.phase == Complete <==> |src| > 0
  {
    PhaseIsRoundCount(h, blockSize, src, events);
  }

  // ---------------------------------------------------------------- the controller object

  class LiveMigration {
    const h: QuickHash
    var sourceBlockHashes: seq<Bytes>
    var dirtyBitmap: seq<bool>
    var bytesTransferred: nat
    var bytesSkipped: nat
    var syncRounds: nat
    var phase: Phase
    ghost var dst: seq<Option<Bytes>>

    ghost function State(): Mig
      reads this
    {
      Mig(sourceBlockHashes, dirtyBitmap, bytesTransferred, bytesSkipped, syncRounds, phase, dst)
    }

    ghost predicate Valid()
      reads this
    {
      Shaped(State())
    }

    constructor (h: QuickHash, blockCount: nat)
      ensures Valid() && this.h == h && State() == NewMig(blockCount)
    {
      this.h := h;
      sourceBlockHashes := seq(blockCount, _ => NO_HASH);
      dirtyBitmap := seq(blockCount, _ => true);
      bytesTransferred, bytesSkipped, syncRounds, phase := 0, 0, 0, BulkSync;
      dst := seq(blockCount, _ => None);
    }

    method Mark(i: nat)
      requires Valid()
      modifies this
      ensures Valid() && State() == MarkDirty(old(State()), i)
    {
      if i < |dirtyBitmap| {
        dirtyBitmap := dirtyBitmap[i := true];
      }
    }

    /** One block of the transfer loop. */
    method TransferOne(i: nat, data: Bytes, t: Totals) returns (r: Totals)
      requires Valid() && i < |dirtyBitmap|
      modifies this
      ensures Valid() && (State(), r) == SyncBlock(h, old(State()), t, i, data)
    {
      if !dirtyBitmap[i] {
        return t.(skipped := t.skipped + 1);
      }
      var hash := h(data);
      if hash != sourceBlockHashes[i] {
        sourceBlockHashes := sourceBlockHashes[i := hash];
        dst := dst[i := Some(data)];
        r := t.(transferred := t.transferred + 1, bytes := t.bytes + |data|);
      } else {
        r := t.(skipped := t.skipped + 1);
      }
      dirtyBitmap := dirtyBitmap[i := false];
    }

    /** The transfer loop: send the dirty blocks whose hash changed, clear every dirty bit reached. */
    method TransferDirty(data: seq<Bytes>) returns (t: Totals)
      requires Valid()
      modifies this
      ensures Valid() && |dirtyBitmap| == |old(dirtyBitmap)|
      ensures (State(), t) == SyncFirst(h, old(State()), data, Min(|old(dirtyBitmap)|, |data|))
    {
      hide SyncBlock;
      t := Totals(0, 0, 0);
      var n: nat := Min(|dirtyBitmap|, |data|);
      for i := 0 to n
        invariant Valid() && |State().dirty| == |old(dirtyBitmap)|
        invariant (State(), t) == SyncFirst(h, old(State()), data, i)
      {
        t := TransferOne(i, data[i], t);
      }
    }

    method RemainingDirty() returns (n: nat)
      ensures n == CountDirty(dirtyBitmap)
    {
      n := 0;
      for i := 0 to |dirtyBitmap|
        invariant n == CountDirty(dirtyBitmap[..i])
      {
        assert dirtyBitmap[..i + 1][..i] == dirtyBitmap[..i];
        if dirtyBitmap[i] {
          n := n + 1;
        }
      }
      assert dirtyBitmap[..|dirtyBitmap|] == dirtyBitmap;
    }

    method Sync(data: seq<Bytes>, blockSize: nat) returns (r: SyncRound)
      requires Valid()
      modifies this
      ensures Valid() && (State(), r) == Round(h, old(State()), data, blockSize)
    {
      hide SyncFirst, CountDirty;
      var t := TransferDirty(data);
      SyncFirstKeepsCounters(h, old(State()), data, Min(|old(dirtyBitmap)|, |data|));
      syncRounds := syncRounds + 1;
      bytesTransferred := bytesTransferred + t.bytes;
      bytesSkipped := bytesSkipped + t.skipped * blockSize;
      var remaining := RemainingDirty();
      match phase {
        case BulkSync =>
          if remaining == 0 { phase := DeltaSync; }
        case DeltaSync =>
          if remaining * 100 < |dirtyBitmap| { phase := MicroFreeze; }
        case MicroFreeze =>
          if remaining == 0 { phase := Handoff; }
        case Handoff =>
          phase := Complete;
        case _ =>
      }
      r := SyncRound(phase, syncRounds, t.transferred, t.skipped, t.bytes, remaining);
    }
  }

  /** The transfer loop leaves the phase and the running counters to the round. */
  lemma {:induction false} SyncFirstKeepsCounters(h: QuickHash, m: Mig, data: seq<Bytes>, n: nat)
    requires Shaped(m) && n <= |m.dirty| && n <= |data|
    ensures var m1 := SyncFirst(h, m, data, n).0;
            m1.phase == m.phase && m1.rounds == m.rounds && m1.bytesTransferred == m.bytesTransferred && m1.bytesSkipped == m.bytesSkipped
  {
    if n > 0 {
      SyncFirstKeepsCounters(h, m, data, n - 1);
    }
  }
}
