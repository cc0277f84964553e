/** The snapshot index and the recovery cascade (recovery.rs). */
module Recovery {
  import opened Prelude

  datatype Strategy = LastGood | Checkpoint(target: nat) | CleanBoot | GitRecover

  datatype Candidate = Candidate(
    path: string,
    intent: string,
    busSeq: nat,
    fileSize: nat,
    signatureValid: bool,
    hashValid: bool,
    capturedAt: nat)

  datatype RecoveryResult =
    | Restored(path: string, seqNo: nat, bytes: nat, strategy: Strategy)
    | CleanBooted
    | Failed(tried: seq<Strategy>)

  // ---------------------------------------------------------------- the index

  /** Insert behind every snapshot at least as new: one step of a stable sort, newest first. */
  function Insert(s: seq<Candidate>, c: Candidate): seq<Candidate>
  {
    if s == [] || s[|s| - 1].capturedAt >= c.capturedAt then s + [c]
    else Insert(s[..|s| - 1], c) + [s[|s| - 1]]
  }

  function SortNewestFirst(s: seq<Candidate>): seq<Candidate>
  {
    if s == [] then [] else Insert(SortNewestFirst(s[..|s| - 1]), s[|s| - 1])
  }

  function Register(s: seq<Candidate>, c: Candidate): seq<Candidate>
  {
    SortNewestFirst(s + [c])
  }

  /** The intent is the snapshot's own, or starts with it. */
  predicate Matches(c: Candidate, intent: string)
  {
    c.intent == intent || c.intent <= intent
  }

  predicate Intact(c: Candidate)
  {
    c.signatureValid && c.hashValid
  }

  function FirstWhere(s: seq<Candidate>, p: Candidate -> bool): Option<Candidate>
  {
    if s == [] then None else if p(s[0]) then Some(s[0]) else FirstWhere(s[1..], p)
  }

  function Keep(s: seq<Candidate>, p: Candidate -> bool): (r: seq<Candidate>)
    ensures forall c :: c in r <==> c in s && p(c)
  {
    if s == [] then []
    else
      assert s == [s[0]] + s[1..];
      (if p(s[0]) then [s[0]] else []) + Keep(s[1..], p)
  }

  /** The first candidate at the least distance below the target. */
  function ClosestTo(s: seq<Candidate>, target: nat): Option<Candidate>
  {
    if s == [] then None
    else
      match ClosestTo(s[..|s| - 1], target)
      case None => Some(s[|s| - 1])
      case Some(best) =>
        if target - s[|s| - 1].busSeq < target - best.busSeq then Some(s[|s| - 1]) else Some(best)
  }

  function Good(intent: string): Candidate -> bool
  {
    c => Matches(c, intent) && Intact(c)
  }

  function Any(intent: string): Candidate -> bool
  {
    c => Matches(c, intent)
  }

  function NotAfter(intent: string, target: nat): Candidate -> bool
  {
    c => Matches(c, intent) && c.busSeq <= target && c.signatureValid
  }

  function Resolve(s: seq<Candidate>, intent: string, strategy: Strategy): Option<Candidate>
  {
    match strategy
    case LastGood => FirstWhere(s, Good(intent))
    case Checkpoint(target) => ClosestTo(Keep(s, NotAfter(intent, target)), target)
    case CleanBoot => None
    case GitRecover => FirstWhere(s, Any(intent))
  }

  // ---------------------------------------------------------------- the cascade

  function Strategies(preferred: Option<Strategy>): seq<Strategy>
  {
    match preferred
    case Some(p) => [p]
    case None => [LastGood, Checkpoint(0), GitRecover, CleanBoot]
  }

  function RestoreFrom(c: Candidate, strategy: Strategy): RecoveryResult
  {
    Restored(c.path, c.busSeq, c.fileSize, strategy)
  }

  function Cascade(s: seq<Candidate>, intent: string, tried: seq<Strategy>, rest: seq<Strategy>): RecoveryResult
    decreases |rest|
  {
    if rest == [] then Failed(tried)
    else
      var strategy := rest[0];
      if strategy.CleanBoot? then CleanBooted
      else
        var found := Resolve(s, intent, strategy);
        if found.Some? && Intact(found.value) then RestoreFrom(found.value, strategy)
        else Cascade(s, intent, tried + [strategy], rest[1..])
  }

  function Recover(s: seq<Candidate>, intent: string, preferred: Option<Strategy>): RecoveryResult
  {
    Cascade(s, intent, [], Strategies(preferred))
  }

  // ---------------------------------------------------------------- what the index finds, in terms of its history

  /** The newest snapshot of a history satisfying p; among equally new ones, the one registered first. */
  ghost predicate IsNewest(log: seq<Candidate>, p: Candidate -> bool, k: nat)
  {
    && k < |log| && p(log[k])
    && (forall j | 0 <= j < |log| && p(log[j]) ::
          log[j].capturedAt < log[k].capturedAt || (log[j].capturedAt == log[k].capturedAt && k <= j))
  }

  ghost predicate FindsNewest(log: seq<Candidate>, p: Candidate -> bool, found: Option<Candidate>)
  {
    match found
    case None => forall j | 0 <= j < |log| :: !p(log[j])
    case Some(c) => exists k: nat :: IsNewest(log, p, k) && log[k] == c
  }

  ghost predicate Sorted(s: seq<Candidate>)
  {
    forall i, j | 0 <= i < j < |s| :: s[i].capturedAt >= s[j].capturedAt
  }

  lemma {:induction false} InsertAdds(s: seq<Candidate>, c: Candidate)
    ensures multiset(Insert(s, c)) == multiset(s) + multiset{c}
  {
    if s != [] && s[|s| - 1].capturedAt < c.capturedAt {
      var n := |s| - 1;
      InsertAdds(s[..n], c);
      assert s == s[..n] + [s[n]];
      assert multiset(s) == multiset(s[..n]) + multiset{s[n]};
    }
  }

  lemma {:induction false} InsertFacts(s: seq<Candidate>, c: Candidate)
    requires Sorted(s)
    ensures multiset(Insert(s, c)) == multiset(s) + multiset{c} && Sorted(Insert(s, c))
  {
    hide Sorted;
    InsertAdds(s, c);
    if s == [] || s[|s| - 1].capturedAt >= c.capturedAt {
      OlderLastSorted(s, c);
    } else {
      var n := |s| - 1;
      PrefixSorted(s, n);
      InsertFacts(s[..n], c);
      assert s == s[..n] + [s[n]];
      SnocSorted(s[..n], c, Insert(s[..n], c), s[n]);
    }
  }

  lemma PrefixSorted(s: seq<Candidate>, n: nat)
    requires Sorted(s) && n <= |s|
    ensures Sorted(s[..n])
  {
  }

  lemma OlderLastSorted(s: seq<Candidate>, c: Candidate)
    requires Sorted(s) && (s == [] || s[|s| - 1].capturedAt >= c.capturedAt)
    ensures Sorted(s + [c])
  {
  }

  lemma SnocSorted(s: seq<Candidate>, c: Candidate, r: seq<Candidate>, last: Candidate)
    requires Sorted(s + [last]) && Sorted(r) && multiset(r) == multiset(s) + multiset{c} && last.capturedAt < c.capturedAt
    ensures Sorted(r + [last])
  {
    forall i | 0 <= i < |r| ensures r[i].capturedAt >= last.capturedAt {
      assert r[i] in multiset(r);
      if r[i] != c {
        assert r[i] in multiset(s);
        var j :| 0 <= j < |s| && s[j] == r[i];
        assert (s + [last])[j] == s[j] && (s + [last])[|s|] == last;
      }
    }
  }

  lemma {:induction false} SortFacts(s: seq<Candidate>)
    ensures multiset(SortNewestFirst(s)) == multiset(s) && Sorted(SortNewestFirst(s))
  {
    assert Sorted([]);
    hide Sorted, Insert;
    if s != [] {
      SortFacts(s[..|s| - 1]);
      InsertFacts(SortNewestFirst(s[..|s| - 1]), s[|s| - 1]);
      assert s == s[..|s| - 1] + [s[|s| - 1]];
    }
  }

  lemma {:induction false} SortedIsFixed(s: seq<Candidate>)
    requires Sorted(s)
    ensures SortNewestFirst(s) == s
  {
    hide Sorted, Insert;
    if s != [] {
      var n := |s| - 1;
      PrefixSorted(s, n);
      SortedIsFixed(s[..n]);
      SortedLastIsInPlace(s);
    }
  }

  lemma SortedLastIsInPlace(s: seq<Candidate>)
    requires Sorted(s) && s != []
    ensures Insert(s[..|s| - 1], s[|s| - 1]) == s
  {
    assert s == s[..|s| - 1] + [s[|s| - 1]];
  }

  lemma {:induction false} FirstWhereSplit(s: seq<Candidate>, t: seq<Candidate>, p: Candidate -> bool)
    ensures FirstWhere(s + t, p) == if FirstWhere(s, p).Some? then FirstWhere(s, p) else FirstWhere(t, p)
  {
    if s == [] {
      assert s + t == t;
    } else {
      FirstWhereSplit(s[1..], t, p);
      assert (s + t)[1..] == s[1..] + t;
    }
  }

  lemma {:induction false} FirstWhereFacts(s: seq<Candidate>, p: Candidate -> bool)
    ensures FirstWhere(s, p).None? <==> forall c | c in s :: !p(c)
    ensures FirstWhere(s, p).Some? ==> FirstWhere(s, p).value in s && p(FirstWhere(s, p).value)
  {
    if s != [] {
      FirstWhereFacts(s[1..], p);
      assert s == [s[0]] + s[1..];
    }
  }

  /** What a new snapshot changes: it is found if it qualifies and is strictly newer than what was found before. */
  lemma {:induction false} FirstAfterInsert(s: seq<Candidate>, c: Candidate, p: Candidate -> bool)
    requires Sorted(s)
    ensures var was := FirstWhere(s, p);
            FirstWhere(Insert(s, c), p) ==
            if p(c) && (was.None? || was.value.capturedAt < c.capturedAt) then Some(c) else was
  {
    if s == [] || s[|s| - 1].capturedAt >= c.capturedAt {
      FirstWhereSplit(s, [c], p);
      FirstWhereFacts(s, p);
    } else {
      var n := |s| - 1;
      FirstAfterInsert(s[..n], c, p);
      FirstWhereSplit(s[..n], [s[n]], p);
      FirstWhereSplit(Insert(s[..n], c), [s[n]], p);
      assert s == s[..n] + [s[n]];
    }
  }

  lemma NewestAfter(log: seq<Candidate>, c: Candidate, p: Candidate -> bool, was: Option<Candidate>)
    requires FindsNewest(log, p, was)
    ensures FindsNewest(log + [c], p, if p(c) && (was.None? || was.value.capturedAt < c.capturedAt) then Some(c) else was)
  {
    var all := log + [c];
    if p(c) && (was.None? || was.value.capturedAt < c.capturedAt) {
      assert IsNewest(all, p, |log|);
    } else if was.Some? {
      var k: nat :| IsNewest(log, p, k) && log[k] == was.value;
      assert IsNewest(all, p, k);
    }
  }

  /** In the sorted index of any history, the first match is the newest match of that history. */
  lemma {:induction false} FirstIsNewest(log: seq<Candidate>, p: Candidate -> bool)
    ensures FindsNewest(log, p, FirstWhere(SortNewestFirst(log), p))
  {
    if log != [] {
      hide FindsNewest, Sorted, Insert, FirstWhere;
      var n := |log| - 1;
      var before, c := log[..n], log[n];
      FirstIsNewest(before, p);
      SortFacts(before);
      FirstAfterInsert(SortNewestFirst(before), c, p);
      NewestAfter(before, c, p, FirstWhere(SortNewestFirst(before), p));
      assert log == before + [c];
    }
  }

  function AtSeq(p: Candidate -> bool, n: nat): Candidate -> bool
  {
    c => p(c) && c.busSeq == n
  }

  lemma {:induction false} ClosestFacts(s: seq<Candidate>, target: nat)
    ensures ClosestTo(s, target).None? <==> s == []
    ensures forall c | c in s && ClosestTo(s, target).Some? :: c.busSeq <= ClosestTo(s, target).value.busSeq
    ensures ClosestTo(s, target).Some? ==> ClosestTo(s, target).value in s
  {
    if s != [] {
      ClosestFacts(s[..|s| - 1], target);
      assert s == s[..|s| - 1] + [s[|s| - 1]];
    }
  }

  /** The scan for the least distance keeps the first of the closest. */
  lemma {:induction false} ClosestIsFirst(s: seq<Candidate>, target: nat, q: Candidate -> bool)
    requires ClosestTo(s, target).Some?
    requires forall c :: q(c) <==> c.busSeq == ClosestTo(s, target).value.busSeq
    ensures ClosestTo(s, target) == FirstWhere(s, q)
  {
    var n := |s| - 1;
    var before, last := s[..n], s[n];
    assert s == before + [last];
    FirstWhereSplit(before, [last], q);
    assert FirstWhere([last], q) == if q(last) then Some(last) else None;
    ClosestFacts(before, target);
    FirstWhereFacts(before, q);
    if before != [] && ClosestTo(s, target) == ClosestTo(before, target) {
      ClosestIsFirst(before, target, q);
    }
  }

  lemma {:induction false} FirstKept(s: seq<Candidate>, p: Candidate -> bool, q: Candidate -> bool, both: Candidate -> bool)
    requires forall c :: both(c) <==> p(c) && q(c)
    ensures FirstWhere(Keep(s, p), q) == FirstWhere(s, both)
  {
    if s != [] {
      FirstKept(s[1..], p, q, both);
      if p(s[0]) {
        assert ([s[0]] + Keep(s[1..], p))[1..] == Keep(s[1..], p);
      } else {
        assert Keep(s, p) == Keep(s[1..], p);
      }
    }
  }

  /** The closest of a history satisfying p: of greatest sequence number, then the newest, then the one registered first. */
  ghost predicate IsClosest(log: seq<Candidate>, p: Candidate -> bool, k: nat)
  {
    && k < |log| && p(log[k])
    && (forall j | 0 <= j < |log| && p(log[j]) ::
          || log[j].busSeq < log[k].busSeq
          || (log[j].busSeq == log[k].busSeq && log[j].capturedAt < log[k].capturedAt)
          || (log[j].busSeq == log[k].busSeq && log[j].capturedAt == log[k].capturedAt && k <= j))
  }

  ghost predicate FindsClosest(log: seq<Candidate>, p: Candidate -> bool, found: Option<Candidate>)
  {
    match found
    case None => forall j | 0 <= j < |log| :: !p(log[j])
    case Some(c) => exists k: nat :: IsClosest(log, p, k) && log[k] == c
  }

  /** In the sorted index of any history, a checkpoint request finds the closest signed match of that history. */
  lemma CheckpointIsClosest(log: seq<Candidate>, intent: string, target: nat)
    ensures FindsClosest(log, NotAfter(intent, target), Resolve(SortNewestFirst(log), intent, Checkpoint(target)))
  {
    hide SortNewestFirst, NotAfter, Insert;
    var s, p := SortNewestFirst(log), NotAfter(intent, target);
    SortFacts(log);
    forall c ensures c in s <==> c in log {
      assert c in multiset(s) <==> c in multiset(log);
    }
    var kept := Keep(s, p);
    ClosestFacts(kept, target);
    var found := ClosestTo(kept, target);
    if found.Some? {
      var n := found.value.busSeq;
      var q := (c: Candidate) => c.busSeq == n;
      ClosestIsFirst(kept, target, q);
      FirstKept(s, p, q, AtSeq(p, n));
      FirstIsNewest(log, AtSeq(p, n));
      NewestAtSeqIsClosest(log, p, found.value);
    } else {
      assert forall j | 0 <= j < |log| :: log[j] in log && log[j] !in kept;
    }
  }

  lemma NewestAtSeqIsClosest(log: seq<Candidate>, p: Candidate -> bool, found: Candidate)
    requires FindsNewest(log, AtSeq(p, found.busSeq), Some(found))
    requires forall c | c in log && p(c) :: c.busSeq <= found.busSeq
    ensures FindsClosest(log, p, Some(found))
  {
    var q := AtSeq(p, found.busSeq);
    var k: nat :| IsNewest(log, q, k) && log[k] == found;
    forall j | 0 <= j < |log| && p(log[j])
      ensures || log[j].busSeq < log[k].busSeq
              || (log[j].busSeq == log[k].busSeq && log[j].capturedAt < log[k].capturedAt)
              || (log[j].busSeq == log[k].busSeq && log[j].capturedAt == log[k].capturedAt && k <= j)
    {
      assert log[j] in log;
      if log[j].busSeq == found.busSeq { assert q(log[j]); }
    }
    assert IsClosest(log, p, k);
  }

  // ---------------------------------------------------------------- what recovery does

  /**
   With no preferred strategy recovery never fails: it restores the newest intact match of the whole history, found
   by the first step, or boots clean if there is none. The checkpoint and git steps never decide.
   */
  lemma DefaultRecovery(log: seq<Candidate>, intent: string)
    ensures var s := SortNewestFirst(log);
            var found := FirstWhere(s, Good(intent));
            && FindsNewest(log, Good(intent), found)
            && Recover(s, intent, None) == if found.Some? then RestoreFrom(found.value, LastGood) else CleanBooted
  {
    var s := SortNewestFirst(log);
    FirstIsNewest(log, Good(intent));
    FirstWhereFacts(s, Good(intent));
    CascadeSteps(s, intent);
    if FirstWhere(s, Good(intent)).None? {
      hide FirstWhere, ClosestTo, Recover, FindsNewest;
      ClosestFacts(Keep(s, NotAfter(intent, 0)), 0);
      FirstWhereFacts(s, Any(intent));
    }
  }

  lemma CascadeSteps(s: seq<Candidate>, intent: string)
    ensures var first, second, third := Resolve(s, intent, LastGood), Resolve(s, intent, Checkpoint(0)), Resolve(s, intent, GitRecover);
            Recover(s, intent, None) ==
            if first.Some? && Intact(first.value) then RestoreFrom(first.value, LastGood)
            else if second.Some? && Intact(second.value) then RestoreFrom(second.value, Checkpoint(0))
            else if third.Some? && Intact(third.value) then RestoreFrom(third.value, GitRecover)
            else CleanBooted
  {
    hide Resolve;
    var all := Strategies(None);
    assert all[1..] == [Checkpoint(0), GitRecover, CleanBoot];
    assert all[1..][1..] == [GitRecover, CleanBoot];
    assert all[1..][1..][1..] == [CleanBoot];
  }

  /** Position k of a history is what a strategy looks for there. */
  ghost predicate Wanted(log: seq<Candidate>, intent: string, strategy: Strategy, k: nat)
  {
    match strategy
    case LastGood => IsNewest(log, Good(intent), k)
    case Checkpoint(target) => IsClosest(log, NotAfter(intent, target), k)
    case CleanBoot => false
    case GitRecover => IsNewest(log, Any(intent), k)
  }

  /**
   A preferred strategy is the only one tried. It restores exactly when the snapshot it looks for in the history
   exists and is intact: the newest good match, the closest signed match at or before the checkpoint, or for git the
   newest match of all. Otherwise it fails; only a clean boot needs no snapshot.
   */
  lemma PreferredRecovery(log: seq<Candidate>, intent: string, strategy: Strategy)
    ensures var r := Recover(SortNewestFirst(log), intent, Some(strategy));
            && (r == CleanBooted <==> strategy.CleanBoot?)
            && (r.Restored? <==> exists k: nat :: Wanted(log, intent, strategy, k) && Intact(log[k]))
            && (r.Failed? <==> !strategy.CleanBoot? && !exists k: nat :: Wanted(log, intent, strategy, k) && Intact(log[k]))
            && (r.Failed? ==> r == Failed([strategy]))
    ensures forall k: nat | Wanted(log, intent, strategy, k) && Intact(log[k]) ::
              Recover(SortNewestFirst(log), intent, Some(strategy)) == RestoreFrom(log[k], strategy)
  {
    hide Resolve, Recover, IsNewest, IsClosest, Intact;
    SingleStep(SortNewestFirst(log), intent, strategy);
    ResolvesWanted(log, intent, strategy);
    forall k: nat, j: nat | Wanted(log, intent, strategy, k) && Wanted(log, intent, strategy, j) ensures k == j {
      WantedIsUnique(log, intent, strategy, k, j);
    }
  }

  lemma WantedIsUnique(log: seq<Candidate>, intent: string, strategy: Strategy, k: nat, j: nat)
    requires Wanted(log, intent, strategy, k) && Wanted(log, intent, strategy, j)
    ensures k == j
  {
    hide Good, Any, NotAfter;
  }

  lemma ResolvesWanted(log: seq<Candidate>, intent: string, strategy: Strategy)
    ensures match Resolve(SortNewestFirst(log), intent, strategy)
            case None => forall k: nat :: !Wanted(log, intent, strategy, k)
            case Some(c) => exists k: nat :: Wanted(log, intent, strategy, k) && log[k] == c
  {
    hide SortNewestFirst, FirstWhere, ClosestTo, Keep;
    match strategy
    case LastGood => FirstIsNewest(log, Good(intent));
    case GitRecover => FirstIsNewest(log, Any(intent));
    case Checkpoint(t) => CheckpointIsClosest(log, intent, t);
    case CleanBoot =>
  }

  lemma SingleStep(s: seq<Candidate>, intent: string, strategy: Strategy)
    ensures var found := Resolve(s, intent, strategy);
            Recover(s, intent, Some(strategy)) ==
            if strategy.CleanBoot? then CleanBooted
            else if found.Some? && Intact(found.value) then RestoreFrom(found.value, strategy)
            else Failed([strategy])
    ensures strategy.CleanBoot? ==> Resolve(s, intent, strategy).None?
  {
    hide FirstWhere, ClosestTo, Keep;
    var only := Strategies(Some(strategy));
    assert only[1..] == [] && [] + [strategy] == [strategy];
    assert Cascade(s, intent, [strategy], only[1..]) == Failed([strategy]);
  }

  /** A signed but damaged snapshot hides an older intact one from a checkpoint request. */
  lemma DamagedCheckpointHidesAGoodOne(good: Candidate, bad: Candidate)
    requires good == Candidate("a", "x", 3, 10, true, true, 100) && bad == Candidate("b", "x", 5, 10, true, false, 200)
    ensures Recover(SortNewestFirst([good, bad]), "x", Some(Checkpoint(9))) == Failed([Checkpoint(9)])
    ensures Intact(good) && Matches(good, "x") && good.busSeq <= 9
  {
    hide Recover, SortNewestFirst;
    var log := [good, bad];
    PreferredRecovery(log, "x", Checkpoint(9));
    assert NotAfter("x", 9)(bad) && NotAfter("x", 9)(good);
    assert IsClosest(log, NotAfter("x", 9), 1);
    forall k: nat | Wanted(log, "x", Checkpoint(9), k) ensures k == 1 {
      WantedIsUnique(log, "x", Checkpoint(9), k, 1);
    }
  }

  /** Among equal snapshots but for their hash, the order of registration decides whether a checkpoint restores. */
  lemma RegistrationOrderDecides(good: Candidate, bad: Candidate)
    requires good == Candidate("a", "x", 3, 1, true, true, 7) && bad == Candidate("b", "x", 3, 1, true, false, 7)
    ensures Recover(SortNewestFirst([good, bad]), "x", Some(Checkpoint(9))).Restored?
    ensures Recover(SortNewestFirst([bad, good]), "x", Some(Checkpoint(9))).Failed?
  {
    hide Recover, SortNewestFirst;
    assert NotAfter("x", 9)(bad) && NotAfter("x", 9)(good);
    PreferredRecovery([good, bad], "x", Checkpoint(9));
    assert IsClosest([good, bad], NotAfter("x", 9), 0);
    assert Wanted([good, bad], "x", Checkpoint(9), 0);
    PreferredRecovery([bad, good], "x", Checkpoint(9));
    assert IsClosest([bad, good], NotAfter("x", 9), 0);
    forall k: nat | Wanted([bad, good], "x", Checkpoint(9), k) ensures k == 0 {
      WantedIsUnique([bad, good], "x", Checkpoint(9), k, 0);
    }
  }

  // ---------------------------------------------------------------- what recovery trusts

  /** Snapshot c can serve an intent: its signature and its hash were found valid and its intent is a prefix. */
  predicate Serves(c: Candidate, intent: string)
  {
    && c.signatureValid && c.hashValid
    && |c.intent| <= |intent| && intent[..|c.intent|] == c.intent
  }

  lemma GoodIffServes(c: Candidate, intent: string)
    ensures Good(intent)(c) <==> Serves(c, intent)
    ensures Matches(c, intent) <==> |c.intent| <= |intent| && intent[..|c.intent|] == c.intent
  {
  }

  /**
   Whatever the strategy, what is restored was registered, with a valid signature, a valid hash and an intent that the
   requested one starts with; and its path, sequence number and size are reported.
   */
  lemma RestoredIsGenuine(log: seq<Candidate>, intent: string, preferred: Option<Strategy>)
    ensures var r := Recover(SortNewestFirst(log), intent, preferred);
            r.Restored? ==> exists k | 0 <= k < |log| ::
              && log[k].path == r.path && log[k].busSeq == r.seqNo && log[k].fileSize == r.bytes
              && log[k].signatureValid && log[k].hashValid
              && |log[k].intent| <= |intent| && intent[..|log[k].intent|] == log[k].intent
  {
    hide Recover, SortNewestFirst, Good, Any, NotAfter;
    match preferred
    case None =>
      DefaultRecovery(log, intent);
      var found := FirstWhere(SortNewestFirst(log), Good(intent));
      if found.Some? {
        var k: nat :| IsNewest(log, Good(intent), k) && log[k] == found.value;
        GoodIffServes(log[k], intent);
      }
    case Some(strategy) =>
      PreferredRecovery(log, intent, strategy);
      if k: nat :| Wanted(log, intent, strategy, k) && Intact(log[k]) {
        WantedMatches(log, intent, strategy, k);
        GoodIffServes(log[k], intent);
      }
  }

  lemma WantedMatches(log: seq<Candidate>, intent: string, strategy: Strategy, k: nat)
    requires Wanted(log, intent, strategy, k)
    ensures k < |log| && Matches(log[k], intent)
  {
    match strategy
    case LastGood => assert Good(intent)(log[k]);
    case GitRecover => assert Any(intent)(log[k]);
    case Checkpoint(t) => assert NotAfter(intent, t)(log[k]);
    case CleanBoot =>
  }

  /** With no preferred strategy something is restored exactly when some registered snapshot serves the intent, and then
      the newest that does, the first registered among equals. */
  lemma DefaultRestoresIff(log: seq<Candidate>, intent: string)
    ensures var r := Recover(SortNewestFirst(log), intent, None);
            && (r.Restored? <==> exists k | 0 <= k < |log| :: Serves(log[k], intent))
            && (r.CleanBooted? <==> forall k | 0 <= k < |log| :: !Serves(log[k], intent))
            && (r.Restored? ==> exists k | 0 <= k < |log| ::
                  && Serves(log[k], intent)
                  && r == Restored(log[k].path, log[k].busSeq, log[k].fileSize, LastGood)
                  && forall j | 0 <= j < |log| && Serves(log[j], intent) ::
                       log[j].capturedAt < log[k].capturedAt || (log[j].capturedAt == log[k].capturedAt && k <= j))
  {
    hide Recover, SortNewestFirst, Good, FirstWhere, Serves;
    DefaultRecovery(log, intent);
    forall k | 0 <= k < |log| ensures Good(intent)(log[k]) <==> Serves(log[k], intent) { GoodIffServes(log[k], intent); }
    var found := FirstWhere(SortNewestFirst(log), Good(intent));
    if found.Some? {
      var k: nat :| IsNewest(log, Good(intent), k) && log[k] == found.value;
      assert Serves(log[k], intent);
    }
  }

  /** Snapshot c is signed, belongs to the intent, and does not lie after the target. */
  predicate Eligible(c: Candidate, intent: string, target: nat)
  {
    && c.signatureValid && c.busSeq <= target
    && |c.intent| <= |intent| && intent[..|c.intent|] == c.intent
  }

  /** A checkpoint request restores exactly when the eligible snapshot of greatest sequence number, then newest, then
      registered first, has a valid hash; and restores that one. */
  lemma CheckpointRestoresIff(log: seq<Candidate>, intent: string, target: nat)
    ensures var r := Recover(SortNewestFirst(log), intent, Some(Checkpoint(target)));
            (r.Restored? <==> exists k: nat :: Foremost(log, intent, target, k) && log[k].hashValid)
            && (r.Failed? <==> !exists k: nat :: Foremost(log, intent, target, k) && log[k].hashValid)
    ensures forall k: nat | Foremost(log, intent, target, k) && log[k].hashValid ::
              Recover(SortNewestFirst(log), intent, Some(Checkpoint(target)))
              == Restored(log[k].path, log[k].busSeq, log[k].fileSize, Checkpoint(target))
  {
    hide Recover, SortNewestFirst, NotAfter, Eligible;
    PreferredRecovery(log, intent, Checkpoint(target));
    forall c: Candidate ensures NotAfter(intent, target)(c) <==> Eligible(c, intent, target) {
      EligibleIff(c, intent, target);
    }
    forall k: nat ensures Wanted(log, intent, Checkpoint(target), k) <==> Foremost(log, intent, target, k) {
    }
    forall k: nat | Foremost(log, intent, target, k) ensures log[k].hashValid <==> Intact(log[k]) {
      EligibleIff(log[k], intent, target);
    }
  }

  /** Position k is the eligible snapshot a checkpoint is restored from. */
  ghost predicate Foremost(log: seq<Candidate>, intent: string, target: nat, k: nat)
  {
    && k < |log| && Eligible(log[k], intent, target)
    && (forall j | 0 <= j < |log| && Eligible(log[j], intent, target) ::
          || log[j].busSeq < log[k].busSeq
          || (log[j].busSeq == log[k].busSeq && log[j].capturedAt < log[k].capturedAt)
          || (log[j].busSeq == log[k].busSeq && log[j].capturedAt == log[k].capturedAt && k <= j))
  }

  lemma EligibleIff(c: Candidate, intent: string, target: nat)
    ensures NotAfter(intent, target)(c) <==> Eligible(c, intent, target)
    ensures Eligible(c, intent, target) ==> (c.hashValid <==> Intact(c))
  {
  }

  /** A snapshot with an invalid signature or hash changes nothing about the default recovery, however new it is. */
  lemma DamagedIsPassedOver(log: seq<Candidate>, c: Candidate, intent: string)
    requires !c.signatureValid || !c.hashValid
    ensures Recover(SortNewestFirst(log + [c]), intent, None) == Recover(SortNewestFirst(log), intent, None)
  {
    hide Recover, FindsNewest;
    DefaultRecovery(log, intent);
    DefaultRecovery(log + [c], intent);
    SortFacts(log);
    FirstAfterInsert(SortNewestFirst(log), c, Good(intent));
    assert (log + [c])[..|log|] == log;
    assert SortNewestFirst(log + [c]) == Insert(SortNewestFirst(log), c);
    GoodIffServes(c, intent);
  }

  /** But the newest match, so damaged, makes a named git recovery fail. */
  lemma DamagedNewestFailsGit(log: seq<Candidate>, c: Candidate, intent: string)
    requires !c.signatureValid || !c.hashValid
    requires |c.intent| <= |intent| && intent[..|c.intent|] == c.intent
    requires forall k | 0 <= k < |log| :: log[k].capturedAt < c.capturedAt
    ensures Recover(SortNewestFirst(log + [c]), intent, Some(GitRecover)) == Failed([GitRecover])
  {
    hide Recover, SortNewestFirst, Any;
    var all := log + [c];
    PreferredRecovery(all, intent, GitRecover);
    GoodIffServes(c, intent);
    AnyIsMatches(c, intent);
    assert IsNewest(all, Any(intent), |log|);
    forall k: nat | Wanted(all, intent, GitRecover, k) ensures k == |log| {
      WantedIsUnique(all, intent, GitRecover, k, |log|);
    }
  }

  lemma {:induction false} KeepAppend(s: seq<Candidate>, t: seq<Candidate>, p: Candidate -> bool)
    ensures Keep(s + t, p) == Keep(s, p) + Keep(t, p)
  {
    if s == [] {
      assert s + t == t;
    } else {
      assert (s + t)[0] == s[0] && (s + t)[1..] == s[1..] + t;
      KeepAppend(s[1..], t, p);
    }
  }

  lemma {:induction false} KeepIgnores(s: seq<Candidate>, c: Candidate, p: Candidate -> bool)
    requires !p(c)
    ensures Keep(Insert(s, c), p) == Keep(s, p)
  {
    if s == [] || s[|s| - 1].capturedAt >= c.capturedAt {
      KeepAppend(s, [c], p);
      assert Keep([c], p) == [];
    } else {
      var n := |s| - 1;
      assert s == s[..n] + [s[n]];
      KeepIgnores(s[..n], c, p);
      KeepAppend(Insert(s[..n], c), [s[n]], p);
      KeepAppend(s[..n], [s[n]], p);
    }
  }

  /** A checkpoint request, and a named request for the last good snapshot, take no notice of a snapshot that is not
      signed, that belongs to another intent, or, for a checkpoint, that lies after the target. */
  lemma UnsignedIsPassedOver(log: seq<Candidate>, c: Candidate, intent: string, target: nat)
    requires !c.signatureValid || c.busSeq > target || !(|c.intent| <= |intent| && intent[..|c.intent|] == c.intent)
    ensures Recover(SortNewestFirst(log + [c]), intent, Some(Checkpoint(target)))
            == Recover(SortNewestFirst(log), intent, Some(Checkpoint(target)))
    ensures c.busSeq <= target ==>
              Recover(SortNewestFirst(log + [c]), intent, Some(LastGood)) == Recover(SortNewestFirst(log), intent, Some(LastGood))
  {
    hide Recover;
    var s := SortNewestFirst(log);
    SortFacts(log);
    assert (log + [c])[..|log|] == log;
    assert SortNewestFirst(log + [c]) == Insert(s, c);
    hide SortNewestFirst, Insert;
    GoodIffServes(c, intent);
    KeepIgnores(s, c, NotAfter(intent, target));
    FirstAfterInsert(s, c, Good(intent));
    SingleStep(s, intent, Checkpoint(target));
    SingleStep(Insert(s, c), intent, Checkpoint(target));
    SingleStep(s, intent, LastGood);
    SingleStep(Insert(s, c), intent, LastGood);
  }

  lemma AnyIsMatches(c: Candidate, intent: string)
    ensures Any(intent)(c) <==> Matches(c, intent)
  {
  }

  // ---------------------------------------------------------------- whole runs

  datatype Engine = Engine(index: seq<Candidate>, attempted: nat, succeeded: nat, failed: nat)

  datatype Op = RegisterOp(c: Candidate) | RecoverOp(intent: string, preferred: Option<Strategy>)

  function AfterRecover(e: Engine, r: RecoveryResult): Engine
  {
    e.(attempted := e.attempted + 1,
       succeeded := e.succeeded + (if r.Failed? then 0 else 1),
       failed := e.failed + (if r.Failed? then 1 else 0))
  }

  function Step(e: Engine, op: Op): Engine
  {
    match op
    case RegisterOp(c) => e.(index := Register(e.index, c))
    case RecoverOp(intent, preferred) => AfterRecover(e, Recover(e.index, intent, preferred))
  }

  function Run(ops: seq<Op>): Engine
  {
    if ops == [] then Engine([], 0, 0, 0) else Step(Run(ops[..|ops| - 1]), ops[|ops| - 1])
  }

  /** The snapshots registered during a run, in order. */
  function Log(ops: seq<Op>): seq<Candidate>
  {
    if ops == [] then []
    else Log(ops[..|ops| - 1]) + (if ops[|ops| - 1].RegisterOp? then [ops[|ops| - 1].c] else [])
  }

  function CountRecoveries(ops: seq<Op>, preferredOnly: bool): nat
  {
    if ops == [] then 0
    else
      var last := ops[|ops| - 1];
      CountRecoveries(ops[..|ops| - 1], preferredOnly) +
      (if last.RecoverOp? && (preferredOnly ==> last.preferred.Some?) then 1 else 0)
  }

  lemma RegisterSorts(log: seq<Candidate>, c: Candidate)
    ensures Register(SortNewestFirst(log), c) == SortNewestFirst(log + [c])
  {
    var s := SortNewestFirst(log);
    SortFacts(log);
    SortedIsFixed(s);
    assert (s + [c])[..|s|] == s && (log + [c])[..|log|] == log;
  }

  /**
   Over every run the index is the stable newest-first sort of what was registered, every recovery is counted once as
   a success or a failure, and only recoveries that named a strategy can have failed.
   */
  lemma {:induction false} RunAccounts(ops: seq<Op>)
    ensures Run(ops).index == SortNewestFirst(Log(ops))
    ensures Run(ops).attempted == CountRecoveries(ops, false) == Run(ops).succeeded + Run(ops).failed
    ensures Run(ops).failed <= CountRecoveries(ops, true)
  {
    if ops != [] {
      hide SortNewestFirst, Register, Recover;
      var before, last := ops[..|ops| - 1], ops[|ops| - 1];
      RunAccounts(before);
      match last
      case RegisterOp(c) => RegisterSorts(Log(before), c);
      case RecoverOp(intent, preferred) =>
        assert Log(ops) == Log(before);
        if preferred.None? { NeverFailsUnasked(Log(before), intent); }
    }
  }

  lemma NeverFailsUnasked(log: seq<Candidate>, intent: string)
    ensures !Recover(SortNewestFirst(log), intent, None).Failed?
  {
    hide SortNewestFirst, Recover, FindsNewest, FirstWhere;
    DefaultRecovery(log, intent);
  }

  // ---------------------------------------------------------------- the engine

  class RecoveryEngine {
    var snapshots: seq<Candidate>
    var recoveriesAttempted: nat
    var recoveriesSucceeded: nat
    var recoveriesFailed: nat

    ghost function State(): Engine
      reads this
    {
      Engine(snapshots, recoveriesAttempted, recoveriesSucceeded, recoveriesFailed)
    }

    constructor ()
      ensures State() == Run([])
    {
      snapshots, recoveriesAttempted, recoveriesSucceeded, recoveriesFailed := [], 0, 0, 0;
    }

    method RegisterSnapshot(c: Candidate)
      modifies this
      ensures State() == Step(old(State()), RegisterOp(c))
    {
      snapshots := snapshots + [c];
      snapshots := SortNewestFirst(snapshots);
    }

    method RecoverIntent(intent: string, preferred: Option<Strategy>) returns (r: RecoveryResult)
      modifies this
      ensures r == Recover(old(snapshots), intent, preferred)
      ensures State() == AfterRecover(old(State()), r)
    {
      hide Resolve;
      recoveriesAttempted := recoveriesAttempted + 1;
      var strategies := Strategies(preferred);
      var tried := [];
      for k := 0 to |strategies|
        invariant tried == strategies[..k]
        invariant Recover(snapshots, intent, preferred) == Cascade(snapshots, intent, tried, strategies[k..])
        invariant State() == old(State()).(attempted := old(recoveriesAttempted) + 1)
      {
        var strategy := strategies[k];
        assert strategies[k..][1..] == strategies[k + 1..];
        tried := tried + [strategy];
        if strategy.CleanBoot? {
          recoveriesSucceeded := recoveriesSucceeded + 1;
          return CleanBooted;
        }
        var found := Resolve(snapshots, intent, strategy);
        if found.Some? {
          if !found.value.signatureValid || !found.value.hashValid { continue; }
          recoveriesSucceeded := recoveriesSucceeded + 1;
          return RestoreFrom(found.value, strategy);
        }
      }
      recoveriesFailed := recoveriesFailed + 1;
      r := Failed(tried);
    }
  }
}
