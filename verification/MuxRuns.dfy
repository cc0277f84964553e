/** Whole client runs over the transport, against a plain map of blocks. */
module MuxRuns {
  import opened Prelude
  import opened ClusterTransport
  import opened MuxModel
  import opened MuxProofs

  datatype Call =
    | FetchCall(index: nat, expected: Option<string>, busSeq: nat)
    | StoreCall(index: nat, data: Bytes, hash: string, rawSize: nat, fromAint: string, busSeq: nat)
    | PingCall
    | BatchCall(batch: seq<(nat, nat)>)

  datatype Outcome =
    | Block(block: Result<Bytes>)
    | Status(status: Result<()>)
    | Blocks(blocks: Result<seq<(nat, Bytes)>>)

  function Perform(sha: Sha, l: Link, call: Call): (Link, Outcome)
  {
    match call
    case FetchCall(index, expected, busSeq) =>
      var (l1, r) := FetchBlock(sha, l, index, expected, busSeq);
      (l1, Block(r))
    case StoreCall(index, data, hash, rawSize, fromAint, busSeq) =>
      var (l1, r) := StoreBlock(sha, l, index, data, hash, rawSize, fromAint, busSeq);
      (l1, Status(r))
    case PingCall =>
      var (l1, r) := PingServer(sha, l);
      (l1, Status(r))
    case BatchCall(batch) =>
      var (l1, r) := FetchBatch(sha, l, batch);
      (l1, Blocks(r))
  }

  /** The same calls on a map: no stream, no cache, no server. */
  function Meaning(sha: Sha, m: map<nat, Bytes>, call: Call): (map<nat, Bytes>, Outcome)
  {
    match call
    case FetchCall(index, expected, _) => (m, Block(FetchSpec(sha, m, index, expected)))
    case StoreCall(index, data, hash, _, _, _) =>
      if sha(data) == hash then (m[index := data], Status(Success(())))
      else (m, Status(Failure(RemoteStatus(CONFLICT))))
    case PingCall => (m, Status(Success(())))
    case BatchCall(batch) => (m, Blocks(BatchSpec(m, batch)))
  }

  ghost predicate LeavesDrained(m: map<nat, Bytes>, call: Call)
  {
    call.BatchCall? ==> DrainsCleanly(m, call.batch)
  }

  lemma FetchMeetsSpec(sha: Sha, l: Link, index: nat, expected: Option<string>, busSeq: nat)
    requires Drained(l) && Honest(sha, l.store)
    ensures var (l1, r) := FetchBlock(sha, l, index, expected, busSeq);
            && r == FetchSpec(sha, Contents(l.store), index, expected)
            && Contents(l1.store) == Contents(l.store) && Honest(sha, l1.store) && Drained(l1)
  {
    hide Respond, ReadAnswer, Contents, Honest, Visible;
    var req := FetchReq(l.nextChannel, index, expected, busSeq);
    var items := Respond(sha, l.store, req).1;
    FetchKeepsVisible(sha, l.store, req);
    HonestAnswer(sha, l.store, l.nextChannel, index, expected, busSeq, [], l.cache);
    assert l.stream + items == items + [];
  }

  lemma StoreMeetsSpec(sha: Sha, l: Link, index: nat, data: Bytes, hash: string, rawSize: nat, fromAint: string, busSeq: nat)
    requires Drained(l) && Honest(sha, l.store)
    ensures var (l1, r) := StoreBlock(sha, l, index, data, hash, rawSize, fromAint, busSeq);
            && r == (if sha(data) == hash then Success(()) else Failure(RemoteStatus(CONFLICT)))
            && Contents(l1.store) == (if sha(data) == hash then Contents(l.store)[index := data] else Contents(l.store))
            && Honest(sha, l1.store) && Drained(l1)
  {
    var l1 := StoreBlock(sha, l, index, data, hash, rawSize, fromAint, busSeq).0;
    if sha(data) == hash {
      assert Contents(l1.store).Keys == Contents(l.store).Keys + {index};
    }
  }

  /** One call on a drained link to an honest server means what it means on the map, and leaves the link
      drained except for a batch that misses a member before its last. */
  lemma CallMeetsMeaning(sha: Sha, l: Link, call: Call)
    requires Drained(l) && Honest(sha, l.store)
    ensures var (l1, outcome) := Perform(sha, l, call);
            && (Contents(l1.store), outcome) == Meaning(sha, Contents(l.store), call)
            && Honest(sha, l1.store)
            && (Drained(l1) <==> LeavesDrained(Contents(l.store), call))
  {
    hide Contents, Honest, FetchBlock, FetchBatch, BatchSpec, DrainsCleanly, FetchSpec;
    match call
    case FetchCall(index, expected, busSeq) => FetchMeetsSpec(sha, l, index, expected, busSeq);
    case StoreCall(index, data, hash, rawSize, fromAint, busSeq) =>
      StoreMeetsSpec(sha, l, index, data, hash, rawSize, fromAint, busSeq);
    case PingCall =>
    case BatchCall(batch) => BatchMeetsSpec(sha, l, batch);
  }

  function PerformAll(sha: Sha, l: Link, calls: seq<Call>): (Link, seq<Outcome>)
    decreases |calls|
  {
    if calls == [] then (l, [])
    else
      var (l1, outcome) := Perform(sha, l, calls[0]);
      var (l2, rest) := PerformAll(sha, l1, calls[1..]);
      (l2, [outcome] + rest)
  }

  function MeaningAll(sha: Sha, m: map<nat, Bytes>, calls: seq<Call>): (map<nat, Bytes>, seq<Outcome>)
    decreases |calls|
  {
    if calls == [] then (m, [])
    else
      var (m1, outcome) := Meaning(sha, m, calls[0]);
      var (m2, rest) := MeaningAll(sha, m1, calls[1..]);
      (m2, [outcome] + rest)
  }

  /** A run none of whose batches misses a member before its last. */
  ghost predicate CleanRun(sha: Sha, m: map<nat, Bytes>, calls: seq<Call>)
    decreases |calls|
  {
    calls == [] || (LeavesDrained(m, calls[0]) && CleanRun(sha, Meaning(sha, m, calls[0]).0, calls[1..]))
  }

  /**
   The transport refines a plain map: over every clean run from a drained link to an honest server the
   outcomes are those of the map, whatever the hash cache holds at the start, and the link ends drained.
   */
  lemma {:induction false} RunsRefineAMap(sha: Sha, l: Link, calls: seq<Call>)
    requires Drained(l) && Honest(sha, l.store) && CleanRun(sha, Contents(l.store), calls)
    ensures var (l1, outcomes) := PerformAll(sha, l, calls);
            && (Contents(l1.store), outcomes) == MeaningAll(sha, Contents(l.store), calls)
            && Drained(l1) && Honest(sha, l1.store)
    decreases |calls|
  {
    hide Contents, Honest, Perform, Meaning;
    if calls != [] {
      CallMeetsMeaning(sha, l, calls[0]);
      RunsRefineAMap(sha, Perform(sha, l, calls[0]).0, calls[1..]);
    }
  }

  /** Whether a call stores to block index. */
  predicate StoresTo(call: Call, index: nat)
  {
    call.StoreCall? && call.index == index
  }

  /** Skipping the hash never decides anything: over every clean run the outcomes are the same with any cache at the
      start, in particular with one that skips nothing. */
  lemma CacheNeverDecides(sha: Sha, l: Link, cache: Cache, calls: seq<Call>)
    requires Drained(l) && Honest(sha, l.store) && CleanRun(sha, Contents(l.store), calls)
    ensures PerformAll(sha, l, calls).1 == PerformAll(sha, l.(cache := cache), calls).1
    ensures Contents(PerformAll(sha, l, calls).0.store) == Contents(PerformAll(sha, l.(cache := cache), calls).0.store)
  {
    hide PerformAll, Contents, Honest, CleanRun;
    RunsRefineAMap(sha, l, calls);
    RunsRefineAMap(sha, l.(cache := cache), calls);
  }

  lemma {:induction false} UnstoredStays(sha: Sha, m: map<nat, Bytes>, calls: seq<Call>, index: nat)
    requires index in m && forall k | 0 <= k < |calls| :: !StoresTo(calls[k], index)
    ensures index in MeaningAll(sha, m, calls).0 && MeaningAll(sha, m, calls).0[index] == m[index]
    decreases |calls|
  {
    if calls != [] {
      UnstoredStays(sha, Meaning(sha, m, calls[0]).0, calls[1..], index);
    }
  }

  /** A block stored under its true hash is what every later fetch returns, until it is stored again. */
  lemma StoredIsReadBack(sha: Sha, l: Link, store: Call, calls: seq<Call>, busSeq: nat)
    requires Drained(l) && Honest(sha, l.store)
    requires store.StoreCall? && sha(store.data) == store.hash
    requires forall k | 0 <= k < |calls| :: !StoresTo(calls[k], store.index)
    requires CleanRun(sha, Contents(l.store)[store.index := store.data], calls)
    ensures var (l1, stored) := Perform(sha, l, store);
            var (l2, _) := PerformAll(sha, l1, calls);
            && stored == Status(Success(()))
            && FetchBlock(sha, l2, store.index, Some(store.hash), busSeq).1 == Success(store.data)
  {
    hide Contents, Honest, Perform, FetchBlock;
    CallMeetsMeaning(sha, l, store);
    var l1 := Perform(sha, l, store).0;
    RunsRefineAMap(sha, l1, calls);
    UnstoredStays(sha, Contents(l1.store), calls, store.index);
    FetchMeetsSpec(sha, PerformAll(sha, l1, calls).0, store.index, Some(store.hash), busSeq);
  }

  /** Pipelining changes the timing, not the answer: the batch returns what one fetch per member returns. */
  lemma BatchEqualsSequential(sha: Sha, l: Link, batch: seq<(nat, nat)>)
    requires Drained(l) && Honest(sha, l.store)
    ensures FetchBatch(sha, l, batch).1 == FetchSequentially(sha, l, batch).1
    ensures Contents(FetchBatch(sha, l, batch).0.store) == Contents(FetchSequentially(sha, l, batch).0.store)
    ensures Drained(FetchSequentially(sha, l, batch).0)
  {
    hide FetchBatch, FetchSequentially, Contents, Honest;
    BatchMeetsSpec(sha, l, batch);
    SequentialMeetsSpec(sha, l, batch);
  }

  lemma {:induction false} SequentialMeetsSpec(sha: Sha, l: Link, batch: seq<(nat, nat)>)
    requires Drained(l) && Honest(sha, l.store)
    ensures FetchSequentially(sha, l, batch).1 == BatchSpec(Contents(l.store), batch)
    ensures Contents(FetchSequentially(sha, l, batch).0.store) == Contents(l.store)
    ensures Drained(FetchSequentially(sha, l, batch).0)
    decreases |batch|
  {
    hide FetchBlock, Contents, Honest, BatchSpec;
    SpecByHead(Contents(l.store), batch);
    if batch != [] {
      FetchMeetsSpec(sha, l, batch[0].0, None, batch[0].1);
      var (l1, r) := FetchBlock(sha, l, batch[0].0, None, batch[0].1);
      if r.Success? {
        SequentialMeetsSpec(sha, l1, batch[1..]);
      }
    }
  }

  lemma SpecByHead(m: map<nat, Bytes>, batch: seq<(nat, nat)>)
    ensures batch == [] ==> BatchSpec(m, batch) == Success([])
    ensures batch != [] && batch[0].0 !in m ==> BatchSpec(m, batch) == Failure(RemoteStatus(NOT_FOUND))
    ensures batch != [] && batch[0].0 in m ==>
              var rest := BatchSpec(m, batch[1..]);
              BatchSpec(m, batch) == if rest.Failure? then rest else Success([(batch[0].0, m[batch[0].0])] + rest.value)
  {
    if batch != [] && batch[0].0 in m {
      ShiftMissing(m, batch, 1);
      var x := FirstMissing(m, batch, 0);
      if x == |batch| {
        ShiftAnswers(m, batch, 1);
      }
    }
  }

  lemma {:induction false} ShiftMissing(m: map<nat, Bytes>, batch: seq<(nat, nat)>, k: nat)
    requires 1 <= k <= |batch|
    ensures FirstMissing(m, batch, k) == FirstMissing(m, batch[1..], k - 1) + 1
    decreases |batch| - k
  {
    if k < |batch| {
      assert batch[1..][k - 1] == batch[k];
      ShiftMissing(m, batch, k + 1);
    }
  }

  lemma {:induction false} ShiftAnswers(m: map<nat, Bytes>, batch: seq<(nat, nat)>, k: nat)
    requires 1 <= k <= |batch| && forall j | 0 <= j < |batch| :: batch[j].0 in m
    ensures forall j | 0 <= j < |batch| - 1 :: batch[1..][j] == batch[j + 1]
    ensures AnswersFor(m, batch, k, |batch|) == AnswersFor(m, batch[1..], k - 1, |batch| - 1)
    decreases |batch| - k
  {
    if k < |batch| {
      ShiftAnswers(m, batch, k + 1);
    }
  }

  // ---------------------------------------------------------------- after a failed batch

  /** With one unread answer in the stream, a fetch of any block succeeds with the bytes of the block that
      answer was for, and leaves its own answer unread in turn. */
  lemma StaleAnswerIsTaken(sha: Sha, l: Link, stale: Request, k: nat, expected: Option<string>, busSeq: nat)
    requires Honest(sha, l.store) && stale.FetchReq? && stale.expectedHash.None? && stale.index in l.store.blocks
    requires l.stream == Respond(sha, l.store, stale).1
    ensures var (l1, r) := FetchBlock(sha, l, k, expected, busSeq);
            && r == Success(l.store.blocks[stale.index].data)
            && l1.stream == Respond(sha, l.store, FetchReq(l.nextChannel, k, expected, busSeq)).1
  {
    var items := Respond(sha, l.store, FetchReq(l.nextChannel, k, expected, busSeq)).1;
    assert (l.stream + items)[2..] == items;
  }

  /** A batch that misses its first of two members returns early and leaves the second's answer unread;
      the next fetch, of any block, is answered with that second member's bytes. */
  lemma FailedBatchShiftsAnswers(sha: Sha, l: Link, missing: nat, present: nat, k: nat, expected: Option<string>, busSeq: nat)
    requires Drained(l) && Honest(sha, l.store) && missing !in l.store.blocks && present in l.store.blocks
    ensures var (l1, outcome) := FetchBatch(sha, l, [(missing, 0), (present, 1)]);
            && outcome == Failure(RemoteStatus(NOT_FOUND)) && !Drained(l1)
            && FetchBlock(sha, l1, k, expected, busSeq).1 == Success(l.store.blocks[present].data)
  {
    var batch: seq<(nat, nat)> := [(missing, 0), (present, 1)];
    BatchMeetsSpec(sha, l, batch);
    var l1 := FetchBatch(sha, l, batch).0;
    assert FirstMissing(Contents(l.store), batch, 0) == 0;
    BatchRequestsShape(batch, l.nextChannel, 1);
    var reqs := BatchRequests(batch, l.nextChannel, 1);
    assert reqs[1..] == [];
    var stale := reqs[0];
    assert RespondAll(sha, l.store, reqs).1 == Respond(sha, l.store, stale).1 + [];
    BatchLeavesVisible(sha, l, batch);
    AnswersDependOnVisible(sha, l.store, l1.store, stale);
    assert Visible(l1.store)[present].0 == Visible(l.store)[present].0;
    StaleAnswerIsTaken(sha, l1, stale, k, expected, busSeq);
  }

  lemma BatchLeavesVisible(sha: Sha, l: Link, batch: seq<(nat, nat)>)
    ensures Visible(FetchBatch(sha, l, batch).0.store) == Visible(l.store)
  {
    hide Visible, Respond, ReadRest;
    BatchRequestsShape(batch, l.nextChannel, 0);
    AllAnswersDependOnVisible(sha, l.store, l.store, BatchRequests(batch, l.nextChannel, 0));
  }
}
