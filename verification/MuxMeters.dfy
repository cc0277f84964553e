/** What the client's cache learns and what its counters come to, whatever the server does. */
module MuxMeters {
  import opened Prelude
  import opened ClusterTransport
  import opened MuxModel
  import opened MuxProofs
  import opened MuxRuns
  import opened MuxTrust

  // ---------------------------------------------------------------- the cache learns

  /** A complete payload is a hit exactly when its announced hash is vouched for; a miss is hashed, and the hash of what
      came is what the cache vouches for from then on. */
  lemma PayloadIsCounted(sha: Sha, stream: seq<Item>, cache: Cache, index: nat, hash: string, d: Bytes)
    requires Announces(stream, hash, d)
    ensures var now := ReadAnswer(sha, stream, cache, index).1;
            if Vouched(cache, index, hash) then
              now == cache.(hits := cache.hits + 1, bytesSaved := cache.bytesSaved + |d|)
            else
              && now.misses == cache.misses + 1 && now.hits == cache.hits && now.bytesSaved == cache.bytesSaved
              && Vouched(now, index, sha(d))
              && (forall i, other | i != index :: Vouched(now, i, other) <==> Vouched(cache, i, other))
  {
    KnownIffMarked(cache, index, hash, index, hash);
    var now := ReadAnswer(sha, stream, cache, index).1;
    if !Vouched(cache, index, hash) {
      assert (index, sha(d)) in now.verified.Items;
      forall i, other | i != index ensures Vouched(now, i, other) <==> Vouched(cache, i, other) {
        KnownIffMarked(cache, index, sha(d), i, other);
        KnownIffMarked(now, index, hash, i, other);
      }
    }
  }

  /** Nothing else touches the counters of the cache. */
  lemma NoPayloadNoCount(sha: Sha, stream: seq<Item>, cache: Cache, index: nat)
    requires forall hash, d :: !Announces(stream, hash, d)
    ensures ReadAnswer(sha, stream, cache, index).1 == cache
  {
    if |stream| >= 2 && stream[0].Header? && stream[1].Payload? {
      assert !Announces(stream, stream[0].contentHash, stream[1].data);
    }
  }

  /** A block once fetched is not hashed again: on a drained link, fetching it twice from an unchanged server makes the
      second time a hit. */
  lemma SecondFetchIsAHit(sha: Sha, l: Link, index: nat, busSeq: nat, busSeq2: nat)
    requires Drained(l) && FetchBlock(sha, l, index, None, busSeq).1.Success?
    ensures var l1 := FetchBlock(sha, l, index, None, busSeq).0;
            var (l2, r) := FetchBlock(sha, l1, index, None, busSeq2);
            && r == FetchBlock(sha, l, index, None, busSeq).1
            && l2.cache.hits == l1.cache.hits + 1 && l2.cache.misses == l1.cache.misses
            && l2.cache.bytesSaved == l1.cache.bytesSaved + |r.value|
  {
    FetchIsVerifiedIff(sha, l, index, None, busSeq);
    var b := l.store.blocks[index];
    var l1 := FetchBlock(sha, l, index, None, busSeq).0;
    if sha(b.data) != b.contentHash { assert (index, b.contentHash) in l.cache.verified.Items; }
    assert l1.stream == [] && index in l1.store.blocks;
    assert l1.store.blocks[index].data == b.data && l1.store.blocks[index].contentHash == b.contentHash;
    assert IsVerified(l1.cache, index, b.contentHash);
  }

  /** A store that is acknowledged makes its hash the one the cache vouches for; any other leaves the cache as it was. */
  lemma StoreIsLearned(sha: Sha, l: Link, index: nat, data: Bytes, hash: string, rawSize: nat, fromAint: string, busSeq: nat)
    ensures var (l1, r) := StoreBlock(sha, l, index, data, hash, rawSize, fromAint, busSeq);
            && (r.Failure? ==> l1.cache == l.cache)
            && (r.Success? ==> forall i, other ::
                  Vouched(l1.cache, i, other) <==> if i == index then other == hash else Vouched(l.cache, i, other))
  {
    var (l1, r) := StoreBlock(sha, l, index, data, hash, rawSize, fromAint, busSeq);
    if r.Success? {
      forall i, other
        ensures Vouched(l1.cache, i, other) <==> if i == index then other == hash else Vouched(l.cache, i, other)
      {
        KnownIffMarked(l.cache, index, hash, i, other);
        KnownIffMarked(l1.cache, index, hash, i, other);
      }
    }
  }

  // ---------------------------------------------------------------- counters

  /** Requests counted as sent by one call, told from its outcome: a fetch or batch counts only if it succeeds. */
  function SentBy(call: Call, outcome: Outcome): nat
  {
    match (call, outcome)
    case (FetchCall(_, _, _), Block(r)) => if r.Success? then 1 else 0
    case (BatchCall(batch), Blocks(r)) => if r.Success? then |batch| else 0
    case (StoreCall(_, _, _, _, _, _), _) => 1
    case (PingCall, _) => 1
    case _ => 0
  }

  /** Channel numbers a call uses up. */
  function Numbers(call: Call): nat
  {
    if call.BatchCall? then |call.batch| else 1
  }

  function SizeOf(got: seq<(nat, Bytes)>): nat
  {
    if got == [] then 0 else SizeOf(got[..|got| - 1]) + |got[|got| - 1].1|
  }

  /** Payload bytes a call moved, if it moved all it meant to. */
  function BytesOf(call: Call, outcome: Outcome): nat
  {
    match (call, outcome)
    case (FetchCall(_, _, _), Block(r)) => if r.Success? then |r.value| else 0
    case (BatchCall(batch), Blocks(r)) => if r.Success? then SizeOf(r.value) else 0
    case (StoreCall(_, data, _, _, _, _), _) => |data|
    case _ => 0
  }

  ghost predicate Metered(l: Link, call: Call, l1: Link, outcome: Outcome)
  {
    && l1.requestsSent == l.requestsSent + SentBy(call, outcome)
    && l1.nextChannel == (l.nextChannel + Numbers(call)) % 0x1_0000_0000
    && l1.bytesTransferred >= l.bytesTransferred + BytesOf(call, outcome)
    && (!(call.BatchCall? && outcome.Blocks? && outcome.blocks.Failure?) ==>
          l1.bytesTransferred == l.bytesTransferred + BytesOf(call, outcome))
  }

  lemma ReadNextMeters(sha: Sha, batch: seq<(nat, nat)>, r: Reading)
    requires r.error.None? && |r.got| < |batch|
    ensures var q := ReadNext(sha, batch, r); q.bytes - SizeOf(q.got) == r.bytes - SizeOf(r.got)
  {
    hide ReadAnswer;
    var q := ReadNext(sha, batch, r);
    if q.error.None? { assert q.got[..|r.got|] == r.got; }
  }

  lemma {:induction false} ReadingMeters(sha: Sha, batch: seq<(nat, nat)>, r: Reading)
    ensures var q := ReadRest(sha, batch, r); q.bytes - SizeOf(q.got) == r.bytes - SizeOf(r.got)
    decreases |batch| - |r.got|, r.error.None?
  {
    hide ReadNext;
    if r.error.None? && |r.got| < |batch| {
      ReadNextMeters(sha, batch, r);
      ReadNextGrows(sha, batch, r);
      ReadingMeters(sha, batch, ReadNext(sha, batch, r));
    }
  }

  /** Every call counts its requests, its channel numbers and its bytes as its outcome says. */
  lemma CallIsMetered(sha: Sha, l: Link, call: Call)
    ensures Metered(l, call, Perform(sha, l, call).0, Perform(sha, l, call).1)
  {
    hide Respond, ReadAnswer, RespondAll, ReadRest;
    match call
    case BatchCall(batch) =>
      var items := RespondAll(sha, l.store, BatchRequests(batch, l.nextChannel, 0)).1;
      ReadingMeters(sha, batch, Reading(l.stream + items, l.cache, l.bytesTransferred, [], None));
    case _ =>
  }

  function SentByAll(calls: seq<Call>, outcomes: seq<Outcome>): nat
    requires |outcomes| == |calls|
    decreases |calls|
  {
    if calls == [] then 0 else SentBy(calls[0], outcomes[0]) + SentByAll(calls[1..], outcomes[1..])
  }

  function NumbersOfAll(calls: seq<Call>): nat
    decreases |calls|
  {
    if calls == [] then 0 else Numbers(calls[0]) + NumbersOfAll(calls[1..])
  }

  lemma AddModulo(a: nat, b: nat, c: nat)
    ensures ((a + b) % 0x1_0000_0000 + c) % 0x1_0000_0000 == (a + (b + c)) % 0x1_0000_0000
  {
  }

  /** Over every run on any link: the requests counted are those of the outcomes, and channel numbers count up in 32 bits. */
  lemma {:induction false} RunIsMetered(sha: Sha, l: Link, calls: seq<Call>)
    requires l.nextChannel < 0x1_0000_0000
    ensures var (l1, outcomes) := PerformAll(sha, l, calls);
            && |outcomes| == |calls|
            && l1.requestsSent == l.requestsSent + SentByAll(calls, outcomes)
            && l1.nextChannel == (l.nextChannel + NumbersOfAll(calls)) % 0x1_0000_0000
    decreases |calls|
  {
    hide Perform, SentBy, Numbers;
    if calls != [] {
      CallIsMetered(sha, l, calls[0]);
      var (l1, outcome) := Perform(sha, l, calls[0]);
      RunIsMetered(sha, l1, calls[1..]);
      AddModulo(l.nextChannel, Numbers(calls[0]), NumbersOfAll(calls[1..]));
      var rest := PerformAll(sha, l1, calls[1..]).1;
      assert ([outcome] + rest)[1..] == rest;
    }
  }
}
