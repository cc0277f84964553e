/** What the client may believe when the server is not trusted at all: any store, any stream, any cache. */
module MuxTrust {
  import opened Prelude
  import opened ClusterTransport
  import opened MuxModel
  import opened MuxProofs
  import opened MuxRuns

  // ---------------------------------------------------------------- one answer

  /** The cache vouches for a hash of a block: that very hash was verified for that very block. */
  predicate Vouched(cache: Cache, index: nat, hash: string)
  {
    exists h | h in cache.verified.Items :: h == (index, hash)
  }

  /** Marking a hash makes exactly that hash known for that block, invalidating makes none known, a new cache knows
      nothing, and other blocks are not affected. */
  lemma KnownIffMarked(cache: Cache, index: nat, hash: string, i: nat, other: string)
    ensures IsVerified(cache, i, other) <==> Vouched(cache, i, other)
    ensures IsVerified(cache.(verified := cache.verified[index := hash]), i, other) <==>
              if i == index then other == hash else Vouched(cache, i, other)
    ensures IsVerified(cache.(verified := cache.verified - {index}), i, other) <==> i != index && Vouched(cache, i, other)
    ensures !IsVerified(Cache(map[], 0, 0, 0), i, other)
  {
    if IsVerified(cache, i, other) { assert (i, other) in cache.verified.Items; }
  }

  /** A stream starts with a complete successful answer that announces this hash. */
  predicate Announces(stream: seq<Item>, hash: string, data: Bytes)
  {
    && |stream| >= 2
    && stream[0].Header? && stream[0].status == 200 && stream[0].contentHash == hash && stream[0].payloadSize == |data|
    && stream[1] == Payload(data)
  }

  /** A payload is accepted exactly when it hashes to the announced hash or the cache already vouches for that hash. */
  lemma AnswerIsVerifiedIff(sha: Sha, stream: seq<Item>, cache: Cache, index: nat, d: Bytes)
    ensures ReadAnswer(sha, stream, cache, index).2 == Success(d) <==>
              exists hash :: Announces(stream, hash, d) && (sha(d) == hash || Vouched(cache, index, hash))
  {
    var r := ReadAnswer(sha, stream, cache, index).2;
    if r == Success(d) {
      var hash := stream[0].contentHash;
      assert Announces(stream, hash, d);
      if sha(d) != hash { assert (index, hash) in cache.verified.Items; }
    }
  }

  /** On a drained link, whatever the server stores: a fetch succeeds exactly when the block is there, agrees with the
      expected hash if one was given, and carries the hash of its data or a hash the cache vouches for. */
  lemma FetchIsVerifiedIff(sha: Sha, l: Link, index: nat, expected: Option<string>, busSeq: nat)
    requires Drained(l)
    ensures var r := FetchBlock(sha, l, index, expected, busSeq).1;
            && (r.Success? <==>
                  && index in l.store.blocks
                  && (expected.Some? ==> l.store.blocks[index].contentHash == expected.value)
                  && (var b := l.store.blocks[index];
                      sha(b.data) == b.contentHash || Vouched(l.cache, index, b.contentHash)))
            && (r.Success? ==> r.value == l.store.blocks[index].data)
  {
    if index in l.store.blocks {
      var hash := l.store.blocks[index].contentHash;
      assert IsVerified(l.cache, index, hash) <==> (index, hash) in l.cache.verified.Items;
    }
  }

  /** On any link: what a fetch returns is announced at the front of the stream, and hashes to that or is vouched for. */
  lemma FetchedIsVerified(sha: Sha, l: Link, index: nat, expected: Option<string>, busSeq: nat)
    ensures var r := FetchBlock(sha, l, index, expected, busSeq).1;
            var stream := l.stream + Respond(sha, l.store, FetchReq(l.nextChannel, index, expected, busSeq)).1;
            r.Success? ==> exists hash :: Announces(stream, hash, r.value) && (sha(r.value) == hash || Vouched(l.cache, index, hash))
  {
    var r := FetchBlock(sha, l, index, expected, busSeq).1;
    if r.Success? {
      AnswerIsVerifiedIff(sha, l.stream + Respond(sha, l.store, FetchReq(l.nextChannel, index, expected, busSeq)).1, l.cache, index, r.value);
    }
  }

  // ---------------------------------------------------------------- batches

  /** Member k of a batch is genuine: announced somewhere in the stream, and hashing to what was announced, or vouched
      for by the cache at the start or by an earlier member for the same block. */
  ghost predicate Genuine(sha: Sha, stream: seq<Item>, cache: Cache, got: seq<(nat, Bytes)>, k: nat)
    requires k < |got|
  {
    exists p: nat, hash: string :: p <= |stream| && Announces(stream[p..], hash, got[k].1) && Trusted(sha, cache, got, k, hash)
  }

  ghost predicate Trusted(sha: Sha, cache: Cache, got: seq<(nat, Bytes)>, k: nat, hash: string)
    requires k < |got|
  {
    || sha(got[k].1) == hash
    || Vouched(cache, got[k].0, hash)
    || exists j | 0 <= j < k :: got[j].0 == got[k].0 && sha(got[j].1) == hash
  }

  /** Where the entries of the cache come from while a batch is read. */
  ghost predicate FromReading(sha: Sha, before: Cache, got: seq<(nat, Bytes)>, now: Cache)
  {
    forall i | i in now.verified ::
      Vouched(before, i, now.verified[i]) || exists j | 0 <= j < |got| :: got[j].0 == i && sha(got[j].1) == now.verified[i]
  }

  ghost predicate IsRest(rest: seq<Item>, whole: seq<Item>)
  {
    exists p: nat :: p <= |whole| && rest == whole[p..]
  }

  lemma RestOfRest(whole: seq<Item>, some: seq<Item>, rest: seq<Item>)
    requires IsRest(some, whole) && IsRest(rest, some)
    ensures IsRest(rest, whole)
  {
    var p: nat :| p <= |whole| && some == whole[p..];
    var q: nat :| q <= |some| && rest == some[q..];
    assert rest == whole[p + q..];
  }

  ghost predicate ReadingOk(sha: Sha, whole: seq<Item>, before: Cache, r: Reading)
  {
    && IsRest(r.stream, whole)
    && (r.error.None? ==> FromReading(sha, before, r.got, r.cache))
    && (forall k | 0 <= k < |r.got| :: Genuine(sha, whole, before, r.got, k))
  }

  lemma GenuineStays(sha: Sha, whole: seq<Item>, before: Cache, got: seq<(nat, Bytes)>, more: (nat, Bytes), k: nat)
    requires k < |got| && Genuine(sha, whole, before, got, k)
    ensures Genuine(sha, whole, before, got + [more], k)
  {
    hide Announces;
    var p: nat, hash: string :| p <= |whole| && Announces(whole[p..], hash, got[k].1) && Trusted(sha, before, got, k, hash);
    var all := got + [more];
    assert all[k] == got[k] && forall j | 0 <= j < k :: all[j] == got[j];
    assert Trusted(sha, before, all, k, hash);
    GenuineAt(sha, whole, before, all, k, p, hash);
  }

  lemma GenuineAt(sha: Sha, whole: seq<Item>, before: Cache, got: seq<(nat, Bytes)>, k: nat, p: nat, hash: string)
    requires k < |got| && p <= |whole| && Announces(whole[p..], hash, got[k].1) && Trusted(sha, before, got, k, hash)
    ensures Genuine(sha, whole, before, got, k)
  {
    hide Announces, Trusted;
  }

  lemma NextIsGenuine(sha: Sha, whole: seq<Item>, before: Cache, r: Reading, index: nat, d: Bytes)
    requires ReadingOk(sha, whole, before, r) && r.error.None?
    requires ReadAnswer(sha, r.stream, r.cache, index).2 == Success(d)
    ensures Genuine(sha, whole, before, r.got + [(index, d)], |r.got|)
  {
    hide Announces, ReadAnswer, Genuine, Trusted;
    AnswerIsVerifiedIff(sha, r.stream, r.cache, index, d);
    var hash :| Announces(r.stream, hash, d) && (sha(d) == hash || Vouched(r.cache, index, hash));
    var p: nat :| p <= |whole| && r.stream == whole[p..];
    NextIsTrusted(sha, before, r, index, d, hash);
    GenuineAt(sha, whole, before, r.got + [(index, d)], |r.got|, p, hash);
  }

  lemma NextIsTrusted(sha: Sha, before: Cache, r: Reading, index: nat, d: Bytes, hash: string)
    requires FromReading(sha, before, r.got, r.cache) && (sha(d) == hash || Vouched(r.cache, index, hash))
    ensures Trusted(sha, before, r.got + [(index, d)], |r.got|, hash)
  {
    var got := r.got + [(index, d)];
    if sha(d) != hash && !Vouched(before, index, hash) {
      assert r.cache.verified[index] == hash;
      var j :| 0 <= j < |r.got| && r.got[j].0 == index && sha(r.got[j].1) == hash;
      assert got[j] == r.got[j];
    }
  }

  /** Reading an answer takes it off the front and leaves the rest. */
  lemma AnswerConsumes(sha: Sha, stream: seq<Item>, cache: Cache, index: nat)
    ensures var rest := ReadAnswer(sha, stream, cache, index).0;
            IsRest(rest, stream)
  {
    var rest := ReadAnswer(sha, stream, cache, index).0;
    assert rest == stream[|stream| - |rest|..];
  }

  lemma AnswerCachesOne(sha: Sha, stream: seq<Item>, cache: Cache, index: nat)
    ensures var (_, now, r) := ReadAnswer(sha, stream, cache, index);
            r.Success? ==> now.verified == cache.verified || now.verified == cache.verified[index := sha(r.value)]
  {
  }

  lemma ReadNextOk(sha: Sha, whole: seq<Item>, before: Cache, batch: seq<(nat, nat)>, r: Reading)
    requires r.error.None? && |r.got| < |batch| && ReadingOk(sha, whole, before, r)
    ensures ReadingOk(sha, whole, before, ReadNext(sha, batch, r))
  {
    hide Genuine, ReadAnswer, FromReading, IsRest;
    var index := batch[|r.got|].0;
    var next := ReadNext(sha, batch, r);
    AnswerConsumes(sha, r.stream, r.cache, index);
    RestOfRest(whole, r.stream, next.stream);
    if next.error.None? {
      var d := ReadAnswer(sha, r.stream, r.cache, index).2.value;
      NextIsGenuine(sha, whole, before, r, index, d);
      forall k | 0 <= k < |r.got| ensures Genuine(sha, whole, before, next.got, k) {
        GenuineStays(sha, whole, before, r.got, (index, d), k);
      }
      AnswerCachesOne(sha, r.stream, r.cache, index);
      FromOneMore(sha, before, r, index, d, next.cache);
    }
  }

  lemma FromOneMore(sha: Sha, before: Cache, r: Reading, index: nat, d: Bytes, now: Cache)
    requires FromReading(sha, before, r.got, r.cache)
    requires now.verified == r.cache.verified || now.verified == r.cache.verified[index := sha(d)]
    ensures FromReading(sha, before, r.got + [(index, d)], now)
  {
    var got := r.got + [(index, d)];
    forall i | i in now.verified
      ensures Vouched(before, i, now.verified[i]) || exists j | 0 <= j < |got| :: got[j].0 == i && sha(got[j].1) == now.verified[i]
    {
      if i in r.cache.verified && now.verified[i] == r.cache.verified[i] {
        if !Vouched(before, i, now.verified[i]) {
          var j :| 0 <= j < |r.got| && r.got[j].0 == i && sha(r.got[j].1) == now.verified[i];
          assert got[j] == r.got[j];
        }
      } else {
        assert got[|r.got|] == (index, d);
      }
    }
  }

  lemma {:induction false} ReadRestOk(sha: Sha, whole: seq<Item>, before: Cache, batch: seq<(nat, nat)>, r: Reading)
    requires ReadingOk(sha, whole, before, r)
    ensures ReadingOk(sha, whole, before, ReadRest(sha, batch, r))
    decreases |batch| - |r.got|, r.error.None?
  {
    hide ReadingOk, ReadNext;
    if r.error.None? && |r.got| < |batch| {
      ReadNextOk(sha, whole, before, batch, r);
      ReadNextGrows(sha, batch, r);
      ReadRestOk(sha, whole, before, batch, ReadNext(sha, batch, r));
    }
  }

  lemma ReadNextGrows(sha: Sha, batch: seq<(nat, nat)>, r: Reading)
    requires r.error.None? && |r.got| < |batch|
    ensures var next := ReadNext(sha, batch, r);
            if next.error.None? then |next.got| == |r.got| + 1 else next.got == r.got
  {
  }

  /** On any link: every block a batch returns is genuine. */
  lemma BatchIsVerified(sha: Sha, l: Link, batch: seq<(nat, nat)>)
    ensures var r := FetchBatch(sha, l, batch).1;
            var stream := l.stream + RespondAll(sha, l.store, BatchRequests(batch, l.nextChannel, 0)).1;
            r.Success? ==> forall k | 0 <= k < |r.value| :: Genuine(sha, stream, l.cache, r.value, k)
  {
    hide ReadRest, RespondAll, Genuine;
    var stream := l.stream + RespondAll(sha, l.store, BatchRequests(batch, l.nextChannel, 0)).1;
    var start := Reading(stream, l.cache, l.bytesTransferred, [], None);
    assert stream == stream[0..] && IsRest(stream, stream);
    assert FromReading(sha, l.cache, [], l.cache) by {
      forall i | i in l.cache.verified ensures Vouched(l.cache, i, l.cache.verified[i]) {
        assert (i, l.cache.verified[i]) in l.cache.verified.Items;
      }
    }
    ReadRestOk(sha, stream, l.cache, batch, start);
  }

  // ---------------------------------------------------------------- where cache entries come from

  /** Every payload the client can come to read: unread ones and those the server stores. */
  ghost function Offered(l: Link): set<Bytes>
  {
    Payloads(l.stream) + Stored(l.store)
  }

  ghost function Payloads(stream: seq<Item>): set<Bytes>
  {
    set x | x in stream && x.Payload? :: x.data
  }

  ghost function Stored(v: StoreValue): set<Bytes>
  {
    set i | i in v.blocks :: v.blocks[i].data
  }

  /** A cache entry is new since before only by a payload that was on offer, read for that block. */
  ghost predicate NewlyRead(sha: Sha, before: Cache, now: Cache, offered: set<Bytes>, asked: set<nat>)
  {
    forall i | i in now.verified ::
      || Vouched(before, i, now.verified[i])
      || (i in asked && exists d | d in offered :: sha(d) == now.verified[i])
  }

  lemma AnswerCaches(sha: Sha, stream: seq<Item>, cache: Cache, index: nat)
    ensures var (rest, now, r) := ReadAnswer(sha, stream, cache, index);
            && Payloads(rest) <= Payloads(stream)
            && NewlyRead(sha, cache, now, Payloads(stream), {index})
  {
    var (rest, now, r) := ReadAnswer(sha, stream, cache, index);
    forall i | i in now.verified
      ensures Vouched(cache, i, now.verified[i]) || (i in {index} && exists d | d in Payloads(stream) :: sha(d) == now.verified[i])
    {
      if i in cache.verified && cache.verified[i] == now.verified[i] {
        assert (i, now.verified[i]) in cache.verified.Items;
      } else {
        assert stream[1] in stream && stream[1].data in Payloads(stream);
      }
    }
  }

  lemma RespondOffers(sha: Sha, v: StoreValue, req: Request)
    ensures var (w, items) := Respond(sha, v, req);
            && Payloads(items) <= Stored(v)
            && Stored(w) <= Stored(v) + (if req.StoreReq? then {req.data} else {})
  {
    var (w, items) := Respond(sha, v, req);
    forall x | x in Stored(w) ensures x in Stored(v) + (if req.StoreReq? then {req.data} else {}) {
      var i :| i in w.blocks && w.blocks[i].data == x;
      if i in v.blocks && v.blocks[i].data == x { assert x in Stored(v); }
    }
  }

  lemma {:induction false} RespondAllOffers(sha: Sha, v: StoreValue, reqs: seq<Request>)
    requires AllFetches(reqs)
    ensures var (w, items) := RespondAll(sha, v, reqs);
            Payloads(items) <= Stored(v) && Stored(w) <= Stored(v)
    decreases |reqs|
  {
    hide Respond, Stored;
    if reqs != [] {
      RespondOffers(sha, v, reqs[0]);
      RespondAllOffers(sha, Respond(sha, v, reqs[0]).0, reqs[1..]);
    }
  }

  lemma {:induction false} ReadRestCaches(sha: Sha, before: Cache, offered: set<Bytes>, batch: seq<(nat, nat)>, r: Reading)
    requires NewlyRead(sha, before, r.cache, offered, MembersOf(batch)) && Payloads(r.stream) <= offered
    ensures var q := ReadRest(sha, batch, r);
            NewlyRead(sha, before, q.cache, offered, MembersOf(batch)) && Payloads(q.stream) <= offered
    decreases |batch| - |r.got|, r.error.None?
  {
    hide ReadAnswer, Payloads, NewlyRead;
    if r.error.None? && |r.got| < |batch| {
      var index := batch[|r.got|].0;
      AnswerCaches(sha, r.stream, r.cache, index);
      NewlyReadThen(sha, before, r.cache, ReadNext(sha, batch, r).cache, offered, Payloads(r.stream), MembersOf(batch), index);
      ReadRestCaches(sha, before, offered, batch, ReadNext(sha, batch, r));
    }
  }

  ghost function MembersOf(batch: seq<(nat, nat)>): set<nat>
  {
    set k | 0 <= k < |batch| :: batch[k].0
  }

  lemma NewlyReadThen(sha: Sha, a: Cache, b: Cache, c: Cache, offered: set<Bytes>, some: set<Bytes>, asked: set<nat>, index: nat)
    requires NewlyRead(sha, a, b, offered, asked) && NewlyRead(sha, b, c, some, {index})
    requires some <= offered && index in asked
    ensures NewlyRead(sha, a, c, offered, asked)
  {
    forall i | i in c.verified
      ensures Vouched(a, i, c.verified[i]) || (i in asked && exists d | d in offered :: sha(d) == c.verified[i])
    {
      if Vouched(b, i, c.verified[i]) { assert b.verified[i] == c.verified[i]; }
    }
  }

  /** The blocks a call asks for, and the data it brings to the server. */
  ghost function ReadsOf(call: Call): set<nat>
  {
    match call
    case FetchCall(index, _, _) => {index}
    case BatchCall(batch) => MembersOf(batch)
    case _ => {}
  }

  ghost function Brings(call: Call): set<Bytes>
  {
    if call.StoreCall? then {call.data} else {}
  }

  /** After a call, an entry was there before, or is the hash of a payload on offer read for that block, or is the hash
      under which the call itself stored that block. */
  ghost predicate CallCaches(sha: Sha, l: Link, call: Call, l1: Link)
  {
    && Offered(l1) <= Offered(l) + Brings(call)
    && forall i | i in l1.cache.verified ::
         || Vouched(l.cache, i, l1.cache.verified[i])
         || (i in ReadsOf(call) && exists d | d in Offered(l) :: sha(d) == l1.cache.verified[i])
         || (call.StoreCall? && call.index == i && call.hash == l1.cache.verified[i])
  }

  lemma FetchCaches(sha: Sha, l: Link, index: nat, expected: Option<string>, busSeq: nat)
    ensures CallCaches(sha, l, FetchCall(index, expected, busSeq), FetchBlock(sha, l, index, expected, busSeq).0)
  {
    hide Respond, ReadAnswer;
    var req := FetchReq(l.nextChannel, index, expected, busSeq);
    RespondOffers(sha, l.store, req);
    AnswerCaches(sha, l.stream + Respond(sha, l.store, req).1, l.cache, index);
  }

  lemma StoreCaches(sha: Sha, l: Link, call: Call)
    requires call.StoreCall?
    ensures CallCaches(sha, l, call, StoreBlock(sha, l, call.index, call.data, call.hash, call.rawSize, call.fromAint, call.busSeq).0)
  {
    hide Respond;
    var req := StoreReq(l.nextChannel, call.index, call.data, call.hash, call.rawSize, call.fromAint, call.busSeq);
    RespondOffers(sha, l.store, req);
    var l1 := StoreBlock(sha, l, call.index, call.data, call.hash, call.rawSize, call.fromAint, call.busSeq).0;
    forall i | i in l1.cache.verified && !(call.index == i && call.hash == l1.cache.verified[i])
      ensures Vouched(l.cache, i, l1.cache.verified[i])
    {
      assert (i, l1.cache.verified[i]) in l.cache.verified.Items;
    }
  }

  lemma PingCaches(sha: Sha, l: Link)
    ensures CallCaches(sha, l, PingCall, PingServer(sha, l).0)
  {
    forall i | i in l.cache.verified ensures Vouched(l.cache, i, l.cache.verified[i]) {
      assert (i, l.cache.verified[i]) in l.cache.verified.Items;
    }
  }

  lemma BatchCaches(sha: Sha, l: Link, batch: seq<(nat, nat)>)
    ensures CallCaches(sha, l, BatchCall(batch), FetchBatch(sha, l, batch).0)
  {
    hide RespondAll, ReadRest, Stored;
    var reqs := BatchRequests(batch, l.nextChannel, 0);
    BatchRequestsShape(batch, l.nextChannel, 0);
    RespondAllOffers(sha, l.store, reqs);
    var stream := l.stream + RespondAll(sha, l.store, reqs).1;
    forall i | i in l.cache.verified ensures Vouched(l.cache, i, l.cache.verified[i]) {
      assert (i, l.cache.verified[i]) in l.cache.verified.Items;
    }
    ReadRestCaches(sha, l.cache, Offered(l), batch, Reading(stream, l.cache, l.bytesTransferred, [], None));
  }

  lemma PerformCaches(sha: Sha, l: Link, call: Call)
    ensures CallCaches(sha, l, call, Perform(sha, l, call).0)
  {
    hide CallCaches, FetchBlock, StoreBlock, PingServer, FetchBatch;
    match call
    case FetchCall(index, expected, busSeq) => FetchCaches(sha, l, index, expected, busSeq);
    case StoreCall(_, _, _, _, _, _) => StoreCaches(sha, l, call);
    case PingCall => PingCaches(sha, l);
    case BatchCall(batch) => BatchCaches(sha, l, batch);
  }

  ghost predicate SomeCallReads(calls: seq<Call>, i: nat)
  {
    exists k | 0 <= k < |calls| :: i in ReadsOf(calls[k])
  }

  ghost predicate SomeCallStores(calls: seq<Call>, i: nat, hash: string)
  {
    exists k | 0 <= k < |calls| :: calls[k].StoreCall? && calls[k].index == i && calls[k].hash == hash
  }

  ghost function AllBrought(calls: seq<Call>): set<Bytes>
  {
    set k, d | 0 <= k < |calls| && d in Brings(calls[k]) :: d
  }

  /**
   Over every run on any link to any server: what the cache vouches for at the end it vouched for at the start, or it is
   the hash of a payload that was on offer and some call read that block, or it is the hash under which some call stored it.
   */
  lemma {:induction false} RunCaches(sha: Sha, l: Link, calls: seq<Call>, i: nat, hash: string)
    requires Vouched(PerformAll(sha, l, calls).0.cache, i, hash)
    ensures || Vouched(l.cache, i, hash)
            || (SomeCallReads(calls, i) && exists d | d in Offered(l) + AllBrought(calls) :: sha(d) == hash)
            || SomeCallStores(calls, i, hash)
    decreases |calls|
  {
    hide Perform, Offered;
    if calls != [] {
      var rest := calls[1..];
      var l1 := Perform(sha, l, calls[0]).0;
      PerformCaches(sha, l, calls[0]);
      RunCaches(sha, l1, rest, i, hash);
      if Vouched(l1.cache, i, hash) {
        assert i in l1.cache.verified && l1.cache.verified[i] == hash;
      } else if SomeCallStores(rest, i, hash) {
        var k :| 0 <= k < |rest| && rest[k].StoreCall? && rest[k].index == i && rest[k].hash == hash;
        assert calls[k + 1] == rest[k];
      } else {
        var k :| 0 <= k < |rest| && i in ReadsOf(rest[k]);
        assert calls[k + 1] == rest[k];
        var d :| d in Offered(l1) + AllBrought(rest) && sha(d) == hash;
        if d in AllBrought(rest) {
          var m :| 0 <= m < |rest| && d in Brings(rest[m]);
          assert calls[m + 1] == rest[m];
        }
      }
    }
  }
}
