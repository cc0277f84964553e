/** What the multiplexed transport guarantees, over every interleaving and every run. */
module MuxProofs {
  import opened Prelude
  import opened ClusterTransport
  import opened MuxModel

  // ---------------------------------------------------------------- whole answers

  /** A stream made of complete answers to fetches. */
  ghost predicate Whole(stream: seq<Item>)
  {
    stream == [] ||
    (stream[0].Header? &&
     if stream[0].status == OK
     then |stream| >= 2 && stream[1].Payload? && |stream[1].data| == stream[0].payloadSize && Whole(stream[2..])
     else Whole(stream[1..]))
  }

  lemma {:induction false} WholeConcat(a: seq<Item>, b: seq<Item>)
    requires Whole(a) && Whole(b)
    ensures Whole(a + b)
    decreases |a|
  {
    if a == [] {
      assert a + b == b;
    } else if a[0].status == OK {
      WholeConcat(a[2..], b);
      assert (a + b)[2..] == a[2..] + b && (a + b)[0] == a[0] && (a + b)[1] == a[1];
    } else {
      WholeConcat(a[1..], b);
      assert (a + b)[1..] == a[1..] + b && (a + b)[0] == a[0];
    }
  }

  /** An answer is read from the front without looking at what follows it. */
  lemma AnswerIsLocal(sha: Sha, stream: seq<Item>, more: seq<Item>, cache: Cache, index: nat)
    requires Whole(stream) && stream != []
    ensures ReadAnswer(sha, stream + more, cache, index).0 == ReadAnswer(sha, stream, cache, index).0 + more
    ensures ReadAnswer(sha, stream + more, cache, index).1 == ReadAnswer(sha, stream, cache, index).1
    ensures ReadAnswer(sha, stream + more, cache, index).2 == ReadAnswer(sha, stream, cache, index).2
    ensures Whole(ReadAnswer(sha, stream, cache, index).0)
  {
    if stream[0].status == OK {
      assert (stream + more)[2..] == stream[2..] + more;
    } else {
      assert (stream + more)[1..] == stream[1..] + more;
    }
  }

  lemma FetchAnswerIsWhole(sha: Sha, v: StoreValue, req: Request)
    requires req.FetchReq?
    ensures Whole(Respond(sha, v, req).1) && Respond(sha, v, req).1 != []
  {
    var items := Respond(sha, v, req).1;
    if items[0].status == OK {
      assert items[2..] == [];
    } else {
      assert items[1..] == [];
    }
  }

  // ---------------------------------------------------------------- interleavings of one batch

  /** A batch in flight: the client still writing or already reading, the server somewhere behind. */
  datatype Flight = Flight(sent: nat, inbox: seq<Request>, store: StoreValue, reading: Reading)

  datatype Move = WriteNext | ServeNext | ReadAnswerNext

  /** The client reads only after all requests are written, and only when an answer has arrived. */
  predicate Enabled(batch: seq<(nat, nat)>, f: Flight, m: Move)
  {
    match m
    case WriteNext => f.sent < |batch|
    case ServeNext => f.inbox != []
    case ReadAnswerNext =>
      f.sent == |batch| && f.reading.error.None? && |f.reading.got| < |batch| && f.reading.stream != []
  }

  function Advance(sha: Sha, batch: seq<(nat, nat)>, first: nat, f: Flight, m: Move): Flight
    requires Enabled(batch, f, m)
  {
    match m
    case WriteNext =>
      f.(sent := f.sent + 1,
         inbox := f.inbox + [FetchReq(Channel(first, f.sent), batch[f.sent].0, None, batch[f.sent].1)])
    case ServeNext =>
      var (v, items) := Respond(sha, f.store, f.inbox[0]);
      f.(inbox := f.inbox[1..], store := v, reading := f.reading.(stream := f.reading.stream + items))
    case ReadAnswerNext => f.(reading := ReadNext(sha, batch, f.reading))
  }

  function Launch(l: Link): Flight
  {
    Flight(0, [], l.store, Reading(l.stream, l.cache, l.bytesTransferred, [], None))
  }

  /** A schedule whose every move is enabled when it is taken. */
  predicate Legal(sha: Sha, batch: seq<(nat, nat)>, first: nat, f: Flight, schedule: seq<Move>)
    decreases |schedule|
  {
    schedule == [] ||
    (Enabled(batch, f, schedule[0]) && Legal(sha, batch, first, Advance(sha, batch, first, f, schedule[0]), schedule[1..]))
  }

  function Play(sha: Sha, batch: seq<(nat, nat)>, first: nat, f: Flight, schedule: seq<Move>): Flight
    requires Legal(sha, batch, first, f, schedule)
    decreases |schedule|
  {
    if schedule == [] then f
    else Play(sha, batch, first, Advance(sha, batch, first, f, schedule[0]), schedule[1..])
  }

  ghost predicate AllFetches(reqs: seq<Request>)
  {
    forall k | 0 <= k < |reqs| :: reqs[k].FetchReq?
  }

  /** The channels of the answers waiting in a stream, and of the requests waiting at the server. */
  function StreamChannels(stream: seq<Item>): seq<nat>
  {
    if stream == [] then []
    else (if stream[0].Header? then [stream[0].channel] else []) + StreamChannels(stream[1..])
  }

  function RequestChannels(reqs: seq<Request>): seq<nat>
  {
    seq(|reqs|, k requires 0 <= k < |reqs| => reqs[k].channel)
  }

  function ChannelRange(first: nat, from: nat, to: nat): seq<nat>
    requires from <= to
  {
    seq<nat>(to - from, k requires k >= 0 => Channel(first, from + k))
  }

  /** In a flight from a drained link, the answers and requests under way carry exactly the channels
      of the members not yet read, in order. */
  ghost predicate FlightOk(batch: seq<(nat, nat)>, first: nat, f: Flight)
  {
    && f.sent <= |batch| && AllFetches(f.inbox) && Whole(f.reading.stream)
    && (f.reading.error.None? ==>
          && |f.reading.got| <= f.sent
          && StreamChannels(f.reading.stream) + RequestChannels(f.inbox) == ChannelRange(first, |f.reading.got|, f.sent))
  }

  /** Where a flight ends if the client writes the rest, the server serves everything, and the client reads. */
  function Land(sha: Sha, batch: seq<(nat, nat)>, first: nat, f: Flight): (StoreValue, Reading)
    requires f.sent <= |batch|
  {
    var (v, items) := RespondAll(sha, f.store, f.inbox + BatchRequests(batch, first, f.sent));
    (v, ReadRest(sha, batch, f.reading.(stream := f.reading.stream + items)))
  }

  lemma {:induction false} StreamChannelsConcat(a: seq<Item>, b: seq<Item>)
    ensures StreamChannels(a + b) == StreamChannels(a) + StreamChannels(b)
  {
    if a == [] {
      assert a + b == b;
    } else {
      StreamChannelsConcat(a[1..], b);
      assert (a + b)[1..] == a[1..] + b;
    }
  }

  lemma AnswerChannels(sha: Sha, v: StoreValue, req: Request)
    requires req.FetchReq?
    ensures StreamChannels(Respond(sha, v, req).1) == [req.channel]
  {
    var items := Respond(sha, v, req).1;
    if |items| == 2 {
      assert items[1..][1..] == [];
      assert StreamChannels(items[1..]) == [] + StreamChannels([]);
    } else {
      assert items[1..] == [];
    }
  }

  lemma WriteKeeps(sha: Sha, batch: seq<(nat, nat)>, first: nat, f: Flight)
    requires FlightOk(batch, first, f) && Enabled(batch, f, WriteNext)
    ensures var g := Advance(sha, batch, first, f, WriteNext);
            FlightOk(batch, first, g) && Land(sha, batch, first, g) == Land(sha, batch, first, f)
  {
    hide RespondAll, ReadRest, Respond, Whole;
    var g := Advance(sha, batch, first, f, WriteNext);
    assert g.inbox + BatchRequests(batch, first, g.sent) == f.inbox + BatchRequests(batch, first, f.sent);
    assert RequestChannels(g.inbox) == RequestChannels(f.inbox) + [Channel(first, f.sent)];
    if f.reading.error.None? {
      var from := |f.reading.got|;
      assert ChannelRange(first, from, g.sent) == ChannelRange(first, from, f.sent) + [Channel(first, f.sent)];
    }
  }

  lemma ServeKeeps(sha: Sha, batch: seq<(nat, nat)>, first: nat, f: Flight)
    requires FlightOk(batch, first, f) && Enabled(batch, f, ServeNext)
    ensures var g := Advance(sha, batch, first, f, ServeNext);
            FlightOk(batch, first, g) && Land(sha, batch, first, g) == Land(sha, batch, first, f)
  {
    hide ReadRest, Respond, Whole, StreamChannels, BatchRequests;
    var g := Advance(sha, batch, first, f, ServeNext);
    var items := Respond(sha, f.store, f.inbox[0]).1;
    FetchAnswerIsWhole(sha, f.store, f.inbox[0]);
    WholeConcat(f.reading.stream, items);
    StreamChannelsConcat(f.reading.stream, items);
    AnswerChannels(sha, f.store, f.inbox[0]);
    assert RequestChannels(f.inbox) == [f.inbox[0].channel] + RequestChannels(g.inbox);
    var rest := BatchRequests(batch, first, f.sent);
    assert (f.inbox + rest)[1..] == g.inbox + rest;
    var more := RespondAll(sha, g.store, g.inbox + rest).1;
    assert f.reading.stream + (items + more) == (f.reading.stream + items) + more;
  }

  lemma ReadKeeps(sha: Sha, batch: seq<(nat, nat)>, first: nat, f: Flight)
    requires FlightOk(batch, first, f) && Enabled(batch, f, ReadAnswerNext)
    ensures var g := Advance(sha, batch, first, f, ReadAnswerNext);
            FlightOk(batch, first, g) && Land(sha, batch, first, g) == Land(sha, batch, first, f)
    ensures f.reading.stream[0].channel == Channel(first, |f.reading.got|)
  {
    hide RespondAll, BatchRequests, Accept;
    var g := Advance(sha, batch, first, f, ReadAnswerNext);
    var stream := f.reading.stream;
    var more := RespondAll(sha, f.store, f.inbox + BatchRequests(batch, first, f.sent)).1;
    AnswerIsLocal(sha, stream, more, f.reading.cache, batch[|f.reading.got|].0);
    assert ReadNext(sha, batch, f.reading.(stream := stream + more)) == g.reading.(stream := g.reading.stream + more);
    FirstChannel(batch, first, f);
    if g.reading.error.None? {
      ChannelsAfterRead(batch, first, f);
    }
  }

  /** The first answer waiting carries the channel of the next member to be read. */
  lemma FirstChannel(batch: seq<(nat, nat)>, first: nat, f: Flight)
    requires FlightOk(batch, first, f) && Enabled(batch, f, ReadAnswerNext)
    ensures f.reading.stream[0].Header? && f.reading.stream[0].channel == Channel(first, |f.reading.got|)
    ensures |f.reading.got| < f.sent
  {
    var all := StreamChannels(f.reading.stream) + RequestChannels(f.inbox);
    assert all[0] == f.reading.stream[0].channel;
    assert all[0] == ChannelRange(first, |f.reading.got|, f.sent)[0];
  }

  lemma ChannelsAfterRead(batch: seq<(nat, nat)>, first: nat, f: Flight)
    requires FlightOk(batch, first, f) && Enabled(batch, f, ReadAnswerNext)
    requires |f.reading.stream| >= 2 && f.reading.stream[1].Payload? && f.reading.stream[0].status == OK
    ensures |f.reading.got| < f.sent
    ensures StreamChannels(f.reading.stream[2..]) + RequestChannels(f.inbox) == ChannelRange(first, |f.reading.got| + 1, f.sent)
  {
    FirstChannel(batch, first, f);
    var stream := f.reading.stream;
    var all := StreamChannels(stream) + RequestChannels(f.inbox);
    assert stream[1..][1..] == stream[2..];
    assert StreamChannels(stream[1..]) == [] + StreamChannels(stream[2..]);
    assert all[1..] == StreamChannels(stream[2..]) + RequestChannels(f.inbox);
    assert ChannelRange(first, |f.reading.got|, f.sent)[1..] == ChannelRange(first, |f.reading.got| + 1, f.sent);
  }

  lemma {:induction false} PlayKeeps(sha: Sha, batch: seq<(nat, nat)>, first: nat, f: Flight, schedule: seq<Move>)
    requires FlightOk(batch, first, f) && Legal(sha, batch, first, f, schedule)
    ensures var g := Play(sha, batch, first, f, schedule);
            FlightOk(batch, first, g) && Land(sha, batch, first, g) == Land(sha, batch, first, f)
    decreases |schedule|
  {
    hide Advance, Land, FlightOk;
    if schedule != [] {
      match schedule[0] {
        case WriteNext => WriteKeeps(sha, batch, first, f);
        case ServeNext => ServeKeeps(sha, batch, first, f);
        case ReadAnswerNext => ReadKeeps(sha, batch, first, f);
      }
      assert FlightOk(batch, first, Advance(sha, batch, first, f, schedule[0]));
      PlayKeeps(sha, batch, first, Advance(sha, batch, first, f, schedule[0]), schedule[1..]);
    }
  }

  ghost predicate Stopped(batch: seq<(nat, nat)>, f: Flight)
  {
    forall m: Move :: !Enabled(batch, f, m)
  }

  lemma LaunchOk(l: Link, batch: seq<(nat, nat)>)
    requires Drained(l)
    ensures FlightOk(batch, l.nextChannel, Launch(l))
  {
    assert StreamChannels([]) + RequestChannels([]) == ChannelRange(l.nextChannel, 0, 0);
  }

  /**
   Every interleaving of client writes, server answers and client reads that can go no further ends
   like the batch call: same results or error, same store, cache and unread stream. On the way each
   answer the client reads carries the channel of the request it answers.
   */
  lemma EveryInterleavingAgrees(sha: Sha, l: Link, batch: seq<(nat, nat)>, schedule: seq<Move>)
    requires Drained(l) && Legal(sha, batch, l.nextChannel, Launch(l), schedule)
    ensures var f := Play(sha, batch, l.nextChannel, Launch(l), schedule);
            Enabled(batch, f, ReadAnswerNext) ==>
              f.reading.stream[0].Header? && f.reading.stream[0].channel == Channel(l.nextChannel, |f.reading.got|)
    ensures var f := Play(sha, batch, l.nextChannel, Launch(l), schedule);
            var (l1, outcome) := FetchBatch(sha, l, batch);
            Stopped(batch, f) ==>
              && BatchOutcome(f.reading) == outcome
              && f.store == l1.store && f.reading.stream == l1.stream && f.reading.cache == l1.cache
              && f.reading.bytes == l1.bytesTransferred
  {
    hide Advance, RespondAll;
    var first := l.nextChannel;
    LaunchOk(l, batch);
    PlayKeeps(sha, batch, first, Launch(l), schedule);
    var f := Play(sha, batch, first, Launch(l), schedule);
    if Enabled(batch, f, ReadAnswerNext) {
      ReadKeeps(sha, batch, first, f);
    }
    assert [] + BatchRequests(batch, first, 0) == BatchRequests(batch, first, 0);
    if Stopped(batch, f) {
      StoppedHasLanded(sha, batch, first, f);
    }
  }

  /** A flight that can go no further has landed: nothing is left to write, serve or read. */
  lemma StoppedHasLanded(sha: Sha, batch: seq<(nat, nat)>, first: nat, f: Flight)
    requires FlightOk(batch, first, f) && Stopped(batch, f)
    ensures Land(sha, batch, first, f) == (f.store, f.reading)
    ensures f.reading.error.Some? || |f.reading.got| == |batch|
  {
    assert !Enabled(batch, f, WriteNext) && !Enabled(batch, f, ServeNext) && !Enabled(batch, f, ReadAnswerNext);
    assert f.inbox + BatchRequests(batch, first, f.sent) == [];
    assert f.reading.stream + [] == f.reading.stream;
    if f.reading.error.None? {
      assert |StreamChannels(f.reading.stream) + RequestChannels(f.inbox)| == |batch| - |f.reading.got|;
    }
  }

  function Remaining(batch: seq<(nat, nat)>, f: Flight): int
  {
    2 * (|batch| - f.sent) + |f.inbox| + (if f.reading.error.Some? then 0 else 1 + |batch| - |f.reading.got|)
  }

  /** No schedule runs forever: each move uses up one unit of remaining work. */
  lemma {:induction false} SchedulesAreBounded(sha: Sha, batch: seq<(nat, nat)>, first: nat, f: Flight, schedule: seq<Move>)
    requires FlightOk(batch, first, f) && Legal(sha, batch, first, f, schedule)
    ensures |schedule| <= Remaining(batch, f)
    decreases |schedule|
  {
    if schedule != [] {
      var g := Advance(sha, batch, first, f, schedule[0]);
      match schedule[0] {
        case WriteNext => WriteKeeps(sha, batch, first, f);
        case ServeNext => ServeKeeps(sha, batch, first, f);
        case ReadAnswerNext => ReadKeeps(sha, batch, first, f);
      }
      SchedulesAreBounded(sha, batch, first, g, schedule[1..]);
    }
  }

  // ---------------------------------------------------------------- the hash-skipping path

  /** Skipping the hash gives the verdict that hashing would have given exactly when the block was not
      skipped or its data does carry the announced hash. */
  lemma SkipAgreesWithHashingIff(sha: Sha, cache: Cache, index: nat, announced: string, data: Bytes)
    ensures Accept(sha, cache, index, announced, data).1 == Accept(sha, cache.(verified := map[]), index, announced, data).1
            <==> !IsVerified(cache, index, announced) || sha(data) == announced
  {
  }

  /** The blocks of a store as a plain map from index to bytes. */
  ghost function Contents(v: StoreValue): map<nat, Bytes>
  {
    map i | i in v.blocks :: v.blocks[i].data
  }

  /** Serving a fetch changes nothing a later answer depends on. */
  lemma FetchKeepsVisible(sha: Sha, v: StoreValue, req: Request)
    requires req.FetchReq?
    ensures Visible(Respond(sha, v, req).0) == Visible(v)
    ensures Contents(Respond(sha, v, req).0) == Contents(v)
    ensures Honest(sha, v) ==> Honest(sha, Respond(sha, v, req).0)
  {
    GetIsTransparent(v, req.index);
  }

  lemma AnswersDependOnVisible(sha: Sha, v: StoreValue, w: StoreValue, req: Request)
    requires req.FetchReq? && Visible(v) == Visible(w)
    ensures Respond(sha, v, req).1 == Respond(sha, w, req).1
  {
    assert v.blocks.Keys == Visible(v).Keys && w.blocks.Keys == Visible(w).Keys;
    if req.index in v.blocks {
      assert Visible(v)[req.index] == Visible(w)[req.index];
    }
  }

  lemma {:induction false} AllAnswersDependOnVisible(sha: Sha, v: StoreValue, w: StoreValue, reqs: seq<Request>)
    requires AllFetches(reqs) && Visible(v) == Visible(w)
    ensures RespondAll(sha, v, reqs).1 == RespondAll(sha, w, reqs).1
    ensures Visible(RespondAll(sha, v, reqs).0) == Visible(v)
    ensures Contents(RespondAll(sha, v, reqs).0) == Contents(v)
    ensures Honest(sha, v) ==> Honest(sha, RespondAll(sha, v, reqs).0)
    decreases |reqs|
  {
    hide Respond, Visible, Contents, Honest;
    if reqs != [] {
      AnswersDependOnVisible(sha, v, w, reqs[0]);
      FetchKeepsVisible(sha, v, reqs[0]);
      FetchKeepsVisible(sha, w, reqs[0]);
      AllAnswersDependOnVisible(sha, Respond(sha, v, reqs[0]).0, Respond(sha, w, reqs[0]).0, reqs[1..]);
    }
  }

  lemma {:induction false} BatchRequestsShape(batch: seq<(nat, nat)>, first: nat, k: nat)
    requires k <= |batch|
    ensures AllFetches(BatchRequests(batch, first, k)) && |BatchRequests(batch, first, k)| == |batch| - k
    ensures k < |batch| ==> BatchRequests(batch, first, k)[1..] == BatchRequests(batch, first, k + 1)
    decreases |batch| - k
  {
    if k < |batch| {
      BatchRequestsShape(batch, first, k + 1);
    }
  }

  /** An answer of an honest server to a plain fetch: the stored bytes, whatever the cache holds. */
  lemma HonestAnswer(sha: Sha, v: StoreValue, channel: nat, index: nat, expected: Option<string>, busSeq: nat, more: seq<Item>, cache: Cache)
    requires Honest(sha, v)
    ensures var (stream, cache1, r) := ReadAnswer(sha, Respond(sha, v, FetchReq(channel, index, expected, busSeq)).1 + more, cache, index);
            && stream == more
            && r == FetchSpec(sha, Contents(v), index, expected)
  {
    var items := Respond(sha, v, FetchReq(channel, index, expected, busSeq)).1;
    if |items| == 2 {
      assert (items + more)[2..] == more;
    } else {
      assert (items + more)[1..] == more;
    }
  }

  /** What a fetch means over a plain map of blocks. */
  function FetchSpec(sha: Sha, m: map<nat, Bytes>, index: nat, expected: Option<string>): Result<Bytes>
  {
    if index !in m then Failure(RemoteStatus(NOT_FOUND))
    else if expected.Some? && expected.value != sha(m[index]) then Failure(RemoteStatus(CONFLICT))
    else Success(m[index])
  }

  /** The first member from the k-th on that is missing, or the length of the batch. */
  function FirstMissing(m: map<nat, Bytes>, batch: seq<(nat, nat)>, k: nat): (x: nat)
    requires k <= |batch|
    ensures k <= x <= |batch|
    ensures forall j | k <= j < x :: batch[j].0 in m
    ensures x < |batch| ==> batch[x].0 !in m
    decreases |batch| - k
  {
    if k == |batch| || batch[k].0 !in m then k else FirstMissing(m, batch, k + 1)
  }

  function AnswersFor(m: map<nat, Bytes>, batch: seq<(nat, nat)>, k: nat, x: nat): seq<(nat, Bytes)>
    requires k <= x <= |batch|
    requires forall j | k <= j < x :: batch[j].0 in m
    decreases x - k
  {
    if k == x then [] else [(batch[k].0, m[batch[k].0])] + AnswersFor(m, batch, k + 1, x)
  }

  /** Reading the answers of an honest server from the k-th member on. */
  ghost predicate ReadsAs(sha: Sha, v: StoreValue, batch: seq<(nat, nat)>, first: nat, k: nat, r: Reading, q: Reading)
    requires k <= |batch|
  {
    var x := FirstMissing(Contents(v), batch, k);
    && q.got == r.got + AnswersFor(Contents(v), batch, k, x)
    && q.error == (if x == |batch| then None else Some(RemoteStatus(NOT_FOUND)))
    && q.stream == (if x == |batch| then [] else RespondAll(sha, v, BatchRequests(batch, first, x + 1)).1)
  }

  lemma {:induction false} BatchReads(sha: Sha, v: StoreValue, batch: seq<(nat, nat)>, first: nat, k: nat, r: Reading)
    requires Honest(sha, v) && k <= |batch| && r.error.None? && |r.got| == k
    requires r.stream == RespondAll(sha, v, BatchRequests(batch, first, k)).1
    ensures ReadsAs(sha, v, batch, first, k, r, ReadRest(sha, batch, r))
    decreases |batch| - k
  {
    if k < |batch| {
      var reqs := BatchRequests(batch, first, k);
      BatchRequestsShape(batch, first, k);
      var (v1, items) := Respond(sha, v, reqs[0]);
      FetchKeepsVisible(sha, v, reqs[0]);
      BatchRequestsShape(batch, first, k + 1);
      var tail := BatchRequests(batch, first, k + 1);
      AllAnswersDependOnVisible(sha, v1, v, tail);
      var more := RespondAll(sha, v, tail).1;
      assert r.stream == items + more;
      HonestAnswer(sha, v, Channel(first, k), batch[k].0, None, batch[k].1, more, r.cache);
      BatchReadsStep(sha, v, batch, first, k, r, more);
    } else {
      assert r.got + [] == r.got;
    }
  }

  lemma BatchReadsStep(sha: Sha, v: StoreValue, batch: seq<(nat, nat)>, first: nat, k: nat, r: Reading, more: seq<Item>)
    requires Honest(sha, v) && k < |batch| && r.error.None? && |r.got| == k
    requires more == RespondAll(sha, v, BatchRequests(batch, first, k + 1)).1
    requires ReadAnswer(sha, r.stream, r.cache, batch[k].0).0 == more
    requires ReadAnswer(sha, r.stream, r.cache, batch[k].0).2 == FetchSpec(sha, Contents(v), batch[k].0, None)
    ensures ReadsAs(sha, v, batch, first, k, r, ReadRest(sha, batch, r))
    decreases |batch| - k, 0
  {
    hide ReadAnswer, RespondAll, BatchRequests, Honest;
    var m := Contents(v);
    var next := ReadNext(sha, batch, r);
    assert ReadRest(sha, batch, r) == ReadRest(sha, batch, next);
    if batch[k].0 in m {
      BatchReads(sha, v, batch, first, k + 1, next);
      var x := FirstMissing(m, batch, k);
      assert x == FirstMissing(m, batch, k + 1);
      assert r.got + ([(batch[k].0, m[batch[k].0])] + AnswersFor(m, batch, k + 1, x))
          == (r.got + [(batch[k].0, m[batch[k].0])]) + AnswersFor(m, batch, k + 1, x);
    } else {
      assert r.got + [] == r.got;
    }
  }

  /** What a batch means over a plain map of blocks. */
  function BatchSpec(m: map<nat, Bytes>, batch: seq<(nat, nat)>): Result<seq<(nat, Bytes)>>
  {
    var x := FirstMissing(m, batch, 0);
    if x == |batch| then Success(AnswersFor(m, batch, 0, x)) else Failure(RemoteStatus(NOT_FOUND))
  }

  /** A batch drains the stream exactly when nothing but its last member is missing. */
  predicate DrainsCleanly(m: map<nat, Bytes>, batch: seq<(nat, nat)>)
  {
    FirstMissing(m, batch, 0) >= |batch| - 1
  }

  lemma {:induction false} SomeAnswerPerRequest(sha: Sha, v: StoreValue, reqs: seq<Request>)
    ensures |RespondAll(sha, v, reqs).1| >= |reqs|
    decreases |reqs|
  {
    if reqs != [] {
      SomeAnswerPerRequest(sha, Respond(sha, v, reqs[0]).0, reqs[1..]);
    }
  }

  /** From a drained link to an honest server: the batch call returns what the stored map says, leaves the
      store's contents alone, and leaves the stream drained exactly when only its last member may be missing. */
  lemma BatchMeetsSpec(sha: Sha, l: Link, batch: seq<(nat, nat)>)
    requires Drained(l) && Honest(sha, l.store)
    ensures var (l1, outcome) := FetchBatch(sha, l, batch);
            var m := Contents(l.store);
            && outcome == BatchSpec(m, batch)
            && Contents(l1.store) == m && Honest(sha, l1.store)
            && (Drained(l1) <==> DrainsCleanly(m, batch))
            && (FirstMissing(m, batch, 0) < |batch| ==>
                  l1.stream == RespondAll(sha, l.store, BatchRequests(batch, l.nextChannel, FirstMissing(m, batch, 0) + 1)).1)
  {
    hide Respond, ReadRest, Contents, Honest, Visible, AnswersFor;
    var first := l.nextChannel;
    var reqs := BatchRequests(batch, first, 0);
    BatchRequestsShape(batch, first, 0);
    AllAnswersDependOnVisible(sha, l.store, l.store, reqs);
    var items := RespondAll(sha, l.store, reqs).1;
    assert l.stream + items == items;
    var r := Reading(items, l.cache, l.bytesTransferred, [], None);
    BatchReads(sha, l.store, batch, first, 0, r);
    var x := FirstMissing(Contents(l.store), batch, 0);
    assert [] + AnswersFor(Contents(l.store), batch, 0, x) == AnswersFor(Contents(l.store), batch, 0, x);
    if x < |batch| {
      BatchRequestsShape(batch, first, x + 1);
      SomeAnswerPerRequest(sha, l.store, BatchRequests(batch, first, x + 1));
    }
  }
}
