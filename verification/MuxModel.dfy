/**
 The multiplexed block transport (cluster_mux.rs): one persistent stream, a server that answers
 requests in order, and a client that pipelines fetches and skips hashing for verified blocks.
 */
module MuxModel {
  import opened Prelude
  import opened ClusterTransport

  type Sha = Bytes -> string

  /** Channel ids are 32-bit and wrap. */
  const CHANNELS: nat := 0x1_0000_0000

  function Channel(first: nat, k: nat): (c: nat)
    ensures c < CHANNELS
  {
    (first + k) % CHANNELS
  }

  datatype Request =
    | FetchReq(channel: nat, index: nat, expectedHash: Option<string>, busSeq: nat)
    | StoreReq(channel: nat, index: nat, data: Bytes, contentHash: string, rawSize: nat, fromAint: string, busSeq: nat)
    | PingReq(channel: nat)

  const OK: nat := 200
  const NOT_FOUND: nat := 404
  const CONFLICT: nat := 409

  /** What travels to the client: response headers, and block payloads behind fetch headers. */
  datatype Item =
    | Header(channel: nat, status: nat, index: nat, contentHash: string, payloadSize: nat)
    | Payload(data: Bytes)

  // ---------------------------------------------------------------- server

  /** How the server answers one request. A stored block is announced with its size but not echoed. */
  function Respond(sha: Sha, v: StoreValue, req: Request): (StoreValue, seq<Item>)
  {
    match req
    case FetchReq(channel, index, expected, _) =>
      var (w, found) := Get(v, index);
      (match found
       case None => (w, [Header(channel, NOT_FOUND, index, "", 0)])
       case Some(b) =>
         if expected.Some? && b.contentHash != expected.value then
           (w, [Header(channel, CONFLICT, index, b.contentHash, 0)])
         else
           (w, [Header(channel, OK, index, b.contentHash, |b.data|), Payload(b.data)]))
    case StoreReq(channel, index, data, contentHash, rawSize, fromAint, busSeq) =>
      if sha(data) != contentHash then
        (v, [Header(channel, CONFLICT, index, sha(data), 0)])
      else
        (Put(v, index, data, contentHash, rawSize, fromAint, busSeq), [Header(channel, OK, index, contentHash, |data|)])
    case PingReq(channel) => (v, [Header(channel, OK, 0, "", 0)])
  }

  function RespondAll(sha: Sha, v: StoreValue, reqs: seq<Request>): (StoreValue, seq<Item>)
    decreases |reqs|
  {
    if reqs == [] then (v, [])
    else
      var (v1, items) := Respond(sha, v, reqs[0]);
      var (v2, more) := RespondAll(sha, v1, reqs[1..]);
      (v2, items + more)
  }

  /** Every stored block carries the hash of its data: what storing over the wire guarantees. */
  ghost predicate Honest(sha: Sha, v: StoreValue)
  {
    forall i | i in v.blocks :: v.blocks[i].contentHash == sha(v.blocks[i].data)
  }

  // ---------------------------------------------------------------- client

  datatype Cache = Cache(verified: map<nat, string>, hits: nat, misses: nat, bytesSaved: nat)

  datatype MuxError =
    | Desync
    | RemoteStatus(status: nat)
    | IntegrityFailed(expected: string, got: string)

  datatype Result<+T> = Success(value: T) | Failure(error: MuxError)

  predicate IsVerified(cache: Cache, index: nat, hash: string)
  {
    index in cache.verified && cache.verified[index] == hash
  }

  /** Accepting a payload: a block whose announced hash is already verified is not hashed again. */
  function Accept(sha: Sha, cache: Cache, index: nat, announced: string, data: Bytes): (Cache, Result<Bytes>)
  {
    if IsVerified(cache, index, announced) then
      (cache.(hits := cache.hits + 1, bytesSaved := cache.bytesSaved + |data|), Success(data))
    else
      (cache.(verified := cache.verified[index := sha(data)], misses := cache.misses + 1),
       if sha(data) == announced then Success(data) else Failure(IntegrityFailed(announced, sha(data))))
  }

  /** Reading one answer to a fetch of block index from the front of the stream. */
  function ReadAnswer(sha: Sha, stream: seq<Item>, cache: Cache, index: nat): (seq<Item>, Cache, Result<Bytes>)
  {
    if stream == [] || stream[0].Payload? then (stream, cache, Failure(Desync))
    else if stream[0].status != OK then (stream[1..], cache, Failure(RemoteStatus(stream[0].status)))
    else if |stream| < 2 || !stream[1].Payload? || |stream[1].data| != stream[0].payloadSize then
      (stream[1..], cache, Failure(Desync))
    else
      var (cache1, r) := Accept(sha, cache, index, stream[0].contentHash, stream[1].data);
      (stream[2..], cache1, r)
  }

  /** Client, stream and server together, between client calls. */
  datatype Link = Link(
    store: StoreValue,
    stream: seq<Item>,
    cache: Cache,
    nextChannel: nat,
    requestsSent: nat,
    bytesTransferred: nat)

  predicate Drained(l: Link)
  {
    l.stream == []
  }

  /** The server answers, behind whatever the client has not read yet. */
  function Exchange(sha: Sha, l: Link, req: Request): Link
  {
    var (v, items) := Respond(sha, l.store, req);
    l.(store := v, stream := l.stream + items, nextChannel := Channel(l.nextChannel, 1))
  }

  function FetchBlock(sha: Sha, l: Link, index: nat, expected: Option<string>, busSeq: nat): (Link, Result<Bytes>)
  {
    var l1 := Exchange(sha, l, FetchReq(l.nextChannel, index, expected, busSeq));
    var (stream, cache, r) := ReadAnswer(sha, l1.stream, l1.cache, index);
    var l2 := l1.(stream := stream, cache := cache);
    if r.Success? then
      (l2.(requestsSent := l2.requestsSent + 1, bytesTransferred := l2.bytesTransferred + |r.value|), r)
    else (l2, r)
  }

  /** Store and ping read a bare header. */
  function ReadStatus(stream: seq<Item>): (seq<Item>, Result<()>)
  {
    if stream == [] || stream[0].Payload? then (stream, Failure(Desync))
    else (stream[1..], if stream[0].status == OK then Success(()) else Failure(RemoteStatus(stream[0].status)))
  }

  function StoreBlock(sha: Sha, l: Link, index: nat, data: Bytes, hash: string, rawSize: nat, fromAint: string, busSeq: nat): (Link, Result<()>)
  {
    var l1 := Exchange(sha, l, StoreReq(l.nextChannel, index, data, hash, rawSize, fromAint, busSeq));
    var (stream, r) := ReadStatus(l1.stream);
    var l2 := l1.(stream := stream, requestsSent := l1.requestsSent + 1, bytesTransferred := l1.bytesTransferred + |data|);
    if r.Success? then (l2.(cache := l2.cache.(verified := l2.cache.verified[index := hash])), r)
    else (l2, r)
  }

  function PingServer(sha: Sha, l: Link): (Link, Result<()>)
  {
    var l1 := Exchange(sha, l, PingReq(l.nextChannel));
    var (stream, r) := ReadStatus(l1.stream);
    (l1.(stream := stream, requestsSent := l1.requestsSent + 1), r)
  }

  /** The requests of a pipelined batch from the k-th member on; batches never send expected hashes. */
  function BatchRequests(batch: seq<(nat, nat)>, first: nat, k: nat): seq<Request>
    requires k <= |batch|
    decreases |batch| - k
  {
    if k == |batch| then []
    else [FetchReq(Channel(first, k), batch[k].0, None, batch[k].1)] + BatchRequests(batch, first, k + 1)
  }

  datatype Reading = Reading(stream: seq<Item>, cache: Cache, bytes: nat, got: seq<(nat, Bytes)>, error: Option<MuxError>)

  /** One iteration of the loop that reads the answers of a batch. */
  function ReadNext(sha: Sha, batch: seq<(nat, nat)>, r: Reading): Reading
    requires r.error.None? && |r.got| < |batch|
  {
    var index := batch[|r.got|].0;
    var (stream, cache, answer) := ReadAnswer(sha, r.stream, r.cache, index);
    match answer
    case Success(data) => Reading(stream, cache, r.bytes + |data|, r.got + [(index, data)], None)
    case Failure(e) => Reading(stream, cache, r.bytes, r.got, Some(e))
  }

  /** The reading loop, which stops at the first error. */
  function ReadRest(sha: Sha, batch: seq<(nat, nat)>, r: Reading): Reading
    decreases |batch| - |r.got|, r.error.None?
  {
    if r.error.Some? || |r.got| >= |batch| then r
    else ReadRest(sha, batch, ReadNext(sha, batch, r))
  }

  function BatchOutcome(r: Reading): Result<seq<(nat, Bytes)>>
  {
    if r.error.Some? then Failure(r.error.value) else Success(r.got)
  }

  function FetchBatch(sha: Sha, l: Link, batch: seq<(nat, nat)>): (Link, Result<seq<(nat, Bytes)>>)
  {
    var (v, items) := RespondAll(sha, l.store, BatchRequests(batch, l.nextChannel, 0));
    var r := ReadRest(sha, batch, Reading(l.stream + items, l.cache, l.bytesTransferred, [], None));
    (Link(v, r.stream, r.cache, Channel(l.nextChannel, |batch|),
          l.requestsSent + (if r.error.None? then |batch| else 0), r.bytes),
     BatchOutcome(r))
  }

  /** The same blocks fetched one call at a time, stopping at the first error. */
  function FetchSequentially(sha: Sha, l: Link, batch: seq<(nat, nat)>): (Link, Result<seq<(nat, Bytes)>>)
    decreases |batch|
  {
    if batch == [] then (l, Success([]))
    else
      var (l1, r) := FetchBlock(sha, l, batch[0].0, None, batch[0].1);
      if r.Failure? then (l1, Failure(r.error))
      else
        var (l2, rs) := FetchSequentially(sha, l1, batch[1..]);
        (l2, if rs.Failure? then rs else Success([(batch[0].0, r.value)] + rs.value))
  }
}
