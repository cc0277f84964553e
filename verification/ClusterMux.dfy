/** The hash cache, the connection and the client of cluster_mux.rs as objects. */
module ClusterMux {
  import opened Prelude
  import opened ClusterTransport
  import opened MuxModel

  class HashCache {
    var verified: map<nat, string>
    var hits: nat
    var misses: nat
    var bytesSaved: nat

    constructor ()
      ensures Value() == Cache(map[], 0, 0, 0)
      ensures forall i, hash :: !IsVerified(Value(), i, hash)
    {
      verified, hits, misses, bytesSaved := map[], 0, 0, 0;
    }

    ghost function Value(): Cache
      reads this
    {
      Cache(verified, hits, misses, bytesSaved)
    }

    method Check(index: nat, hash: string) returns (known: bool)
      ensures known <==> IsVerified(Value(), index, hash)
      ensures known <==> (index, hash) in verified.Items
    {
      known := index in verified && verified[index] == hash;
    }

    method MarkVerified(index: nat, hash: string)
      modifies this
      ensures Value() == old(Value()).(verified := old(verified)[index := hash])
      ensures forall other :: IsVerified(Value(), index, other) <==> other == hash
      ensures forall i, other | i != index :: IsVerified(Value(), i, other) <==> IsVerified(old(Value()), i, other)
    {
      verified := verified[index := hash];
    }

    method Invalidate(index: nat)
      modifies this
      ensures Value() == old(Value()).(verified := old(verified) - {index})
      ensures forall hash :: !IsVerified(Value(), index, hash)
    {
      verified := verified - {index};
    }

    /** Take a payload, hashing it only if its announced hash is not the verified one. */
    method Take(sha: Sha, index: nat, announced: string, data: Bytes) returns (r: Result<Bytes>)
      modifies this
      ensures (Value(), r) == Accept(sha, old(Value()), index, announced, data)
    {
      var known := Check(index, announced);
      if known {
        hits := hits + 1;
        bytesSaved := bytesSaved + |data|;
        return Success(data);
      }
      var computed := sha(data);
      MarkVerified(index, computed);
      misses := misses + 1;
      if computed != announced {
        return Failure(IntegrityFailed(announced, computed));
      }
      r := Success(data);
    }
  }

  /** One persistent connection: requests not yet served, items not yet read, and the server's store. */
  class Connection {
    const sha: Sha
    const server: BlockStore
    var inbox: seq<Request>
    var stream: seq<Item>

    constructor (sha: Sha, server: BlockStore)
      ensures this.sha == sha && this.server == server && inbox == [] && stream == []
    {
      this.sha, this.server := sha, server;
      inbox, stream := [], [];
    }

    /** Store and stream once the server has caught up. */
    ghost function Settled(): (StoreValue, seq<Item>)
      reads this, server
    {
      var (v, items) := RespondAll(sha, server.Value(), inbox);
      (v, stream + items)
    }

    method Write(req: Request)
      modifies this
      ensures inbox == old(inbox) + [req] && stream == old(stream)
      ensures Settled() == (var (v, s) := old(Settled()); var (w, items) := Respond(sha, v, req); (w, s + items))
    {
      inbox := inbox + [req];
      RespondAllSnoc(sha, server.Value(), old(inbox), req);
      var v, items := RespondAll(sha, server.Value(), old(inbox)).0, RespondAll(sha, server.Value(), old(inbox)).1;
      assert (stream + items) + Respond(sha, v, req).1 == stream + (items + Respond(sha, v, req).1);
    }

    /** The connection handler's loop body: take one request, touch the store, append the answer. */
    method ServeOne()
      requires inbox != []
      modifies this, server
      ensures |inbox| == |old(inbox)| - 1
      ensures Settled() == old(Settled())
    {
      var req := inbox[0];
      ghost var v := server.Value();
      inbox := inbox[1..];
      match req {
        case FetchReq(channel, index, expected, _) =>
          var found := server.Fetch(index);
          match found {
            case None => stream := stream + [Header(channel, NOT_FOUND, index, "", 0)];
            case Some(b) =>
              if expected.Some? && b.contentHash != expected.value {
                stream := stream + [Header(channel, CONFLICT, index, b.contentHash, 0)];
              } else {
                stream := stream + [Header(channel, OK, index, b.contentHash, |b.data|), Payload(b.data)];
              }
          }
        case StoreReq(channel, index, data, contentHash, rawSize, fromAint, busSeq) =>
          var computed := sha(data);
          if computed != contentHash {
            stream := stream + [Header(channel, CONFLICT, index, computed, 0)];
          } else {
            server.Store(index, data, contentHash, rawSize, fromAint, busSeq);
            stream := stream + [Header(channel, OK, index, contentHash, |data|)];
          }
        case PingReq(channel) =>
          stream := stream + [Header(channel, OK, 0, "", 0)];
      }
      ghost var (w, items) := Respond(sha, v, req);
      assert server.Value() == w && stream == old(stream) + items;
      ghost var more := RespondAll(sha, w, inbox).1;
      assert (old(stream) + items) + more == old(stream) + (items + more);
    }

    /** The server makes arbitrary progress on its own. */
    method ServeSome()
      modifies this, server
      ensures Settled() == old(Settled())
    {
      while *
        invariant Settled() == old(Settled())
        decreases |inbox|
      {
        if inbox == [] {
          return;
        }
        ServeOne();
      }
    }

    /** Wait until the front of the stream is all the client will look at. */
    method AwaitItems(n: nat)
      modifies this, server
      ensures Settled() == old(Settled())
      ensures n <= |stream| || inbox == []
    {
      while |stream| < n && inbox != []
        invariant Settled() == old(Settled())
        decreases |inbox|
      {
        ServeOne();
      }
    }
  }

  lemma {:induction false} RespondAllSnoc(sha: Sha, v: StoreValue, reqs: seq<Request>, req: Request)
    ensures var (w, items) := RespondAll(sha, v, reqs);
            RespondAll(sha, v, reqs + [req]) == (Respond(sha, w, req).0, items + Respond(sha, w, req).1)
    decreases |reqs|
  {
    hide Respond;
    if reqs == [] {
      assert [req][1..] == [];
      assert [] + Respond(sha, v, req).1 == Respond(sha, v, req).1 + [];
    } else {
      var v1, first := Respond(sha, v, reqs[0]).0, Respond(sha, v, reqs[0]).1;
      RespondAllSnoc(sha, v1, reqs[1..], req);
      assert (reqs + [req])[1..] == reqs[1..] + [req];
      var more := RespondAll(sha, v1, reqs[1..]).1;
      var w := RespondAll(sha, v1, reqs[1..]).0;
      assert first + (more + Respond(sha, w, req).1) == (first + more) + Respond(sha, w, req).1;
    }
  }

  /** A reader that has two items in hand does not look at what follows. */
  lemma TwoItemsSuffice(sha: Sha, stream: seq<Item>, more: seq<Item>, cache: Cache, index: nat)
    requires |stream| >= 2 || more == []
    ensures ReadAnswer(sha, stream + more, cache, index)
            == (var (rest, c, r) := ReadAnswer(sha, stream, cache, index); (rest + more, c, r))
  {
    if more == [] {
      assert stream + more == stream;
      var rest := ReadAnswer(sha, stream, cache, index).0;
      assert rest + more == rest;
    } else {
      assert (stream + more)[2..] == stream[2..] + more;
      assert (stream + more)[1..] == stream[1..] + more;
    }
  }

  lemma ChannelStep(first: nat, k: nat)
    ensures Channel(Channel(first, k), 1) == Channel(first, k + 1)
    ensures k == 0 && first < CHANNELS ==> Channel(first, k) == first
  {
    var q := (first + k) / CHANNELS;
    assert first + k == q * CHANNELS + Channel(first, k);
  }

  /** The k-th request of a batch. */
  lemma {:induction false} BatchRequestAt(batch: seq<(nat, nat)>, first: nat, j: nat, k: nat)
    requires j <= k <= |batch|
    ensures |BatchRequests(batch, first, j)| == |batch| - j
    ensures k < |batch| ==>
              BatchRequests(batch, first, j)[k - j] == FetchReq(Channel(first, k), batch[k].0, None, batch[k].1)
    decreases k - j, |batch| - j
  {
    if j < k {
      BatchRequestAt(batch, first, j + 1, k);
    } else if k < |batch| {
      BatchRequestAt(batch, first, k + 1, k + 1);
    }
  }

  class ClusterMuxClient {
    const conn: Connection
    const cache: HashCache
    var nextChannel: nat
    var requestsSent: nat
    var bytesTransferred: nat

    ghost predicate Valid()
      reads this
    {
      nextChannel < CHANNELS
    }

    constructor (conn: Connection, cache: HashCache)
      ensures this.conn == conn && this.cache == cache
      ensures Valid() && nextChannel == 1 && requestsSent == 0 && bytesTransferred == 0
    {
      this.conn, this.cache := conn, cache;
      nextChannel, requestsSent, bytesTransferred := 1, 0, 0;
    }

    /** Client, stream and server once the server has caught up. */
    ghost function State(): Link
      reads this, conn, conn.server, cache
    {
      var (v, s) := conn.Settled();
      Link(v, s, cache.Value(), nextChannel, requestsSent, bytesTransferred)
    }

    /** Read one answer off the wire, waiting for the server as needed. */
    method ReceiveAnswer(index: nat) returns (r: Result<Bytes>)
      modifies conn, conn.server, cache
      ensures (conn.Settled().1, cache.Value(), r) == ReadAnswer(conn.sha, old(conn.Settled().1), old(cache.Value()), index)
      ensures conn.Settled().0 == old(conn.Settled().0)
    {
      conn.AwaitItems(2);
      ghost var more := RespondAll(conn.sha, conn.server.Value(), conn.inbox).1;
      ghost var before := conn.stream;
      TwoItemsSuffice(conn.sha, before, more, cache.Value(), index);
      if conn.stream == [] || conn.stream[0].Payload? {
        return Failure(Desync);
      }
      var head := conn.stream[0];
      if head.status != OK {
        conn.stream := conn.stream[1..];
        return Failure(RemoteStatus(head.status));
      }
      if |conn.stream| < 2 || !conn.stream[1].Payload? || |conn.stream[1].data| != head.payloadSize {
        conn.stream := conn.stream[1..];
        return Failure(Desync);
      }
      var data := conn.stream[1].data;
      conn.stream := conn.stream[2..];
      r := cache.Take(conn.sha, index, head.contentHash, data);
    }

    /** Read one bare header off the wire. */
    method ReceiveStatus() returns (r: Result<()>)
      modifies conn, conn.server
      ensures (conn.Settled().1, r) == ReadStatus(old(conn.Settled().1))
      ensures conn.Settled().0 == old(conn.Settled().0)
    {
      conn.AwaitItems(1);
      ghost var more := RespondAll(conn.sha, conn.server.Value(), conn.inbox).1;
      if conn.stream == [] || conn.stream[0].Payload? {
        return Failure(Desync);
      }
      var head := conn.stream[0];
      assert (conn.stream + more)[1..] == conn.stream[1..] + more;
      conn.stream := conn.stream[1..];
      r := if head.status == OK then Success(()) else Failure(RemoteStatus(head.status));
    }

    method NextChannelId() returns (id: nat)
      requires Valid()
      modifies this`nextChannel
      ensures id == old(nextChannel) && nextChannel == Channel(id, 1) && Valid()
    {
      id := nextChannel;
      nextChannel := (nextChannel + 1) % CHANNELS;
    }

    method FetchBlock(index: nat, expected: Option<string>, busSeq: nat) returns (r: Result<Bytes>)
      requires Valid()
      modifies this, conn, conn.server, cache
      ensures Valid() && (State(), r) == MuxModel.FetchBlock(conn.sha, old(State()), index, expected, busSeq)
    {
      hide Respond, ReadAnswer, RespondAll;
      var id := NextChannelId();
      conn.Write(FetchReq(id, index, expected, busSeq));
      r := ReceiveAnswer(index);
      if r.Success? {
        requestsSent := requestsSent + 1;
        bytesTransferred := bytesTransferred + |r.value|;
      }
    }

    method StoreBlock(index: nat, data: Bytes, hash: string, rawSize: nat, fromAint: string, busSeq: nat) returns (r: Result<()>)
      requires Valid()
      modifies this, conn, conn.server, cache
      ensures Valid() && (State(), r) == MuxModel.StoreBlock(conn.sha, old(State()), index, data, hash, rawSize, fromAint, busSeq)
    {
      hide Respond, ReadStatus, RespondAll;
      var id := NextChannelId();
      conn.Write(StoreReq(id, index, data, hash, rawSize, fromAint, busSeq));
      r := ReceiveStatus();
      requestsSent := requestsSent + 1;
      bytesTransferred := bytesTransferred + |data|;
      if r.Success? {
        cache.MarkVerified(index, hash);
      }
    }

    method Ping() returns (r: Result<()>)
      requires Valid()
      modifies this, conn, conn.server
      ensures Valid() && (State(), r) == PingServer(conn.sha, old(State()))
    {
      hide Respond, ReadStatus, RespondAll;
      var id := NextChannelId();
      conn.Write(PingReq(id));
      r := ReceiveStatus();
      requestsSent := requestsSent + 1;
    }

    /** Phase one of a batch: write every request while the server makes what progress it likes. */
    method SendAll(batch: seq<(nat, nat)>)
      requires Valid()
      modifies this`nextChannel, conn, conn.server
      ensures Valid() && nextChannel == Channel(old(nextChannel), |batch|)
      ensures conn.Settled() ==
              (var (v, items) := RespondAll(conn.sha, old(conn.Settled().0), BatchRequests(batch, old(nextChannel), 0));
               (v, old(conn.Settled().1) + items))
    {
      hide Respond, BatchRequests;
      ghost var first := nextChannel;
      ghost var reqs := BatchRequests(batch, first, 0);
      ghost var s0 := conn.Settled();
      BatchRequestAt(batch, first, 0, 0);
      ChannelStep(first, 0);
      assert s0.1 + [] == s0.1;
      for k := 0 to |batch|
        invariant Valid() && nextChannel == Channel(first, k)
        invariant conn.Settled() == (var (v, items) := RespondAll(conn.sha, s0.0, reqs[..k]); (v, s0.1 + items))
      {
        BatchRequestAt(batch, first, 0, k);
        ChannelStep(first, k);
        RespondAllSnoc(conn.sha, s0.0, reqs[..k], reqs[k]);
        assert reqs[..k + 1] == reqs[..k] + [reqs[k]];
        var id := NextChannelId();
        ghost var (v, items) := RespondAll(conn.sha, s0.0, reqs[..k]);
        ghost var answer := Respond(conn.sha, v, reqs[k]).1;
        conn.Write(FetchReq(id, batch[k].0, None, batch[k].1));
        assert (s0.1 + items) + answer == s0.1 + (items + answer);
        conn.ServeSome();
      }
      assert reqs[..|batch|] == reqs;
    }

    /** Send all requests, then read all answers, stopping at the first error. */
    method FetchBatch(batch: seq<(nat, nat)>) returns (r: Result<seq<(nat, Bytes)>>)
      requires Valid()
      modifies this, conn, conn.server, cache
      ensures Valid() && (State(), r) == MuxModel.FetchBatch(conn.sha, old(State()), batch)
    {
      hide Respond, RespondAll, BatchRequests, ReadAnswer;
      SendAll(batch);
      ghost var start := Reading(conn.Settled().1, cache.Value(), bytesTransferred, [], None);
      ghost var v := conn.Settled().0;
      var got := [];
      while |got| < |batch|
        invariant |got| <= |batch| && Valid()
        invariant conn.Settled().0 == v
        invariant nextChannel == Channel(old(nextChannel), |batch|) && requestsSent == old(requestsSent)
        invariant ReadRest(conn.sha, batch, start)
               == ReadRest(conn.sha, batch, Reading(conn.Settled().1, cache.Value(), bytesTransferred, got, None))
        decreases |batch| - |got|
      {
        var index := batch[|got|].0;
        var answer := ReceiveAnswer(index);
        if answer.Failure? {
          return Failure(answer.error);
        }
        bytesTransferred := bytesTransferred + |answer.value|;
        got := got + [(index, answer.value)];
      }
      requestsSent := requestsSent + |batch|;
      r := Success(got);
    }
  }
}
