/** Identity is the key: what every run of the sealing engine guarantees. */
module BifurcationProofs {
  import opened Prelude
  import opened Bifurcation

  /** The laws are consistent: some suite obeys them. */
  lemma LawfulSuiteExists()
    ensures exists suite: Suite :: Lawful(suite)
  {
    var suite := Suite(s => s, (a, b) => [], (s, i) => s + i, p => p, (k, n, p) => p, (k, n, c) => Some(c));
    assert Lawful(suite);
  }

  /** Distinct block indices never share an HKDF info string. */
  lemma InfoIsInjective(i: nat, j: nat)
    requires i < Pow256(8) && j < Pow256(8)
    ensures Info(i) == Info(j) <==> i == j
  {
    var n := |Ascii(HKDF_INFO_PREFIX)|;
    assert Info(i)[n..] == LittleEndian(i, 8) && Info(j)[n..] == LittleEndian(j, 8);
    LittleEndianRoundTrip(i, 8);
    LittleEndianRoundTrip(j, 8);
  }

  // ---------------------------------------------------------------- key soundness

  /** Every cached key, and the session's secret, equal what a fresh derivation would give. */
  ghost predicate CacheSound(suite: Suite, secret: Bytes, c: CacheValue)
  {
    forall k | k in c.keys :: c.keys[k] == FreshKey(suite, secret, k.0, k.1)
  }

  ghost predicate SessionSound(suite: Suite, secret: Bytes, s: SessionKey)
  {
    s.sharedSecret == suite.dh(secret, s.ephemeralPub)
  }

  ghost predicate Sound(suite: Suite, e: Engine)
  {
    && e.pub == suite.publicKey(e.secret)
    && CacheSound(suite, e.secret, e.cache)
    && (e.session.Some? ==> SessionSound(suite, e.secret, e.session.value))
  }

  /** The cache never outgrows its limit (or one entry, if the limit is zero). */
  ghost predicate CacheBounded(c: CacheValue)
  {
    |c.keys| <= Max(1, c.maxEntries)
  }

  /** Block b is p sealed for holders of the system secret. */
  ghost predicate SealedFor(suite: Suite, secret: Bytes, b: EncryptedBlock, p: Bytes)
  {
    && b.ciphertext == suite.encrypt(FreshKey(suite, secret, b.ephemeralPub, b.index), b.nonce, p)
    && b.plaintextHash == suite.sha256(p)
  }

  lemma PutKeepsSound(suite: Suite, secret: Bytes, c: CacheValue, ephemeralPub: Bytes, index: nat, key: Bytes)
    requires CacheSound(suite, secret, c) && key == FreshKey(suite, secret, ephemeralPub, index)
    ensures CacheSound(suite, secret, CachePut(c, ephemeralPub, index, key))
  {
  }

  lemma PutKeepsBounded(c: CacheValue, ephemeralPub: Bytes, index: nat, key: Bytes)
    requires CacheBounded(c)
    ensures CacheBounded(CachePut(c, ephemeralPub, index, key))
  {
    var room: map<(Bytes, nat), Bytes> := if |c.keys| >= c.maxEntries then map[] else c.keys;
    var k := (ephemeralPub, index);
    assert room[k := key].Keys == room.Keys + {k};
    assert |room[k := key]| == |room[k := key].Keys| <= |room.Keys| + 1;
  }

  /** The sender's and the receiver's derivations agree. */
  lemma SharedSecretsAgree(suite: Suite, secret: Bytes, ephemeral: Bytes)
    requires Lawful(suite)
    ensures suite.dh(ephemeral, suite.publicKey(secret)) == suite.dh(secret, suite.publicKey(ephemeral))
  {
  }

  lemma SealIsSound(suite: Suite, e: Engine, p: Bytes, index: nat, required: Clearance, ephemeral: Bytes, nonce: Bytes)
    requires Lawful(suite) && Sound(suite, e)
    ensures var (e1, b) := Seal(suite, e, p, index, required, ephemeral, nonce);
            Sound(suite, e1) && e1.secret == e.secret && SealedFor(suite, e.secret, b, p)
            && b.index == index && b.required == required && b.nonce == nonce && b.ephemeralPub == suite.publicKey(ephemeral)
            && (CacheBounded(e.cache) ==> CacheBounded(e1.cache))
  {
    hide Lawful, CacheBounded, CachePut, Info;
    SharedSecretsAgree(suite, e.secret, ephemeral);
    var key := FreshKey(suite, e.secret, suite.publicKey(ephemeral), index);
    PutKeepsSound(suite, e.secret, e.cache, suite.publicKey(ephemeral), index, key);
    if CacheBounded(e.cache) { PutKeepsBounded(e.cache, suite.publicKey(ephemeral), index, key); }
  }

  lemma SessionForIsSound(suite: Suite, e: Engine, ephemeral: Bytes, expired: bool)
    requires Lawful(suite) && Sound(suite, e)
    ensures SessionSound(suite, e.secret, SessionFor(suite, e, ephemeral, expired))
  {
    SharedSecretsAgree(suite, e.secret, ephemeral);
  }

  lemma SealSessionIsSound(suite: Suite, e: Engine, p: Bytes, index: nat, required: Clearance, ephemeral: Bytes, expired: bool, nonce: Bytes)
    requires Lawful(suite) && Sound(suite, e)
    ensures var (e1, b) := SealSession(suite, e, p, index, required, ephemeral, expired, nonce);
            Sound(suite, e1) && e1.secret == e.secret && SealedFor(suite, e.secret, b, p)
            && b.index == index && b.required == required && b.nonce == nonce
            && (CacheBounded(e.cache) ==> CacheBounded(e1.cache))
  {
    hide Lawful, CacheBounded, CachePut, Info, SessionFor;
    SessionForIsSound(suite, e, ephemeral, expired);
    var s := SessionFor(suite, e, ephemeral, expired);
    var key := FreshKey(suite, e.secret, s.ephemeralPub, index);
    PutKeepsSound(suite, e.secret, e.cache, s.ephemeralPub, index, key);
    if CacheBounded(e.cache) { PutKeepsBounded(e.cache, s.ephemeralPub, index, key); }
  }

  lemma {:induction false} CacheSessionKeysIsSound(suite: Suite, secret: Bytes, c: CacheValue, s: SessionKey, n: nat)
    requires CacheSound(suite, secret, c) && SessionSound(suite, secret, s)
    ensures CacheSound(suite, secret, CacheSessionKeys(suite, c, s, n))
    ensures CacheBounded(c) ==> CacheBounded(CacheSessionKeys(suite, c, s, n))
  {
    hide CacheBounded, CachePut, Info;
    if n > 0 {
      CacheSessionKeysIsSound(suite, secret, c, s, n - 1);
      var before := CacheSessionKeys(suite, c, s, n - 1);
      PutKeepsSound(suite, secret, before, s.ephemeralPub, n - 1, FreshKey(suite, secret, s.ephemeralPub, n - 1));
      if CacheBounded(before) {
        PutKeepsBounded(before, s.ephemeralPub, n - 1, FreshKey(suite, secret, s.ephemeralPub, n - 1));
      }
    }
  }

  lemma SealOneIsSound(suite: Suite, secret: Bytes, s: SessionKey, p: Bytes, index: nat, required: Clearance, nonce: Bytes)
    requires SessionSound(suite, secret, s)
    ensures SealedFor(suite, secret, SealOne(suite, s, p, index, required, nonce), p)
    ensures var b := SealOne(suite, s, p, index, required, nonce);
            b.index == index && b.required == required && b.nonce == nonce && b.ephemeralPub == s.ephemeralPub
  {
  }

  lemma SealBatchIsSound(suite: Suite, e: Engine, ps: seq<Bytes>, required: Clearance, ephemeral: Bytes, expired: bool, nonces: nat -> Bytes)
    requires Lawful(suite) && Sound(suite, e)
    ensures var (e1, bs) := SealBatch(suite, e, ps, required, ephemeral, expired, nonces);
            && Sound(suite, e1) && e1.secret == e.secret && |bs| == |ps|
            && (forall i | 0 <= i < |ps| ::
                  SealedFor(suite, e.secret, bs[i], ps[i])
                  && bs[i].index == i && bs[i].required == required && bs[i].nonce == nonces(i)
                  && bs[i].ephemeralPub == bs[0].ephemeralPub)
            && (CacheBounded(e.cache) ==> CacheBounded(e1.cache))
  {
    hide Lawful, CacheBounded, CacheSound, Info, SessionFor, SealOne, SealedFor, CacheSessionKeys;
    SessionForIsSound(suite, e, ephemeral, expired);
    var s := SessionFor(suite, e, ephemeral, expired);
    CacheSessionKeysIsSound(suite, e.secret, e.cache, s, |ps|);
    forall i: nat | i < |ps|
      ensures SealedFor(suite, e.secret, SealAll(suite, s, ps, required, nonces)[i], ps[i])
      ensures var b := SealAll(suite, s, ps, required, nonces)[i];
              b.index == i && b.required == required && b.nonce == nonces(i) && b.ephemeralPub == s.ephemeralPub
    {
      SealOneIsSound(suite, e.secret, s, ps[i], i, required, nonces(i));
    }
  }

  lemma ParallelSealIsSound(suite: Suite, ps: seq<Bytes>, secret: Bytes, required: Clearance, ephemerals: nat -> Bytes, nonces: nat -> Bytes)
    requires Lawful(suite)
    ensures var bs := ParallelSeal(suite, ps, secret, required, ephemerals, nonces);
            && |bs| == |ps|
            && (forall i: nat | i < |ps| ::
                  SealedFor(suite, secret, bs[i], ps[i])
                  && bs[i].index == i && bs[i].required == required && bs[i].nonce == nonces(i)
                  && bs[i].ephemeralPub == suite.publicKey(ephemerals(i)))
  {
    hide Info;
    forall i: nat | i < |ps|
      ensures var bs := ParallelSeal(suite, ps, secret, required, ephemerals, nonces);
              SealedFor(suite, secret, bs[i], ps[i])
    {
      SharedSecretsAgree(suite, secret, ephemerals(i));
    }
  }

  /** A sound engine uses the freshly derived key, cached or not. */
  lemma KeyForIsFresh(suite: Suite, e: Engine, b: EncryptedBlock)
    requires Sound(suite, e)
    ensures KeyFor(suite, e, b).1 == FreshKey(suite, e.secret, b.ephemeralPub, b.index)
    ensures Sound(suite, KeyFor(suite, e, b).0) && KeyFor(suite, e, b).0.secret == e.secret
    ensures CacheBounded(e.cache) ==> CacheBounded(KeyFor(suite, e, b).0.cache)
  {
    hide CachePut, Info;
    var key := FreshKey(suite, e.secret, b.ephemeralPub, b.index);
    var c := CacheGet(e.cache, b.ephemeralPub, b.index).0;
    PutKeepsSound(suite, e.secret, c, b.ephemeralPub, b.index, key);
    if CacheBounded(c) { PutKeepsBounded(c, b.ephemeralPub, b.index, key); }
  }

  /** The cache is invisible: a sound engine opens any block, sealed or forged, as an engine with an empty cache does. */
  lemma CacheIsTransparent(suite: Suite, e: Engine, b: EncryptedBlock, claim: JisClaim)
    requires Sound(suite, e)
    ensures Open(suite, e, b, claim).1 == Open(suite, e.(cache := CacheFlush(e.cache)), b, claim).1
  {
    hide Info, Reveal;
    KeyForIsFresh(suite, e, b);
    KeyForIsFresh(suite, e.(cache := CacheFlush(e.cache)), b);
  }

  lemma OpenIsSound(suite: Suite, e: Engine, b: EncryptedBlock, claim: JisClaim)
    requires Sound(suite, e)
    ensures Sound(suite, Open(suite, e, b, claim).0) && Open(suite, e, b, claim).0.secret == e.secret
    ensures CacheBounded(e.cache) ==> CacheBounded(Open(suite, e, b, claim).0.cache)
  {
    hide KeyFor, Reveal, CacheSound, SessionSound;
    KeyForIsFresh(suite, e, b);
  }

  // ---------------------------------------------------------------- opening

  /** What opening p under a claim should yield. */
  function OpenSpec(required: Clearance, claim: JisClaim, p: Bytes): OpenResult
  {
    if !WellFormedClaim(claim) then ClaimInvalid
    else if !Cleared(claim, required) then AccessDenied(required, claim.clearance)
    else Opened(p, claim.identity)
  }

  lemma RevealIsExact(suite: Suite, secret: Bytes, b: EncryptedBlock, p: Bytes, identity: string)
    requires Lawful(suite) && SealedFor(suite, secret, b, p)
    ensures Reveal(suite, FreshKey(suite, secret, b.ephemeralPub, b.index), b, identity) == Opened(p, identity)
  {
  }

  lemma OpenIsExact(suite: Suite, e: Engine, b: EncryptedBlock, p: Bytes, claim: JisClaim)
    requires Lawful(suite) && Sound(suite, e) && SealedFor(suite, e.secret, b, p)
    ensures Open(suite, e, b, claim).1 == OpenSpec(b.required, claim, p)
  {
    hide KeyFor, Reveal, Lawful, Sound, SealedFor;
    KeyForIsFresh(suite, e, b);
    RevealIsExact(suite, e.secret, b, p, claim.identity);
  }

  /** The plaintexts a claim is cleared for, and how many blocks it is not. */
  function BatchSpec(blocks: seq<EncryptedBlock>, ps: seq<Bytes>, claim: JisClaim): BatchOpened
    requires |ps| == |blocks|
    decreases |blocks|
  {
    if !WellFormedClaim(claim) then BatchOpened([], |blocks|)
    else if blocks == [] then BatchOpened([], 0)
    else
      match BatchSpec(blocks[1..], ps[1..], claim)
      case BatchOpened(more, denied) =>
        if Cleared(claim, blocks[0].required) then BatchOpened([ps[0]] + more, denied) else BatchOpened(more, denied + 1)
      case BatchAborted => BatchAborted
  }

  ghost predicate AllSealedFor(suite: Suite, secret: Bytes, blocks: seq<EncryptedBlock>, ps: seq<Bytes>)
  {
    |ps| == |blocks| && forall i | 0 <= i < |blocks| :: SealedFor(suite, secret, blocks[i], ps[i])
  }

  ghost predicate KeysFresh(suite: Suite, secret: Bytes, blocks: seq<EncryptedBlock>, keys: seq<Option<Bytes>>)
  {
    |keys| == |blocks| &&
    forall i | 0 <= i < |blocks| && keys[i].Some? ::
      keys[i].value == FreshKey(suite, secret, blocks[i].ephemeralPub, blocks[i].index)
  }

  lemma {:induction false} PrefetchedKeysAreFresh(suite: Suite, secret: Bytes, c: CacheValue, blocks: seq<EncryptedBlock>)
    requires CacheSound(suite, secret, c)
    ensures KeysFresh(suite, secret, blocks, Prefetch(c, blocks).1)
    ensures Prefetch(c, blocks).0.keys == c.keys && Prefetch(c, blocks).0.maxEntries == c.maxEntries
    decreases |blocks|
  {
    hide FreshKey;
    if blocks != [] {
      PrefetchedKeysAreFresh(suite, secret, CacheGet(c, blocks[0].ephemeralPub, blocks[0].index).0, blocks[1..]);
    }
  }

  lemma {:induction false} OpenEachIsExact(suite: Suite, secret: Bytes, blocks: seq<EncryptedBlock>, keys: seq<Option<Bytes>>, ps: seq<Bytes>, claim: JisClaim)
    requires Lawful(suite) && WellFormedClaim(claim)
    requires AllSealedFor(suite, secret, blocks, ps) && KeysFresh(suite, secret, blocks, keys)
    ensures OpenEach(suite, secret, blocks, keys, claim) == BatchSpec(blocks, ps, claim)
    decreases |blocks|
  {
    hide FreshKey, Lawful, Reveal, SealedFor;
    if blocks != [] {
      OpenEachIsExact(suite, secret, blocks[1..], keys[1..], ps[1..], claim);
      RevealIsExact(suite, secret, blocks[0], ps[0], claim.identity);
    }
  }

  /** Batch opening under any sound cache, and parallel opening with none, both yield exactly the plaintexts
      the claim is cleared for, in order, and count exactly the others. */
  lemma BatchOpensAreExact(suite: Suite, e: Engine, blocks: seq<EncryptedBlock>, ps: seq<Bytes>, claim: JisClaim)
    requires Lawful(suite) && Sound(suite, e) && AllSealedFor(suite, e.secret, blocks, ps)
    ensures OpenBatch(suite, e, blocks, claim).1 == BatchSpec(blocks, ps, claim)
    ensures ParallelOpen(suite, blocks, claim, e.secret) == BatchSpec(blocks, ps, claim)
  {
    hide FreshKey, Lawful, OpenEach, SealedFor;
    PrefetchedKeysAreFresh(suite, e.secret, e.cache, blocks);
    if WellFormedClaim(claim) {
      OpenEachIsExact(suite, e.secret, blocks, Prefetch(e.cache, blocks).1, ps, claim);
      OpenEachIsExact(suite, e.secret, blocks, NoKeys(|blocks|), ps, claim);
    }
  }

  /** The batch specification member by member: nothing is opened or denied that a single open would not. */
  lemma {:induction false} BatchSpecByMembers(blocks: seq<EncryptedBlock>, ps: seq<Bytes>, claim: JisClaim)
    requires |ps| == |blocks| && WellFormedClaim(claim)
    ensures BatchSpec(blocks, ps, claim).BatchOpened?
    ensures BatchSpec(blocks, ps, claim).denied + |BatchSpec(blocks, ps, claim).plaintexts| == |blocks|
    ensures (forall i | 0 <= i < |blocks| :: OpenSpec(blocks[i].required, claim, ps[i]).Opened?) <==>
              BatchSpec(blocks, ps, claim) == BatchOpened(ps, 0)
    decreases |blocks|
  {
    if blocks == [] {
    } else {
      BatchSpecByMembers(blocks[1..], ps[1..], claim);
      assert ps == [ps[0]] + ps[1..];
      var all := forall i | 0 <= i < |blocks| :: Cleared(claim, blocks[i].required);
      if Cleared(claim, blocks[0].required) {
        assert all <==> forall i | 0 <= i < |blocks[1..]| :: Cleared(claim, blocks[1..][i].required) by {
          if forall i | 0 <= i < |blocks[1..]| :: Cleared(claim, blocks[1..][i].required) {
            forall i | 0 <= i < |blocks| ensures Cleared(claim, blocks[i].required) {
              if i > 0 { assert blocks[i] == blocks[1..][i - 1]; }
            }
          }
        }
      }
    }
  }

  // ---------------------------------------------------------------- runs

  lemma OpenBatchIsSound(suite: Suite, e: Engine, blocks: seq<EncryptedBlock>, claim: JisClaim)
    requires Sound(suite, e)
    ensures Sound(suite, OpenBatch(suite, e, blocks, claim).0) && OpenBatch(suite, e, blocks, claim).0.secret == e.secret
    ensures CacheBounded(e.cache) ==> CacheBounded(OpenBatch(suite, e, blocks, claim).0.cache)
  {
    hide OpenEach, FreshKey;
    PrefetchedKeysAreFresh(suite, e.secret, e.cache, blocks);
  }

  lemma StepIsSound(suite: Suite, e: Engine, op: Op)
    requires Lawful(suite) && Sound(suite, e) && CacheBounded(e.cache)
    ensures Sound(suite, Step(suite, e, op)) && Step(suite, e, op).secret == e.secret
    ensures CacheBounded(Step(suite, e, op).cache)
  {
    hide Seal, SealSession, SealBatch, Open, OpenBatch, Lawful;
    match op
    case SealOp(p, i, required, eph, nonce) => SealIsSound(suite, e, p, i, required, eph, nonce);
    case SealSessionOp(p, i, required, eph, expired, nonce) => SealSessionIsSound(suite, e, p, i, required, eph, expired, nonce);
    case SealBatchOp(ps, required, eph, expired, nonces) => SealBatchIsSound(suite, e, ps, required, eph, expired, nonces);
    case OpenOp(b, claim) => OpenIsSound(suite, e, b, claim);
    case OpenBatchOp(bs, claim) => OpenBatchIsSound(suite, e, bs, claim);
    case RotateOp =>
    case FlushOp =>
  }

  /** Over every run, cached keys and the session secret stay what a fresh derivation would give. */
  lemma {:induction false} RunIsSound(suite: Suite, secret: Bytes, ops: seq<Op>)
    requires Lawful(suite)
    ensures Sound(suite, Run(suite, secret, ops)) && Run(suite, secret, ops).secret == secret
    ensures CacheBounded(Run(suite, secret, ops).cache)
  {
    hide Lawful, Step;
    if ops != [] {
      var before := ops[..|ops| - 1];
      RunIsSound(suite, secret, before);
      StepIsSound(suite, Run(suite, secret, before), ops[|ops| - 1]);
    }
  }

  /** The blocks, with their plaintexts, that an operation seals on an engine. */
  ghost predicate Seals(suite: Suite, e: Engine, op: Op, b: EncryptedBlock, p: Bytes)
  {
    match op
    case SealOp(q, i, required, eph, nonce) => p == q && b == Seal(suite, e, q, i, required, eph, nonce).1
    case SealSessionOp(q, i, required, eph, expired, nonce) =>
      p == q && b == SealSession(suite, e, q, i, required, eph, expired, nonce).1
    case SealBatchOp(ps, required, eph, expired, nonces) =>
      exists i | 0 <= i < |ps| :: p == ps[i] && b == SealBatch(suite, e, ps, required, eph, expired, nonces).1[i]
    case _ => false
  }

  lemma SealsAreSealedFor(suite: Suite, e: Engine, op: Op, b: EncryptedBlock, p: Bytes)
    requires Lawful(suite) && Sound(suite, e) && Seals(suite, e, op, b, p)
    ensures SealedFor(suite, e.secret, b, p)
  {
    hide Seal, SealSession, Lawful, Sound, SealedFor;
    match op
    case SealOp(q, i, required, eph, nonce) => SealIsSound(suite, e, q, i, required, eph, nonce);
    case SealSessionOp(q, i, required, eph, expired, nonce) => SealSessionIsSound(suite, e, q, i, required, eph, expired, nonce);
    case SealBatchOp(ps, required, eph, expired, nonces) => SealBatchIsSound(suite, e, ps, required, eph, expired, nonces);
    case _ =>
  }

  /**
   Seal on one engine after any run, open on any engine with the same secret after any other run: the result
   is the exact plaintext when the claim is well formed and cleared, and the matching refusal otherwise.
   Cache contents, session state and the choice of sealing path never matter.
   */
  lemma SealedOpensAnywhere(suite: Suite, secret: Bytes, sealer: seq<Op>, op: Op, b: EncryptedBlock, p: Bytes, opener: seq<Op>, claim: JisClaim)
    requires Lawful(suite) && Seals(suite, Run(suite, secret, sealer), op, b, p)
    ensures var e := Run(suite, secret, opener);
            && Open(suite, e, b, claim).1 == OpenSpec(b.required, claim, p)
            && OpenBatch(suite, e, [b], claim).1 == BatchSpec([b], [p], claim)
            && ParallelOpen(suite, [b], claim, secret) == BatchSpec([b], [p], claim)
  {
    hide Lawful, Seals, Run, Open, OpenBatch, ParallelOpen, BatchSpec, Sound, SealedFor;
    RunIsSound(suite, secret, sealer);
    RunIsSound(suite, secret, opener);
    SealsAreSealedFor(suite, Run(suite, secret, sealer), op, b, p);
    OpenIsExact(suite, Run(suite, secret, opener), b, p, claim);
    BatchOpensAreExact(suite, Run(suite, secret, opener), [b], [p], claim);
  }

  /** The same for the engine-free parallel path. */
  lemma ParallelSealedOpensAnywhere(suite: Suite, secret: Bytes, ps: seq<Bytes>, required: Clearance, ephemerals: nat -> Bytes, nonces: nat -> Bytes,
                                    opener: seq<Op>, claim: JisClaim)
    requires Lawful(suite)
    ensures var bs := ParallelSeal(suite, ps, secret, required, ephemerals, nonces);
            var e := Run(suite, secret, opener);
            && |bs| == |ps|
            && (forall i | 0 <= i < |ps| :: Open(suite, e, bs[i], claim).1 == OpenSpec(required, claim, ps[i]))
            && OpenBatch(suite, e, bs, claim).1 == BatchSpec(bs, ps, claim) == ParallelOpen(suite, bs, claim, secret)
  {
    hide Lawful, Run, Open, OpenBatch, ParallelOpen, BatchSpec, Sound, SealedFor, ParallelSeal;
    ParallelSealIsSound(suite, ps, secret, required, ephemerals, nonces);
    RunIsSound(suite, secret, opener);
    var bs := ParallelSeal(suite, ps, secret, required, ephemerals, nonces);
    forall i | 0 <= i < |ps|
      ensures Open(suite, Run(suite, secret, opener), bs[i], claim).1 == OpenSpec(required, claim, ps[i])
    {
      OpenIsExact(suite, Run(suite, secret, opener), bs[i], ps[i], claim);
    }
    BatchOpensAreExact(suite, Run(suite, secret, opener), bs, ps, claim);
  }
}
