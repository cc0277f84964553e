/** What the engine's keys, sessions, cache and counters come to over runs, and what an open says of any block at all. */
module BifurcationRuns {
  import opened Prelude
  import opened Bifurcation
  import opened BifurcationProofs

  // ---------------------------------------------------------------- one key for each block

  /** The key of block index under a shared secret, by its info string written out. */
  function KeyUnder(suite: Suite, shared: Bytes, index: nat): Bytes
  {
    suite.hkdf(shared, Ascii("tibet-bifurcation-v1-block-") + LittleEndian(index, 8))
  }

  /**
   Two blocks sealed one after the other under one session share its secret but not their keys: each is encrypted under
   the info string of its own index, and different 64-bit indices have different info strings.
   */
  lemma SessionBlocksHaveOwnKeys(suite: Suite, e: Engine, p: Bytes, i: nat, q: Bytes, j: nat, required: Clearance,
                                 ephemeral: Bytes, expired: bool, nonce: Bytes, ephemeral2: Bytes, nonce2: Bytes)
    requires Lawful(suite) && Sound(suite, e) && i < Pow256(8) && j < Pow256(8)
    requires var e1 := SealSession(suite, e, p, i, required, ephemeral, expired, nonce).0;
             e1.session.Some? && e1.session.value.blocksSealed < e1.session.value.maxBlocks
    ensures var (e1, b1) := SealSession(suite, e, p, i, required, ephemeral, expired, nonce);
            var b2 := SealSession(suite, e1, q, j, required, ephemeral2, false, nonce2).1;
            var shared := suite.dh(e.secret, b1.ephemeralPub);
            && b2.ephemeralPub == b1.ephemeralPub
            && b1.ciphertext == suite.encrypt(KeyUnder(suite, shared, i), nonce, p)
            && b2.ciphertext == suite.encrypt(KeyUnder(suite, shared, j), nonce2, q)
            && (Info(i) == Info(j) <==> i == j)
  {
    SealSessionIsSound(suite, e, p, i, required, ephemeral, expired, nonce);
    var e1 := SealSession(suite, e, p, i, required, ephemeral, expired, nonce).0;
    SealSessionIsSound(suite, e1, q, j, required, ephemeral2, false, nonce2);
    InfoIsInjective(i, j);
  }

  /** Every block of a batch is encrypted under the info string of its own position. */
  lemma BatchBlocksHaveOwnKeys(suite: Suite, e: Engine, ps: seq<Bytes>, required: Clearance, ephemeral: Bytes, expired: bool,
                               nonces: nat -> Bytes, i: nat, j: nat)
    requires Lawful(suite) && Sound(suite, e) && i < |ps| && j < |ps| && |ps| < Pow256(8)
    ensures var bs := SealBatch(suite, e, ps, required, ephemeral, expired, nonces).1;
            && |bs| == |ps|
            && bs[i].ciphertext == suite.encrypt(KeyUnder(suite, suite.dh(e.secret, bs[0].ephemeralPub), i), nonces(i), ps[i])
            && (Info(bs[i].index) == Info(bs[j].index) <==> i == j)
  {
    hide SealBatch, Pow256;
    SealBatchIsSound(suite, e, ps, required, ephemeral, expired, nonces);
    InfoIsInjective(i, j);
  }

  // ---------------------------------------------------------------- the cache

  /** A key that was put is found again; the others stay exactly when there was room, and flushing forgets everything. */
  lemma CacheRemembers(c: CacheValue, ephemeralPub: Bytes, index: nat, key: Bytes, other: (Bytes, nat))
    ensures CacheGet(CachePut(c, ephemeralPub, index, key), ephemeralPub, index).1 == Some(key)
    ensures other != (ephemeralPub, index) ==>
              CacheGet(CachePut(c, ephemeralPub, index, key), other.0, other.1).1
              == if |c.keys| < c.maxEntries then CacheGet(c, other.0, other.1).1 else None
    ensures CacheGet(CacheFlush(c), other.0, other.1).1 == None
  {
  }

  /** Every lookup is a hit or a miss, counted once, and changes no key. */
  lemma LookupIsCounted(c: CacheValue, ephemeralPub: Bytes, index: nat)
    ensures var (c1, key) := CacheGet(c, ephemeralPub, index);
            && c1.keys == c.keys && c1.maxEntries == c.maxEntries
            && c1.hits + c1.misses == c.hits + c.misses + 1
            && (key.Some? <==> c1.hits == c.hits + 1) && (key.None? <==> c1.misses == c.misses + 1)
  {
  }

  /** An engine finds the key of a block it has just sealed, or has just opened, without deriving it. */
  lemma SealedAndOpenedAreCached(suite: Suite, e: Engine, p: Bytes, index: nat, required: Clearance, ephemeral: Bytes,
                                 expired: bool, nonce: Bytes, b: EncryptedBlock, claim: JisClaim)
    ensures var (e1, b1) := Seal(suite, e, p, index, required, ephemeral, nonce);
            CacheGet(e1.cache, b1.ephemeralPub, index).1.Some?
    ensures var (e1, b1) := SealSession(suite, e, p, index, required, ephemeral, expired, nonce);
            CacheGet(e1.cache, b1.ephemeralPub, index).1.Some?
    ensures Open(suite, e, b, claim).1.Opened? ==> CacheGet(Open(suite, e, b, claim).0.cache, b.ephemeralPub, b.index).1.Some?
  {
    hide BlockKey, Reveal, SessionFor, FreshKey;
  }

  /** An open that is let through looks its key up once: a hit leaves the keys as they are, a miss adds this one. A refused
      open leaves the cache alone. */
  lemma OpenLooksUpOnce(suite: Suite, e: Engine, b: EncryptedBlock, claim: JisClaim)
    ensures var c, c1 := e.cache, Open(suite, e, b, claim).0.cache;
            var through := claim.identity != "" && |claim.ed25519Pub| == 64 && b.required in Covers(claim.clearance);
            var found := (b.ephemeralPub, b.index) in c.keys;
            && (!through ==> c1 == c)
            && (through && found ==> c1 == c.(hits := c.hits + 1))
            && (through && !found ==>
                  c1 == CachePut(c.(misses := c.misses + 1), b.ephemeralPub, b.index, FreshKey(suite, e.secret, b.ephemeralPub, b.index)))
  {
    hide Reveal, FreshKey, CachePut;
    ClearedIffCovered(claim, b.required);
  }

  /** The batch path looks every block up and adds no key. */
  lemma {:induction false} BatchLooksUpEach(c: CacheValue, blocks: seq<EncryptedBlock>)
    ensures var (c1, keys) := Prefetch(c, blocks);
            && c1 == c.(hits := c1.hits, misses := c1.misses) && c1.hits + c1.misses == c.hits + c.misses + |blocks|
            && (forall k | 0 <= k < |blocks| ::
                  keys[k] == (if (blocks[k].ephemeralPub, blocks[k].index) in c.keys
                              then Some(c.keys[(blocks[k].ephemeralPub, blocks[k].index)]) else None))
    decreases |blocks|
  {
    if blocks != [] {
      var (c1, key) := CacheGet(c, blocks[0].ephemeralPub, blocks[0].index);
      BatchLooksUpEach(c1, blocks[1..]);
    }
  }

  /** A batch open counts its lookups, one for each block, unless the claim is malformed. */
  lemma OpenBatchLooksUpEach(suite: Suite, e: Engine, blocks: seq<EncryptedBlock>, claim: JisClaim)
    ensures var c, c1 := e.cache, OpenBatch(suite, e, blocks, claim).0.cache;
            if claim.identity != "" && |claim.ed25519Pub| == 64
            then c1 == c.(hits := c1.hits, misses := c1.misses) && c1.hits + c1.misses == c.hits + c.misses + |blocks|
            else c1 == c
  {
    hide OpenEach;
    BatchLooksUpEach(e.cache, blocks);
  }

  lemma PutGrowth(c: CacheValue, ephemeralPub: Bytes, index: nat, key: Bytes)
    ensures |CachePut(c, ephemeralPub, index, key).keys| <= |c.keys| + 1
  {
    var room: map<(Bytes, nat), Bytes> := if |c.keys| >= c.maxEntries then map[] else c.keys;
    var k := (ephemeralPub, index);
    assert room[k := key].Keys == room.Keys + {k};
    assert |room[k := key]| == |room[k := key].Keys| <= |room.Keys| + 1;
  }

  lemma {:induction false} CachingGrowth(suite: Suite, c: CacheValue, s: SessionKey, n: nat)
    ensures |CacheSessionKeys(suite, c, s, n).keys| <= |c.keys| + n
  {
    hide CachePut, BlockKey;
    if n > 0 {
      CachingGrowth(suite, c, s, n - 1);
      PutGrowth(CacheSessionKeys(suite, c, s, n - 1), s.ephemeralPub, n - 1, BlockKey(suite, s.sharedSecret, n - 1));
    }
  }

  /** After a batch is sealed the key of its last block is cached, and if there was room the keys of all its blocks are. */
  lemma {:induction false} SessionKeysAreCached(suite: Suite, c: CacheValue, s: SessionKey, n: nat, k: nat)
    requires k < n && (k == n - 1 || |c.keys| + n <= c.maxEntries)
    ensures CacheGet(CacheSessionKeys(suite, c, s, n), s.ephemeralPub, k).1 == Some(BlockKey(suite, s.sharedSecret, k))
  {
    hide CachePut, BlockKey, CacheGet;
    var before := CacheSessionKeys(suite, c, s, n - 1);
    CacheRemembers(before, s.ephemeralPub, n - 1, BlockKey(suite, s.sharedSecret, n - 1), (s.ephemeralPub, k));
    if k < n - 1 {
      CachingGrowth(suite, c, s, n - 1);
      CachingKeepsLimit(suite, c, s, n - 1);
      SessionKeysAreCached(suite, c, s, n - 1, k);
    }
  }

  lemma SealedBatchIsCached(suite: Suite, e: Engine, ps: seq<Bytes>, required: Clearance, ephemeral: Bytes, expired: bool,
                            nonces: nat -> Bytes, k: nat)
    requires k < |ps| && (k == |ps| - 1 || |e.cache.keys| + |ps| <= e.cache.maxEntries)
    ensures var (e1, bs) := SealBatch(suite, e, ps, required, ephemeral, expired, nonces);
            |bs| == |ps| && bs[k].index == k && CacheGet(e1.cache, bs[k].ephemeralPub, k).1.Some?
  {
    hide BlockKey, CacheSessionKeys, CacheGet;
    SessionKeysAreCached(suite, e.cache, SessionFor(suite, e, ephemeral, expired), |ps|, k);
  }

  // ---------------------------------------------------------------- sessions

  /** Over every run a session is limited to a hundred thousand blocks, and the cache to 16384 keys. */
  lemma {:induction false} RunLimits(suite: Suite, secret: Bytes, ops: seq<Op>)
    ensures var e := Run(suite, secret, ops);
            && (e.session.Some? ==> e.session.value.maxBlocks == 100_000)
            && e.cache.maxEntries == 16384
  {
    if ops != [] {
      var before := ops[..|ops| - 1];
      RunLimits(suite, secret, before);
      hide Run;
      StepKeepsLimits(suite, Run(suite, secret, before), ops[|ops| - 1]);
    }
  }

  lemma StepKeepsLimits(suite: Suite, e: Engine, op: Op)
    requires e.session.Some? ==> e.session.value.maxBlocks == 100_000
    ensures var e1 := Step(suite, e, op);
            && (e1.session.Some? ==> e1.session.value.maxBlocks == 100_000)
            && e1.cache.maxEntries == e.cache.maxEntries
  {
    hide BlockKey, Reveal, OpenEach, FreshKey;
    match op
    case SealBatchOp(ps, required, eph, expired, nonces) =>
      CachingKeepsLimit(suite, e.cache, SessionFor(suite, e, eph, expired), |ps|);
    case OpenBatchOp(bs, claim) => LookupsKeepLimit(e.cache, bs);
    case _ =>
  }

  lemma {:induction false} CachingKeepsLimit(suite: Suite, c: CacheValue, s: SessionKey, n: nat)
    ensures CacheSessionKeys(suite, c, s, n).maxEntries == c.maxEntries
  {
    if n > 0 { CachingKeepsLimit(suite, c, s, n - 1); }
  }

  lemma {:induction false} LookupsKeepLimit(c: CacheValue, bs: seq<EncryptedBlock>)
    ensures Prefetch(c, bs).0.maxEntries == c.maxEntries
    decreases |bs|
  {
    if bs != [] { LookupsKeepLimit(CacheGet(c, bs[0].ephemeralPub, bs[0].index).0, bs[1..]); }
  }

  /**
   After any run a session seal goes under the current session exactly when there is one, it has sealed fewer than a
   hundred thousand blocks and is not too old; otherwise under a new session made from the ephemeral secret at hand. The
   same decides for a batch, and the blocks sealed are counted against the session.
   */
  lemma SessionRotatesIff(suite: Suite, secret: Bytes, ops: seq<Op>, p: Bytes, index: nat, required: Clearance,
                          ephemeral: Bytes, expired: bool, nonce: Bytes, ps: seq<Bytes>, nonces: nat -> Bytes)
    ensures var e := Run(suite, secret, ops);
            var kept := e.session.Some? && e.session.value.blocksSealed < 100_000 && !expired;
            var (e1, b) := SealSession(suite, e, p, index, required, ephemeral, expired, nonce);
            var (e2, bs) := SealBatch(suite, e, ps, required, ephemeral, expired, nonces);
            && e1.session.Some? && e2.session.Some? && |bs| == |ps|
            && b.ephemeralPub == (if kept then e.session.value.ephemeralPub else suite.publicKey(ephemeral))
            && e1.session.value.ephemeralPub == b.ephemeralPub
            && e1.session.value.blocksSealed == (if kept then e.session.value.blocksSealed else 0) + 1
            && (forall k | 0 <= k < |bs| :: bs[k].ephemeralPub == b.ephemeralPub)
            && e2.session.value.ephemeralPub == b.ephemeralPub
            && e2.session.value.blocksSealed == (if kept then e.session.value.blocksSealed else 0) + |ps|
  {
    hide Run, BlockKey, CachePut, CacheSessionKeys;
    RunLimits(suite, secret, ops);
  }

  /** Rotating ends the session, so that the next seal starts a new one, and flushing forgets every cached key. */
  lemma RotateAndFlush(suite: Suite, secret: Bytes, ops: seq<Op>, ephemeralPub: Bytes, index: nat)
    ensures Run(suite, secret, ops + [RotateOp]).session == None
    ensures Run(suite, secret, ops + [RotateOp]).cache == Run(suite, secret, ops).cache
    ensures CacheGet(Run(suite, secret, ops + [FlushOp]).cache, ephemeralPub, index).1 == None
    ensures Run(suite, secret, ops + [FlushOp]).session == Run(suite, secret, ops).session
  {
    assert (ops + [RotateOp])[..|ops|] == ops && (ops + [FlushOp])[..|ops|] == ops;
  }

  // ---------------------------------------------------------------- opening any block

  /** The clearances a claim covers: its own and those below it. */
  function Covers(c: Clearance): set<Clearance>
  {
    match c
    case Unclassified => {Unclassified}
    case Restricted => {Unclassified, Restricted}
    case Confidential => {Unclassified, Restricted, Confidential}
    case Secret => {Unclassified, Restricted, Confidential, Secret}
    case TopSecret => {Unclassified, Restricted, Confidential, Secret, TopSecret}
  }

  lemma ClearedIffCovered(claim: JisClaim, required: Clearance)
    ensures Cleared(claim, required) <==> required in Covers(claim.clearance)
  {
  }

  /** A block that was sealed opens exactly for a claim with an identity, a 64-digit public key and a covering clearance. */
  lemma OpensExactlyFor(suite: Suite, e: Engine, b: EncryptedBlock, p: Bytes, claim: JisClaim)
    requires Lawful(suite) && Sound(suite, e) && SealedFor(suite, e.secret, b, p)
    ensures Open(suite, e, b, claim).1 == Opened(p, claim.identity) <==>
              claim.identity != "" && |claim.ed25519Pub| == 64 && b.required in Covers(claim.clearance)
    ensures Open(suite, e, b, claim).1 == ClaimInvalid <==> claim.identity == "" || |claim.ed25519Pub| != 64
    ensures Open(suite, e, b, claim).1 == AccessDenied(b.required, claim.clearance) <==>
              claim.identity != "" && |claim.ed25519Pub| == 64 && b.required !in Covers(claim.clearance)
  {
    hide Open, Lawful, Sound, SealedFor;
    OpenIsExact(suite, e, b, p, claim);
    ClearedIffCovered(claim, b.required);
  }

  /**
   For any block at all, sealed, altered or forged: an open yields a plaintext only if the claim is good and the decrypted
   bytes have the recorded hash, and reports an integrity failure exactly when they do not.
   */
  lemma OpenedIsGenuine(suite: Suite, e: Engine, b: EncryptedBlock, claim: JisClaim)
    requires Sound(suite, e)
    ensures var r := Open(suite, e, b, claim).1;
            var key := KeyUnder(suite, suite.dh(e.secret, b.ephemeralPub), b.index);
            var plain := suite.decrypt(key, b.nonce, b.ciphertext);
            var good := claim.identity != "" && |claim.ed25519Pub| == 64 && b.required in Covers(claim.clearance);
            && (r.Opened? <==> good && plain.Some? && suite.sha256(plain.value) == b.plaintextHash)
            && (r.Opened? ==> r == Opened(plain.value, claim.identity))
            && (r.IntegrityFailed? <==> good && plain.Some? && suite.sha256(plain.value) != b.plaintextHash)
            && (r.DecryptAborted? <==> good && plain.None?)
  {
    hide KeyFor, Sound;
    KeyForIsFresh(suite, e, b);
    ClearedIffCovered(claim, b.required);
  }

  /** A batch yields nothing else: each plaintext is the decryption of some block and has its recorded hash, and a claim
      that is not good for a block never sees it. */
  lemma {:induction false} BatchOpenedIsGenuine(suite: Suite, secret: Bytes, blocks: seq<EncryptedBlock>, keys: seq<Option<Bytes>>, claim: JisClaim)
    requires KeysFresh(suite, secret, blocks, keys)
    ensures var r := OpenEach(suite, secret, blocks, keys, claim);
            r.BatchOpened? ==> forall q | q in r.plaintexts ::
              exists i | 0 <= i < |blocks| ::
                && blocks[i].required in Covers(claim.clearance) && suite.sha256(q) == blocks[i].plaintextHash
                && suite.decrypt(FreshKey(suite, secret, blocks[i].ephemeralPub, blocks[i].index), blocks[i].nonce, blocks[i].ciphertext) == Some(q)
    decreases |blocks|
  {
    hide FreshKey;
    if blocks != [] {
      BatchOpenedIsGenuine(suite, secret, blocks[1..], keys[1..], claim);
      ClearedIffCovered(claim, blocks[0].required);
      var r, rest := OpenEach(suite, secret, blocks, keys, claim), OpenEach(suite, secret, blocks[1..], keys[1..], claim);
      if r.BatchOpened? {
        forall q | q in r.plaintexts
          ensures exists i | 0 <= i < |blocks| ::
                    && blocks[i].required in Covers(claim.clearance) && suite.sha256(q) == blocks[i].plaintextHash
                    && suite.decrypt(FreshKey(suite, secret, blocks[i].ephemeralPub, blocks[i].index), blocks[i].nonce, blocks[i].ciphertext) == Some(q)
        {
          if q in rest.plaintexts {
            var i :| 0 <= i < |blocks[1..]| && blocks[1..][i].required in Covers(claim.clearance)
                     && suite.sha256(q) == blocks[1..][i].plaintextHash
                     && suite.decrypt(FreshKey(suite, secret, blocks[1..][i].ephemeralPub, blocks[1..][i].index), blocks[1..][i].nonce, blocks[1..][i].ciphertext) == Some(q);
            assert blocks[i + 1] == blocks[1..][i];
          }
        }
      }
    }
  }

  // ---------------------------------------------------------------- counters

  /** What one operation adds to the counters, told from what it returns. */
  function Tally(suite: Suite, e: Engine, op: Op): Stats
  {
    match op
    case SealOp(_, _, _, _, _) => Stats(1, 0, 0, 0, 0)
    case SealSessionOp(_, _, _, _, _, _) => Stats(1, 0, 0, 0, 0)
    case SealBatchOp(ps, _, _, _, _) => Stats(|ps|, 0, 0, 0, 0)
    case OpenOp(b, claim) =>
      (match Open(suite, e, b, claim).1
       case Opened(_, _) => Stats(0, 1, 0, 0, 0)
       case AccessDenied(_, _) => Stats(0, 0, 1, 0, 0)
       case IntegrityFailed => Stats(0, 0, 0, 1, 0)
       case ClaimInvalid => Stats(0, 0, 0, 0, 1)
       case DecryptAborted => Stats(0, 0, 0, 0, 0))
    case OpenBatchOp(bs, claim) =>
      (match OpenBatch(suite, e, bs, claim).1
       case BatchOpened(ps, denied) =>
         if claim.identity != "" && |claim.ed25519Pub| == 64 then Stats(0, |ps|, denied, 0, 0) else Stats(0, 0, 0, 0, 0)
       case BatchAborted => Stats(0, 0, 0, 0, 0))
    case _ => Stats(0, 0, 0, 0, 0)
  }

  function Plus(a: Stats, b: Stats): Stats
  {
    Stats(a.blocksSealed + b.blocksSealed, a.blocksOpened + b.blocksOpened, a.accessDenied + b.accessDenied,
          a.integrityFailures + b.integrityFailures, a.invalidClaims + b.invalidClaims)
  }

  function TallyRun(suite: Suite, secret: Bytes, ops: seq<Op>): Stats
  {
    if ops == [] then Stats(0, 0, 0, 0, 0)
    else
      var before := ops[..|ops| - 1];
      Plus(TallyRun(suite, secret, before), Tally(suite, Run(suite, secret, before), ops[|ops| - 1]))
  }

  /** Over every run the counters are the tallies of what the operations returned. */
  lemma {:induction false} RunTallies(suite: Suite, secret: Bytes, ops: seq<Op>)
    ensures Run(suite, secret, ops).stats == TallyRun(suite, secret, ops)
  {
    hide BlockKey, Reveal, OpenEach, FreshKey, CachePut, CacheSessionKeys, SealAll;
    if ops != [] {
      RunTallies(suite, secret, ops[..|ops| - 1]);
      StepTallies(suite, Run(suite, secret, ops[..|ops| - 1]), ops[|ops| - 1]);
      hide Step, Tally;
    }
  }

  lemma StepTallies(suite: Suite, e: Engine, op: Op)
    ensures Step(suite, e, op).stats == Plus(e.stats, Tally(suite, e, op))
  {
    hide BlockKey, OpenEach, FreshKey, CachePut, CacheSessionKeys, SealAll, Envelope, SessionFor;
  }
}
