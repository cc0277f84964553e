/** The key cache and the sealing engine of bifurcation.rs as objects. */
module Airlock {
  import opened Prelude
  import opened Bifurcation

  class KeyCache {
    var derivedKeys: map<(Bytes, nat), Bytes>
    const maxEntries: nat
    var hits: nat
    var misses: nat

    constructor (maxEntries: nat)
      ensures Value() == CacheValue(map[], maxEntries, 0, 0)
    {
      this.maxEntries := maxEntries;
      derivedKeys, hits, misses := map[], 0, 0;
    }

    ghost function Value(): CacheValue
      reads this
    {
      CacheValue(derivedKeys, maxEntries, hits, misses)
    }

    method Get(ephemeralPub: Bytes, index: nat) returns (key: Option<Bytes>)
      modifies this
      ensures (Value(), key) == CacheGet(old(Value()), ephemeralPub, index)
    {
      if (ephemeralPub, index) in derivedKeys {
        hits := hits + 1;
        key := Some(derivedKeys[(ephemeralPub, index)]);
      } else {
        misses := misses + 1;
        key := None;
      }
    }

    method Put(ephemeralPub: Bytes, index: nat, key: Bytes)
      modifies this
      ensures Value() == CachePut(old(Value()), ephemeralPub, index, key)
    {
      if |derivedKeys| >= maxEntries {
        derivedKeys := map[];
      }
      derivedKeys := derivedKeys[(ephemeralPub, index) := key];
    }

    method Flush()
      modifies this
      ensures Value() == CacheFlush(old(Value()))
    {
      derivedKeys, hits, misses := map[], 0, 0;
    }
  }

  class AirlockBifurcation {
    const suite: Suite
    const secret: Bytes
    const pub: Bytes
    const keyCache: KeyCache
    var session: Option<SessionKey>
    var blocksSealed: nat
    var blocksOpened: nat
    var accessDenied: nat
    var integrityFailures: nat
    var invalidClaims: nat

    ghost function State(): Engine
      reads this, keyCache
    {
      Engine(secret, pub, keyCache.Value(), session,
             Stats(blocksSealed, blocksOpened, accessDenied, integrityFailures, invalidClaims))
    }

    constructor (suite: Suite, secret: Bytes)
      ensures this.suite == suite && fresh(keyCache)
      ensures State() == NewEngine(suite, secret)
    {
      this.suite, this.secret, pub := suite, secret, suite.publicKey(secret);
      keyCache := new KeyCache(MAX_CACHED_KEYS);
      session := None;
      blocksSealed, blocksOpened, accessDenied, integrityFailures, invalidClaims := 0, 0, 0, 0, 0;
    }

    /** Ephemeral secret and nonce are the random inputs of a seal. */
    method SealBlock(plaintext: Bytes, index: nat, required: Clearance, ephemeral: Bytes, nonce: Bytes) returns (b: EncryptedBlock)
      modifies this, keyCache
      ensures (State(), b) == Seal(suite, old(State()), plaintext, index, required, ephemeral, nonce)
    {
      var ephemeralPub := suite.publicKey(ephemeral);
      var shared := suite.dh(ephemeral, pub);
      var key := BlockKey(suite, shared, index);
      keyCache.Put(ephemeralPub, index, key);
      b := EncryptedBlock(index, ephemeralPub, nonce, required, suite.sha256(plaintext), suite.encrypt(key, nonce, plaintext));
      blocksSealed := blocksSealed + 1;
    }

    /** Reuse the current session, or replace it when it is missing, used up or too old. */
    method EnsureSession(ephemeral: Bytes, expired: bool) returns (s: SessionKey)
      modifies this`session
      ensures s == SessionFor(suite, old(State()), ephemeral, expired) && session == Some(s)
    {
      if session.None? || session.value.blocksSealed >= session.value.maxBlocks || expired {
        session := Some(SessionKey(suite.dh(ephemeral, pub), suite.publicKey(ephemeral), 0, SESSION_BLOCKS));
      }
      s := session.value;
    }

    method SealWithSession(plaintext: Bytes, index: nat, required: Clearance, ephemeral: Bytes, expired: bool, nonce: Bytes) returns (b: EncryptedBlock)
      modifies this, keyCache
      ensures (State(), b) == SealSession(suite, old(State()), plaintext, index, required, ephemeral, expired, nonce)
    {
      var s := EnsureSession(ephemeral, expired);
      var key := BlockKey(suite, s.sharedSecret, index);
      session := Some(s.(blocksSealed := s.blocksSealed + 1));
      keyCache.Put(s.ephemeralPub, index, key);
      b := EncryptedBlock(index, s.ephemeralPub, nonce, required, suite.sha256(plaintext), suite.encrypt(key, nonce, plaintext));
      blocksSealed := blocksSealed + 1;
    }

    method RotateSession()
      modifies this
      ensures State() == Step(suite, old(State()), RotateOp)
    {
      session := None;
    }

    method OpenBlock(b: EncryptedBlock, claim: JisClaim) returns (r: OpenResult)
      modifies this, keyCache
      ensures (State(), r) == Open(suite, old(State()), b, claim)
    {
      if claim.identity == "" || |claim.ed25519Pub| != PUB_HEX_LENGTH {
        invalidClaims := invalidClaims + 1;
        return ClaimInvalid;
      }
      if claim.clearance.Level() < b.required.Level() {
        accessDenied := accessDenied + 1;
        return AccessDenied(b.required, claim.clearance);
      }
      var key: Bytes;
      var cached := keyCache.Get(b.ephemeralPub, b.index);
      if cached.Some? {
        key := cached.value;
      } else {
        key := BlockKey(suite, suite.dh(secret, b.ephemeralPub), b.index);
        keyCache.Put(b.ephemeralPub, b.index, key);
      }
      var plaintext := suite.decrypt(key, b.nonce, b.ciphertext);
      if plaintext.None? {
        return DecryptAborted;
      }
      if suite.sha256(plaintext.value) != b.plaintextHash {
        integrityFailures := integrityFailures + 1;
        return IntegrityFailed;
      }
      blocksOpened := blocksOpened + 1;
      r := Opened(plaintext.value, claim.identity);
    }

    /** Cache the keys of freshly sealed session blocks for a later open. */
    method CacheKeysOf(blocks: seq<EncryptedBlock>, s: SessionKey)
      requires forall i: nat | i < |blocks| :: blocks[i].index == i && blocks[i].ephemeralPub == s.ephemeralPub
      modifies keyCache
      ensures keyCache.Value() == CacheSessionKeys(suite, old(keyCache.Value()), s, |blocks|)
    {
      hide CachePut;
      for i := 0 to |blocks|
        invariant keyCache.Value() == CacheSessionKeys(suite, old(keyCache.Value()), s, i)
      {
        keyCache.Put(blocks[i].ephemeralPub, blocks[i].index, BlockKey(suite, s.sharedSecret, blocks[i].index));
      }
    }

    method SealMany(plaintexts: seq<Bytes>, required: Clearance, ephemeral: Bytes, expired: bool, nonces: nat -> Bytes) returns (blocks: seq<EncryptedBlock>)
      modifies this, keyCache
      ensures (State(), blocks) == SealBatch(suite, old(State()), plaintexts, required, ephemeral, expired, nonces)
    {
      hide CacheSessionKeys, SessionFor;
      var s := EnsureSession(ephemeral, expired);
      blocks := SealAll(suite, s, plaintexts, required, nonces);
      blocksSealed := blocksSealed + |plaintexts|;
      session := Some(s.(blocksSealed := s.blocksSealed + |plaintexts|));
      CacheKeysOf(blocks, s);
    }

    /** Look up every block's key before opening any. */
    method PrefetchKeys(blocks: seq<EncryptedBlock>) returns (keys: seq<Option<Bytes>>)
      modifies keyCache
      ensures (keyCache.Value(), keys) == Prefetch(old(keyCache.Value()), blocks)
    {
      keys := [];
      ghost var c0 := keyCache.Value();
      assert blocks[0..] == blocks && [] + Prefetch(c0, blocks).1 == Prefetch(c0, blocks).1;
      for i := 0 to |blocks|
        invariant |keys| == i
        invariant Prefetch(c0, blocks) == (Prefetch(keyCache.Value(), blocks[i..]).0, keys + Prefetch(keyCache.Value(), blocks[i..]).1)
      {
        ghost var rest := blocks[i..];
        assert rest[0] == blocks[i] && rest[1..] == blocks[i + 1..];
        var key := keyCache.Get(blocks[i].ephemeralPub, blocks[i].index);
        ghost var more := Prefetch(keyCache.Value(), blocks[i + 1..]).1;
        assert keys + ([key] + more) == (keys + [key]) + more;
        keys := keys + [key];
      }
      assert keys + [] == keys;
    }

    method OpenMany(blocks: seq<EncryptedBlock>, claim: JisClaim) returns (r: BatchOpened)
      modifies this, keyCache
      ensures (State(), r) == OpenBatch(suite, old(State()), blocks, claim)
    {
      hide OpenEach, Prefetch;
      if claim.identity == "" || |claim.ed25519Pub| != PUB_HEX_LENGTH {
        return BatchOpened([], |blocks|);
      }
      var keys := PrefetchKeys(blocks);
      r := OpenEach(suite, secret, blocks, keys, claim);
      if r.BatchOpened? {
        blocksOpened := blocksOpened + |r.plaintexts|;
        accessDenied := accessDenied + r.denied;
      }
    }
  }
}
