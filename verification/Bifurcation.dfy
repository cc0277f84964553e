/** Encrypt-by-default sealing and identity-gated opening (bifurcation.rs) as functions on the engine's state. */
module Bifurcation {
  import opened Prelude

  /** The cryptographic library, as an input. */
  datatype Suite = Suite(
    publicKey: Bytes -> Bytes,
    dh: (Bytes, Bytes) -> Bytes,
    hkdf: (Bytes, Bytes) -> Bytes,
    sha256: Bytes -> Bytes,
    encrypt: (Bytes, Bytes, Bytes) -> Bytes,
    decrypt: (Bytes, Bytes, Bytes) -> Option<Bytes>)

  /** Key agreement commutes (section 6.1 of RFC 7748) and decryption undoes encryption. */
  ghost predicate Lawful(suite: Suite)
  {
    && (forall a: Bytes, b: Bytes :: suite.dh(a, suite.publicKey(b)) == suite.dh(b, suite.publicKey(a)))
    && (forall k: Bytes, n: Bytes, p: Bytes :: suite.decrypt(k, n, suite.encrypt(k, n, p)) == Some(p))
  }

  const HKDF_INFO_PREFIX: string := "tibet-bifurcation-v1-block-"

  function Ascii(s: string): (b: Bytes)
    ensures |b| == |s|
  {
    seq(|s|, i requires 0 <= i < |s| => (s[i] as int % 256) as Byte)
  }

  /** The HKDF info string: a prefix and the block index as eight little-endian bytes. */
  function Info(index: nat): Bytes
  {
    Ascii(HKDF_INFO_PREFIX) + LittleEndian(index, 8)
  }

  function BlockKey(suite: Suite, shared: Bytes, index: nat): Bytes
  {
    suite.hkdf(shared, Info(index))
  }

  /** The key a full derivation from the system secret gives for a block. */
  function FreshKey(suite: Suite, secret: Bytes, ephemeralPub: Bytes, index: nat): Bytes
  {
    BlockKey(suite, suite.dh(secret, ephemeralPub), index)
  }

  datatype Clearance = Unclassified | Restricted | Confidential | Secret | TopSecret
  {
    function Level(): nat
    {
      match this
      case Unclassified => 0
      case Restricted => 1
      case Confidential => 2
      case Secret => 3
      case TopSecret => 4
    }
  }

  datatype JisClaim = JisClaim(identity: string, ed25519Pub: string, clearance: Clearance)

  const PUB_HEX_LENGTH: nat := 64

  predicate WellFormedClaim(claim: JisClaim)
  {
    claim.identity != "" && |claim.ed25519Pub| == PUB_HEX_LENGTH
  }

  predicate Cleared(claim: JisClaim, required: Clearance)
  {
    claim.clearance.Level() >= required.Level()
  }

  datatype EncryptedBlock = EncryptedBlock(
    index: nat,
    ephemeralPub: Bytes,
    nonce: Bytes,
    required: Clearance,
    plaintextHash: Bytes,
    ciphertext: Bytes)

  // ---------------------------------------------------------------- the derived-key cache

  datatype CacheValue = CacheValue(keys: map<(Bytes, nat), Bytes>, maxEntries: nat, hits: nat, misses: nat)

  const MAX_CACHED_KEYS: nat := 16384

  function CacheGet(c: CacheValue, ephemeralPub: Bytes, index: nat): (CacheValue, Option<Bytes>)
  {
    if (ephemeralPub, index) in c.keys then (c.(hits := c.hits + 1), Some(c.keys[(ephemeralPub, index)]))
    else (c.(misses := c.misses + 1), None)
  }

  /** A full cache is emptied before the new key goes in. */
  function CachePut(c: CacheValue, ephemeralPub: Bytes, index: nat, key: Bytes): CacheValue
  {
    var room := if |c.keys| >= c.maxEntries then map[] else c.keys;
    c.(keys := room[(ephemeralPub, index) := key])
  }

  function CacheFlush(c: CacheValue): CacheValue
  {
    CacheValue(map[], c.maxEntries, 0, 0)
  }

  // ---------------------------------------------------------------- the engine

  datatype SessionKey = SessionKey(sharedSecret: Bytes, ephemeralPub: Bytes, blocksSealed: nat, maxBlocks: nat)

  const SESSION_BLOCKS: nat := 100_000

  datatype Stats = Stats(blocksSealed: nat, blocksOpened: nat, accessDenied: nat, integrityFailures: nat, invalidClaims: nat)

  datatype Engine = Engine(secret: Bytes, pub: Bytes, cache: CacheValue, session: Option<SessionKey>, stats: Stats)

  function NewEngine(suite: Suite, secret: Bytes): Engine
  {
    Engine(secret, suite.publicKey(secret), CacheValue(map[], MAX_CACHED_KEYS, 0, 0), None, Stats(0, 0, 0, 0, 0))
  }

  /** The envelope all sealing paths build, under a given key. */
  function Envelope(suite: Suite, key: Bytes, plaintext: Bytes, index: nat, ephemeralPub: Bytes, nonce: Bytes, required: Clearance): EncryptedBlock
  {
    EncryptedBlock(index, ephemeralPub, nonce, required, suite.sha256(plaintext), suite.encrypt(key, nonce, plaintext))
  }

  function Seal(suite: Suite, e: Engine, plaintext: Bytes, index: nat, required: Clearance, ephemeral: Bytes, nonce: Bytes): (Engine, EncryptedBlock)
  {
    var ephemeralPub := suite.publicKey(ephemeral);
    var key := BlockKey(suite, suite.dh(ephemeral, e.pub), index);
    (e.(cache := CachePut(e.cache, ephemeralPub, index, key),
        stats := e.stats.(blocksSealed := e.stats.blocksSealed + 1)),
     Envelope(suite, key, plaintext, index, ephemeralPub, nonce, required))
  }

  function NewSession(suite: Suite, systemPub: Bytes, ephemeral: Bytes): SessionKey
  {
    SessionKey(suite.dh(ephemeral, systemPub), suite.publicKey(ephemeral), 0, SESSION_BLOCKS)
  }

  /** The session a sealing call works under: the current one, unless it is missing, used up or too old. */
  function SessionFor(suite: Suite, e: Engine, ephemeral: Bytes, expired: bool): SessionKey
  {
    if e.session.Some? && e.session.value.blocksSealed < e.session.value.maxBlocks && !expired
    then e.session.value
    else NewSession(suite, e.pub, ephemeral)
  }

  function SealSession(suite: Suite, e: Engine, plaintext: Bytes, index: nat, required: Clearance,
                       ephemeral: Bytes, expired: bool, nonce: Bytes): (Engine, EncryptedBlock)
  {
    var s := SessionFor(suite, e, ephemeral, expired);
    var key := BlockKey(suite, s.sharedSecret, index);
    (e.(cache := CachePut(e.cache, s.ephemeralPub, index, key),
        session := Some(s.(blocksSealed := s.blocksSealed + 1)),
        stats := e.stats.(blocksSealed := e.stats.blocksSealed + 1)),
     Envelope(suite, key, plaintext, index, s.ephemeralPub, nonce, required))
  }

  datatype OpenResult =
    | Opened(plaintext: Bytes, openedBy: string)
    | AccessDenied(required: Clearance, presented: Clearance)
    | ClaimInvalid
    | IntegrityFailed
    | DecryptAborted

  /** The key an open uses: the cached one, or a fresh derivation that is then cached. */
  function KeyFor(suite: Suite, e: Engine, b: EncryptedBlock): (Engine, Bytes)
  {
    var (c, cached) := CacheGet(e.cache, b.ephemeralPub, b.index);
    if cached.Some? then (e.(cache := c), cached.value)
    else
      var key := FreshKey(suite, e.secret, b.ephemeralPub, b.index);
      (e.(cache := CachePut(c, b.ephemeralPub, b.index, key)), key)
  }

  /** Decrypt and check the plaintext hash; a failed decryption aborts the caller. */
  function Reveal(suite: Suite, key: Bytes, b: EncryptedBlock, identity: string): OpenResult
  {
    match suite.decrypt(key, b.nonce, b.ciphertext)
    case None => DecryptAborted
    case Some(p) => if suite.sha256(p) == b.plaintextHash then Opened(p, identity) else IntegrityFailed
  }

  function Open(suite: Suite, e: Engine, b: EncryptedBlock, claim: JisClaim): (Engine, OpenResult)
  {
    if !WellFormedClaim(claim) then
      (e.(stats := e.stats.(invalidClaims := e.stats.invalidClaims + 1)), ClaimInvalid)
    else if !Cleared(claim, b.required) then
      (e.(stats := e.stats.(accessDenied := e.stats.accessDenied + 1)), AccessDenied(b.required, claim.clearance))
    else
      var (e1, key) := KeyFor(suite, e, b);
      var r := Reveal(suite, key, b, claim.identity);
      if r.Opened? then (e1.(stats := e1.stats.(blocksOpened := e1.stats.blocksOpened + 1)), r)
      else if r.IntegrityFailed? then (e1.(stats := e1.stats.(integrityFailures := e1.stats.integrityFailures + 1)), r)
      else (e1, r)
  }

  // ---------------------------------------------------------------- batches

  function SealOne(suite: Suite, s: SessionKey, plaintext: Bytes, index: nat, required: Clearance, nonce: Bytes): EncryptedBlock
  {
    Envelope(suite, BlockKey(suite, s.sharedSecret, index), plaintext, index, s.ephemeralPub, nonce, required)
  }

  /** One session seals every block of a batch, block i under index i. */
  function SealAll(suite: Suite, s: SessionKey, plaintexts: seq<Bytes>, required: Clearance, nonces: nat -> Bytes): (blocks: seq<EncryptedBlock>)
    ensures |blocks| == |plaintexts|
    ensures forall i: nat | i < |plaintexts| :: blocks[i] == SealOne(suite, s, plaintexts[i], i, required, nonces(i))
  {
    seq(|plaintexts|, i requires 0 <= i < |plaintexts| => SealOne(suite, s, plaintexts[i], i, required, nonces(i)))
  }

  /** Cache the session keys of blocks 0 to n - 1, in order. */
  function CacheSessionKeys(suite: Suite, c: CacheValue, s: SessionKey, n: nat): CacheValue
  {
    if n == 0 then c
    else CachePut(CacheSessionKeys(suite, c, s, n - 1), s.ephemeralPub, n - 1, BlockKey(suite, s.sharedSecret, n - 1))
  }

  function SealBatch(suite: Suite, e: Engine, plaintexts: seq<Bytes>, required: Clearance,
                     ephemeral: Bytes, expired: bool, nonces: nat -> Bytes): (Engine, seq<EncryptedBlock>)
  {
    var s := SessionFor(suite, e, ephemeral, expired);
    var n := |plaintexts|;
    (e.(cache := CacheSessionKeys(suite, e.cache, s, n),
        session := Some(s.(blocksSealed := s.blocksSealed + n)),
        stats := e.stats.(blocksSealed := e.stats.blocksSealed + n)),
     SealAll(suite, s, plaintexts, required, nonces))
  }

  function ParallelSeal(suite: Suite, plaintexts: seq<Bytes>, secret: Bytes, required: Clearance,
                        ephemerals: nat -> Bytes, nonces: nat -> Bytes): seq<EncryptedBlock>
  {
    var systemPub := suite.publicKey(secret);
    seq(|plaintexts|, i requires 0 <= i < |plaintexts| =>
      Envelope(suite, BlockKey(suite, suite.dh(ephemerals(i), systemPub), i), plaintexts[i], i,
               suite.publicKey(ephemerals(i)), nonces(i), required))
  }

  datatype BatchOpened = BatchOpened(plaintexts: seq<Bytes>, denied: nat) | BatchAborted

  /** Look up every block's key before any is opened; the batch path never adds keys. */
  function Prefetch(c: CacheValue, blocks: seq<EncryptedBlock>): (r: (CacheValue, seq<Option<Bytes>>))
    ensures |r.1| == |blocks|
    decreases |blocks|
  {
    if blocks == [] then (c, [])
    else
      var (c1, key) := CacheGet(c, blocks[0].ephemeralPub, blocks[0].index);
      var (c2, keys) := Prefetch(c1, blocks[1..]);
      (c2, [key] + keys)
  }

  /** Open a list of blocks under one claim: denied blocks are counted and skipped, corrupt ones skipped. */
  function OpenEach(suite: Suite, secret: Bytes, blocks: seq<EncryptedBlock>, keys: seq<Option<Bytes>>, claim: JisClaim): BatchOpened
    requires |keys| == |blocks|
    decreases |blocks|
  {
    if blocks == [] then BatchOpened([], 0)
    else
      var b := blocks[0];
      var rest := OpenEach(suite, secret, blocks[1..], keys[1..], claim);
      if rest.BatchAborted? then BatchAborted
      else if !Cleared(claim, b.required) then rest.(denied := rest.denied + 1)
      else
        var key := if keys[0].Some? then keys[0].value else FreshKey(suite, secret, b.ephemeralPub, b.index);
        match Reveal(suite, key, b, claim.identity)
        case Opened(p, _) => rest.(plaintexts := [p] + rest.plaintexts)
        case DecryptAborted => BatchAborted
        case _ => rest
  }

  function OpenBatch(suite: Suite, e: Engine, blocks: seq<EncryptedBlock>, claim: JisClaim): (Engine, BatchOpened)
  {
    if !WellFormedClaim(claim) then (e, BatchOpened([], |blocks|))
    else
      var (c, keys) := Prefetch(e.cache, blocks);
      var r := OpenEach(suite, e.secret, blocks, keys, claim);
      var e1 := e.(cache := c);
      if r.BatchAborted? then (e1, r)
      else
        (e1.(stats := e1.stats.(blocksOpened := e1.stats.blocksOpened + |r.plaintexts|,
                                accessDenied := e1.stats.accessDenied + r.denied)), r)
  }

  function NoKeys(n: nat): (keys: seq<Option<Bytes>>)
    ensures |keys| == n
  {
    seq(n, _ => None)
  }

  function ParallelOpen(suite: Suite, blocks: seq<EncryptedBlock>, claim: JisClaim, secret: Bytes): BatchOpened
  {
    if !WellFormedClaim(claim) then BatchOpened([], |blocks|)
    else OpenEach(suite, secret, blocks, NoKeys(|blocks|), claim)
  }

  // ---------------------------------------------------------------- runs

  datatype Op =
    | SealOp(plaintext: Bytes, index: nat, required: Clearance, ephemeral: Bytes, nonce: Bytes)
    | SealSessionOp(plaintext: Bytes, index: nat, required: Clearance, ephemeral: Bytes, expired: bool, nonce: Bytes)
    | SealBatchOp(plaintexts: seq<Bytes>, required: Clearance, ephemeral: Bytes, expired: bool, nonces: nat -> Bytes)
    | OpenOp(block: EncryptedBlock, claim: JisClaim)
    | OpenBatchOp(blocks: seq<EncryptedBlock>, claim: JisClaim)
    | RotateOp
    | FlushOp

  function Step(suite: Suite, e: Engine, op: Op): Engine
  {
    match op
    case SealOp(p, i, required, eph, nonce) => Seal(suite, e, p, i, required, eph, nonce).0
    case SealSessionOp(p, i, required, eph, expired, nonce) => SealSession(suite, e, p, i, required, eph, expired, nonce).0
    case SealBatchOp(ps, required, eph, expired, nonces) => SealBatch(suite, e, ps, required, eph, expired, nonces).0
    case OpenOp(b, claim) => Open(suite, e, b, claim).0
    case OpenBatchOp(bs, claim) => OpenBatch(suite, e, bs, claim).0
    case RotateOp => e.(session := None)
    case FlushOp => e.(cache := CacheFlush(e.cache))
  }

  /** An engine after any sequence of operations. */
  function Run(suite: Suite, secret: Bytes, ops: seq<Op>): Engine
  {
    if ops == [] then NewEngine(suite, secret)
    else Step(suite, Run(suite, secret, ops[..|ops| - 1]), ops[|ops| - 1])
  }
}
