/** The encrypted memory arena (store-mmu): pages sealed ahead of time, revealed one fault at a time. */
module MmuModel {
  import opened Prelude
  import opened Bifurcation

  /** The compressor, as an input: encoding may fail, and what it does encode decodes back. */
  datatype Zstd = Zstd(encode: Bytes -> Option<Bytes>, decode: Bytes -> Option<Bytes>)

  ghost predicate Faithful(z: Zstd)
  {
    forall p: Bytes :: z.encode(p).Some? ==> z.decode(z.encode(p).value) == Some(p)
  }

  datatype FillMode =
    | ZeroFill
    | StaticData(payload: Bytes)
    | EncryptedRestore(sealedPages: seq<EncryptedBlock>, claim: JisClaim)
    | CompressedEncryptedRestore(sealedPages: seq<EncryptedBlock>, claim: JisClaim)

  // ---------------------------------------------------------------- addresses

  /** The arena is rounded up to whole pages. */
  function RoundUp(n: nat, pageSize: nat): nat
    requires pageSize > 0
  {
    (n + pageSize - 1) / pageSize * pageSize
  }

  function PageIndex(base: nat, addr: nat, pageSize: nat): int
    requires pageSize > 0
  {
    (addr / pageSize * pageSize - base) / pageSize
  }

  // ---------------------------------------------------------------- sealing

  /** The random inputs of a sealing loop, one set a page. */
  datatype Randomness = Randomness(ephemeral: nat -> Bytes, expired: nat -> bool, nonce: nat -> Bytes)

  /** Sealing the first n pages in order on one engine. */
  function SealFirst(suite: Suite, e: Engine, pages: seq<Bytes>, n: nat, required: Clearance, rnd: Randomness): (r: (Engine, seq<EncryptedBlock>))
    requires n <= |pages|
    ensures |r.1| == n
  {
    if n == 0 then (e, [])
    else
      var (e1, blocks) := SealFirst(suite, e, pages, n - 1, required, rnd);
      var (e2, b) := SealSession(suite, e1, pages[n - 1], n - 1, required, rnd.ephemeral(n - 1), rnd.expired(n - 1), rnd.nonce(n - 1));
      (e2, blocks + [b])
  }

  function SealPages(suite: Suite, secret: Bytes, pages: seq<Bytes>, required: Clearance, rnd: Randomness): (blocks: seq<EncryptedBlock>)
    ensures |blocks| == |pages|
  {
    SealFirst(suite, NewEngine(suite, secret), pages, |pages|, required, rnd).1
  }

  /** What is sealed for a page in compressed mode: its compressed form, or the page itself if compression fails. */
  function Packed(z: Zstd, page: Bytes): Bytes
  {
    if z.encode(page).Some? then z.encode(page).value else page
  }

  function PackAll(z: Zstd, pages: seq<Bytes>): (packed: seq<Bytes>)
    ensures |packed| == |pages|
  {
    seq(|pages|, k requires 0 <= k < |pages| => Packed(z, pages[k]))
  }

  function SealPagesCompressed(suite: Suite, z: Zstd, secret: Bytes, pages: seq<Bytes>, required: Clearance, rnd: Randomness): (blocks: seq<EncryptedBlock>)
    ensures |blocks| == |pages|
  {
    SealPages(suite, secret, PackAll(z, pages), required, rnd)
  }

  // ---------------------------------------------------------------- faults

  /** The handler's state, with the pages it has managed to inject. */
  datatype Arena = Arena(
    engine: Engine,
    alive: bool,
    pagesFaulted: nat,
    pagesInjected: nat,
    injectErrors: nat,
    bytesInjected: nat,
    memory: map<nat, Bytes>)

  function NewArena(suite: Suite, secret: Bytes): Arena
  {
    Arena(NewEngine(suite, secret), true, 0, 0, 0, 0, map[])
  }

  /** The page built for a fault; None when a failed decryption takes the handler down. */
  function PageFor(suite: Suite, z: Zstd, e: Engine, fill: FillMode, pageSize: nat, page: nat): (Engine, Option<Bytes>)
  {
    match fill
    case ZeroFill => (e, Some(Zeros(pageSize)))
    case StaticData(payload) => (e, Some(Fit(payload, pageSize)))
    case EncryptedRestore(pages, claim) =>
      if page >= |pages| then (e, Some(Zeros(pageSize)))
      else
        (match Open(suite, e, pages[page], claim)
         case (e1, Opened(p, _)) => (e1, Some(Fit(p, pageSize)))
         case (e1, DecryptAborted) => (e1, None)
         case (e1, _) => (e1, Some(Zeros(pageSize))))
    case CompressedEncryptedRestore(pages, claim) =>
      if page >= |pages| then (e, Some(Zeros(pageSize)))
      else
        (match Open(suite, e, pages[page], claim)
         case (e1, Opened(p, _)) =>
           (e1, Some(if z.decode(p).Some? then Fit(z.decode(p).value, pageSize) else Zeros(pageSize)))
         case (e1, DecryptAborted) => (e1, None)
         case (e1, _) => (e1, Some(Zeros(pageSize))))
  }

  /** One fault on a page; copied says whether the kernel accepted the injection. */
  function HandleFault(suite: Suite, z: Zstd, fill: FillMode, pageSize: nat, a: Arena, page: nat, copied: bool): Arena
  {
    if !a.alive then a
    else
      var (e, data) := PageFor(suite, z, a.engine, fill, pageSize, page);
      var b := a.(engine := e, pagesFaulted := a.pagesFaulted + 1);
      if data.None? then b.(alive := false)
      else if copied then
        b.(pagesInjected := b.pagesInjected + 1, bytesInjected := b.bytesInjected + pageSize, memory := b.memory[page := data.value])
      else b.(injectErrors := b.injectErrors + 1)
  }

  function HandleAll(suite: Suite, z: Zstd, fill: FillMode, pageSize: nat, secret: Bytes, faults: seq<(nat, bool)>): Arena
  {
    if faults == [] then NewArena(suite, secret)
    else
      var last := faults[|faults| - 1];
      HandleFault(suite, z, fill, pageSize, HandleAll(suite, z, fill, pageSize, secret, faults[..|faults| - 1]), last.0, last.1)
  }
}
