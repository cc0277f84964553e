/** The page-fault handler and the sealing loops of store-mmu as objects and loops. */
module StoreMmu {
  import opened Prelude
  import opened Bifurcation
  import opened Airlock
  import opened MmuModel

  method SealPageLoop(suite: Suite, secret: Bytes, pages: seq<Bytes>, required: Clearance, rnd: Randomness) returns (blocks: seq<EncryptedBlock>)
    ensures blocks == SealPages(suite, secret, pages, required, rnd)
  {
    hide SealSession;
    var engine := new AirlockBifurcation(suite, secret);
    blocks := [];
    for i := 0 to |pages|
      invariant fresh(engine) && fresh(engine.keyCache) && engine.suite == suite
      invariant (engine.State(), blocks) == SealFirst(suite, NewEngine(suite, secret), pages, i, required, rnd)
    {
      var b := engine.SealWithSession(pages[i], i, required, rnd.ephemeral(i), rnd.expired(i), rnd.nonce(i));
      blocks := blocks + [b];
    }
  }

  /** Sizes and total size of the first n pages. */
  function Sizes(pages: seq<Bytes>, n: nat): seq<nat>
    requires n <= |pages|
  {
    if n == 0 then [] else Sizes(pages, n - 1) + [|pages[n - 1]|]
  }

  function TotalSize(pages: seq<Bytes>, n: nat): nat
    requires n <= |pages|
  {
    if n == 0 then 0 else TotalSize(pages, n - 1) + |pages[n - 1]|
  }

  /** The size of everything that was sealed. */
  function CiphertextSize(blocks: seq<EncryptedBlock>): nat
  {
    if blocks == [] then 0 else CiphertextSize(blocks[..|blocks| - 1]) + |blocks[|blocks| - 1].ciphertext|
  }

  lemma NoCiphertext()
    ensures CiphertextSize([]) == 0
  {
  }

  lemma CiphertextStep(blocks: seq<EncryptedBlock>, b: EncryptedBlock)
    ensures CiphertextSize(blocks + [b]) == CiphertextSize(blocks) + |b.ciphertext|
  {
    assert (blocks + [b])[..|blocks|] == blocks;
  }

  lemma PackedAt(z: Zstd, pages: seq<Bytes>, k: nat)
    requires k < |pages|
    ensures PackAll(z, pages)[k] == Packed(z, pages[k])
  {
  }

  lemma SizesStep(pages: seq<Bytes>, n: nat)
    requires n <= |pages|
    ensures Sizes(pages, 0) == [] && TotalSize(pages, 0) == 0
    ensures n < |pages| ==> Sizes(pages, n + 1) == Sizes(pages, n) + [|pages[n]|]
    ensures n < |pages| ==> TotalSize(pages, n + 1) == TotalSize(pages, n) + |pages[n]|
  {
  }

  lemma SealFirstStep(suite: Suite, e: Engine, pages: seq<Bytes>, n: nat, required: Clearance, rnd: Randomness)
    requires n <= |pages|
    ensures SealFirst(suite, e, pages, 0, required, rnd) == (e, [])
    ensures n < |pages| ==>
              var (e1, blocks) := SealFirst(suite, e, pages, n, required, rnd);
              var (e2, b) := SealSession(suite, e1, pages[n], n, required, rnd.ephemeral(n), rnd.expired(n), rnd.nonce(n));
              SealFirst(suite, e, pages, n + 1, required, rnd) == (e2, blocks + [b])
  {
  }

  method Pack(z: Zstd, page: Bytes) returns (packed: Bytes)
    ensures packed == Packed(z, page)
  {
    var encoded := z.encode(page);
    packed := if encoded.Some? then encoded.value else page;
  }

  /** Compress, then seal; the totals are those of the pages, of their compressed form and of what was sealed. */
  method SealPagesCompressedLoop(suite: Suite, z: Zstd, secret: Bytes, pages: seq<Bytes>, required: Clearance, rnd: Randomness)
    returns (blocks: seq<EncryptedBlock>, originalSizes: seq<nat>, totalOriginal: nat, totalCompressed: nat,
             totalEncrypted: nat, compressionRatio: real)
    ensures blocks == SealPagesCompressed(suite, z, secret, pages, required, rnd)
    ensures originalSizes == Sizes(pages, |pages|)
    ensures totalOriginal == TotalSize(pages, |pages|) && totalCompressed == TotalSize(PackAll(z, pages), |pages|)
    ensures totalEncrypted == CiphertextSize(blocks)
    ensures if totalCompressed > 0 then compressionRatio * totalCompressed as real == totalOriginal as real
            else compressionRatio == 1.0
  {
    hide CiphertextSize, SealSession, NewEngine, Packed, PackAll, SealFirst, Sizes, TotalSize;
    SizesStep(pages, 0);
    SizesStep(PackAll(z, pages), 0);
    SealFirstStep(suite, NewEngine(suite, secret), PackAll(z, pages), 0, required, rnd);
    var engine := new AirlockBifurcation(suite, secret);
    blocks, originalSizes, totalOriginal, totalCompressed, totalEncrypted := [], [], 0, 0, 0;
    NoCiphertext();
    ghost var packed := PackAll(z, pages);
    for i := 0 to |pages|
      invariant fresh(engine) && fresh(engine.keyCache) && engine.suite == suite
      invariant (engine.State(), blocks) == SealFirst(suite, NewEngine(suite, secret), packed, i, required, rnd)
      invariant originalSizes == Sizes(pages, i)
      invariant totalOriginal == TotalSize(pages, i) && totalCompressed == TotalSize(packed, i)
      invariant totalEncrypted == CiphertextSize(blocks)
    {
      PackedAt(z, pages, i);
      SizesStep(pages, i);
      SizesStep(packed, i);
      SealFirstStep(suite, NewEngine(suite, secret), packed, i, required, rnd);
      totalOriginal := totalOriginal + |pages[i]|;
      var compressed := Pack(z, pages[i]);
      totalCompressed := totalCompressed + |compressed|;
      var b := engine.SealWithSession(compressed, i, required, rnd.ephemeral(i), rnd.expired(i), rnd.nonce(i));
      totalEncrypted := totalEncrypted + |b.ciphertext|;
      CiphertextStep(blocks, b);
      blocks := blocks + [b];
      originalSizes := originalSizes + [|pages[i]|];
    }
    compressionRatio := if totalCompressed > 0 then totalOriginal as real / totalCompressed as real else 1.0;
  }

  class MmuArena {
    const suite: Suite
    const z: Zstd
    const fill: FillMode
    const pageSize: nat
    const engine: AirlockBifurcation
    var alive: bool
    var pagesFaulted: nat
    var pagesInjected: nat
    var injectErrors: nat
    var bytesInjected: nat
    ghost var memory: map<nat, Bytes>

    ghost function State(): Arena
      reads this, engine, engine.keyCache
    {
      Arena(engine.State(), alive, pagesFaulted, pagesInjected, injectErrors, bytesInjected, memory)
    }

    constructor (suite: Suite, z: Zstd, fill: FillMode, pageSize: nat, secret: Bytes)
      ensures this.suite == suite && this.z == z && this.fill == fill && this.pageSize == pageSize
      ensures engine.suite == suite && fresh(engine) && fresh(engine.keyCache)
      ensures State() == NewArena(suite, secret)
    {
      this.suite, this.z, this.fill, this.pageSize := suite, z, fill, pageSize;
      engine := new AirlockBifurcation(suite, secret);
      alive, pagesFaulted, pagesInjected, injectErrors, bytesInjected := true, 0, 0, 0, 0;
      memory := map[];
    }

    /** A page-sized buffer with the leading bytes copied in. */
    method CopyIntoPage(data: Bytes) returns (page: Bytes)
      ensures page == Fit(data, pageSize)
    {
      var buffer := new Byte[pageSize](_ => 0);
      var n := Min(|data|, pageSize);
      for k := 0 to n
        invariant forall j | 0 <= j < pageSize :: buffer[j] == if j < k then data[j] else 0
      {
        buffer[k] := data[k];
      }
      page := buffer[..];
    }

    method BuildPage(page: nat) returns (data: Option<Bytes>)
      requires engine.suite == suite
      modifies engine, engine.keyCache
      ensures (engine.State(), data) == PageFor(suite, z, old(engine.State()), fill, pageSize, page)
    {
      hide Open;
      match fill {
        case ZeroFill =>
          data := Some(Zeros(pageSize));
        case StaticData(payload) =>
          var p := CopyIntoPage(payload);
          data := Some(p);
        case EncryptedRestore(pages, claim) =>
          if page >= |pages| {
            return Some(Zeros(pageSize));
          }
          var r := engine.OpenBlock(pages[page], claim);
          if r.DecryptAborted? {
            return None;
          }
          if !r.Opened? {
            return Some(Zeros(pageSize));
          }
          var p := CopyIntoPage(r.plaintext);
          data := Some(p);
        case CompressedEncryptedRestore(pages, claim) =>
          if page >= |pages| {
            return Some(Zeros(pageSize));
          }
          var r := engine.OpenBlock(pages[page], claim);
          if r.DecryptAborted? {
            return None;
          }
          if !r.Opened? {
            return Some(Zeros(pageSize));
          }
          var decoded := z.decode(r.plaintext);
          if decoded.None? {
            return Some(Zeros(pageSize));
          }
          var p := CopyIntoPage(decoded.value);
          data := Some(p);
      }
    }

    /** One iteration of the handler loop: build the page, try to inject it, count the outcome. */
    method OnFault(page: nat, copied: bool)
      requires engine.suite == suite
      modifies this, engine, engine.keyCache
      ensures State() == HandleFault(suite, z, fill, pageSize, old(State()), page, copied)
    {
      hide PageFor;
      if !alive {
        return;
      }
      pagesFaulted := pagesFaulted + 1;
      var data := BuildPage(page);
      if data.None? {
        alive := false;
        return;
      }
      if copied {
        pagesInjected := pagesInjected + 1;
        bytesInjected := bytesInjected + pageSize;
        memory := memory[page := data.value];
      } else {
        injectErrors := injectErrors + 1;
      }
    }
  }
}
