/** The memory illusion: whatever the order of faults, the right identity sees its pages and any other sees zeros. */
module MmuProofs {
  import opened Prelude
  import opened Bifurcation
  import opened BifurcationProofs
  import opened BifurcationRuns
  import opened MmuModel

  /** Rounding up reaches the least whole number of pages that holds the arena. */
  lemma RoundUpIsLeast(n: nat, pageSize: nat)
    requires pageSize > 0
    ensures n <= RoundUp(n, pageSize) < n + pageSize
    ensures RoundUp(n, pageSize) % pageSize == 0
  {
    var m := n + pageSize - 1;
    var q, r := m / pageSize, m % pageSize;
    assert m == pageSize * q + r;
    assert RoundUp(n, pageSize) == q * pageSize == m - r;
    DivideExact(q, 0, pageSize);
    assert q * pageSize == pageSize * (q * pageSize / pageSize) + q * pageSize % pageSize;
  }

  /** With a page-aligned base, the page index depends only on the offset into the arena. */
  lemma PageIndexOfOffset(basePages: nat, offset: nat, pageSize: nat)
    requires pageSize > 0
    ensures PageIndex(basePages * pageSize, basePages * pageSize + offset, pageSize) == offset / pageSize
  {
    var q, r := offset / pageSize, offset % pageSize;
    assert offset == pageSize * q + r;
    assert basePages * pageSize + offset == (basePages + q) * pageSize + r by {
      assert (basePages + q) * pageSize == basePages * pageSize + q * pageSize;
    }
    DivideExact(basePages + q, r, pageSize);
    assert (basePages + q) * pageSize - basePages * pageSize == q * pageSize by {
      assert (basePages + q) * pageSize == basePages * pageSize + q * pageSize;
    }
    DivideExact(q, 0, pageSize);
  }

  lemma {:induction false} SealFirstIsSound(suite: Suite, e: Engine, pages: seq<Bytes>, n: nat, required: Clearance, rnd: Randomness)
    requires Lawful(suite) && Sound(suite, e) && n <= |pages|
    ensures var (e1, blocks) := SealFirst(suite, e, pages, n, required, rnd);
            && Sound(suite, e1) && e1.secret == e.secret
            && (forall k | 0 <= k < n :: SealedFor(suite, e.secret, blocks[k], pages[k]) && blocks[k].index == k && blocks[k].required == required)
  {
    hide Lawful, Sound, SealedFor, SealSession, CacheBounded;
    if n > 0 {
      SealFirstIsSound(suite, e, pages, n - 1, required, rnd);
      var e1 := SealFirst(suite, e, pages, n - 1, required, rnd).0;
      SealSessionIsSound(suite, e1, pages[n - 1], n - 1, required, rnd.ephemeral(n - 1), rnd.expired(n - 1), rnd.nonce(n - 1));
    }
  }

  lemma NewEngineIsSound(suite: Suite, secret: Bytes)
    ensures Sound(suite, NewEngine(suite, secret)) && NewEngine(suite, secret).secret == secret
  {
  }

  lemma SealPagesSeals(suite: Suite, secret: Bytes, pages: seq<Bytes>, required: Clearance, rnd: Randomness)
    requires Lawful(suite)
    ensures var blocks := SealPages(suite, secret, pages, required, rnd);
            forall k | 0 <= k < |pages| :: SealedFor(suite, secret, blocks[k], pages[k]) && blocks[k].index == k && blocks[k].required == required
  {
    hide Lawful, Sound, SealedFor, SealFirst;
    NewEngineIsSound(suite, secret);
    SealFirstIsSound(suite, NewEngine(suite, secret), pages, |pages|, required, rnd);
  }

  /** The claim lets its holder read pages sealed at the given clearance. */
  predicate Admits(claim: JisClaim, required: Clearance)
  {
    WellFormedClaim(claim) && Cleared(claim, required)
  }

  /** What every access to page k must see. */
  function Illusion(pages: seq<Bytes>, claim: JisClaim, required: Clearance, pageSize: nat, k: nat): Bytes
  {
    if k < |pages| && Admits(claim, required) then Fit(pages[k], pageSize) else Zeros(pageSize)
  }

  /** The same in compressed mode: a page whose compression failed is decoded as if it had been compressed. */
  function CompressedIllusion(z: Zstd, pages: seq<Bytes>, claim: JisClaim, required: Clearance, pageSize: nat, k: nat): Bytes
  {
    if k < |pages| && Admits(claim, required) then
      if z.encode(pages[k]).Some? then Fit(pages[k], pageSize)
      else if z.decode(pages[k]).Some? then Fit(z.decode(pages[k]).value, pageSize)
      else Zeros(pageSize)
    else Zeros(pageSize)
  }

  function IllusionView(pages: seq<Bytes>, claim: JisClaim, required: Clearance, pageSize: nat): nat -> Bytes
  {
    (k: nat) => Illusion(pages, claim, required, pageSize, k)
  }

  function CompressedView(z: Zstd, pages: seq<Bytes>, claim: JisClaim, required: Clearance, pageSize: nat): nat -> Bytes
  {
    (k: nat) => CompressedIllusion(z, pages, claim, required, pageSize, k)
  }

  ghost predicate PageFacts(suite: Suite, secret: Bytes, r: (Engine, Option<Bytes>), expected: Bytes)
  {
    Sound(suite, r.0) && r.0.secret == secret && r.1 == Some(expected)
  }

  lemma EncryptedPage(suite: Suite, z: Zstd, e: Engine, secret: Bytes, pages: seq<Bytes>, required: Clearance, rnd: Randomness, claim: JisClaim, pageSize: nat, k: nat)
    requires Lawful(suite) && Sound(suite, e) && e.secret == secret
    ensures var fill := EncryptedRestore(SealPages(suite, secret, pages, required, rnd), claim);
            PageFacts(suite, secret, PageFor(suite, z, e, fill, pageSize, k), Illusion(pages, claim, required, pageSize, k))
  {
    hide Lawful, Sound, SealedFor, SealPages, Open;
    SealPagesSeals(suite, secret, pages, required, rnd);
    var blocks := SealPages(suite, secret, pages, required, rnd);
    if k < |pages| {
      OpenIsExact(suite, e, blocks[k], pages[k], claim);
      OpenIsSound(suite, e, blocks[k], claim);
    }
  }

  lemma CompressedPage(suite: Suite, z: Zstd, e: Engine, secret: Bytes, pages: seq<Bytes>, required: Clearance, rnd: Randomness, claim: JisClaim, pageSize: nat, k: nat)
    requires Lawful(suite) && Faithful(z) && Sound(suite, e) && e.secret == secret
    ensures var fill := CompressedEncryptedRestore(SealPagesCompressed(suite, z, secret, pages, required, rnd), claim);
            PageFacts(suite, secret, PageFor(suite, z, e, fill, pageSize, k), CompressedIllusion(z, pages, claim, required, pageSize, k))
  {
    hide Lawful, Sound, SealedFor, SealPages, Open, Fit;
    var packed := PackAll(z, pages);
    SealPagesSeals(suite, secret, packed, required, rnd);
    var blocks := SealPages(suite, secret, packed, required, rnd);
    if k < |pages| {
      OpenIsExact(suite, e, blocks[k], packed[k], claim);
      OpenIsSound(suite, e, blocks[k], claim);
    }
  }

  // ---------------------------------------------------------------- runs of faults

  /** The handler after some faults: alive, sound, with consistent counters, and every page it has
      injected showing what the illusion prescribes. */
  ghost predicate ArenaOk(suite: Suite, secret: Bytes, pageSize: nat, faults: seq<(nat, bool)>, a: Arena, view: nat -> Bytes)
  {
    && a.alive && Sound(suite, a.engine) && a.engine.secret == secret
    && a.pagesFaulted == |faults| == a.pagesInjected + a.injectErrors
    && a.bytesInjected == a.pagesInjected * pageSize
    && (forall k | k in a.memory :: a.memory[k] == view(k))
    && (forall k: nat :: k in a.memory <==> (k, true) in faults)
  }

  lemma FaultKeepsArena(suite: Suite, z: Zstd, fill: FillMode, pageSize: nat, secret: Bytes, faults: seq<(nat, bool)>, a: Arena, page: nat, copied: bool, view: nat -> Bytes)
    requires ArenaOk(suite, secret, pageSize, faults, a, view)
    requires PageFacts(suite, secret, PageFor(suite, z, a.engine, fill, pageSize, page), view(page))
    ensures ArenaOk(suite, secret, pageSize, faults + [(page, copied)], HandleFault(suite, z, fill, pageSize, a, page, copied), view)
  {
    hide Sound, PageFor;
    assert (a.pagesInjected + 1) * pageSize == a.pagesInjected * pageSize + pageSize;
  }

  lemma NewArenaOk(suite: Suite, secret: Bytes, pageSize: nat, view: nat -> Bytes)
    ensures ArenaOk(suite, secret, pageSize, [], NewArena(suite, secret), view)
  {
    NewEngineIsSound(suite, secret);
  }

  /** The memory illusion for sealed pages, over every order of faults and injection failures. */
  lemma {:induction false} MemoryIllusion(suite: Suite, z: Zstd, secret: Bytes, pages: seq<Bytes>, required: Clearance, rnd: Randomness,
                                          claim: JisClaim, pageSize: nat, faults: seq<(nat, bool)>)
    requires Lawful(suite)
    ensures var fill := EncryptedRestore(SealPages(suite, secret, pages, required, rnd), claim);
            ArenaOk(suite, secret, pageSize, faults, HandleAll(suite, z, fill, pageSize, secret, faults),
                    IllusionView(pages, claim, required, pageSize))
  {
    hide Lawful, ArenaOk, HandleFault, Illusion, SealPages;
    var fill := EncryptedRestore(SealPages(suite, secret, pages, required, rnd), claim);
    var view := IllusionView(pages, claim, required, pageSize);
    if faults == [] {
      NewArenaOk(suite, secret, pageSize, view);
    } else {
      var before, last := faults[..|faults| - 1], faults[|faults| - 1];
      MemoryIllusion(suite, z, secret, pages, required, rnd, claim, pageSize, before);
      var a := HandleAll(suite, z, fill, pageSize, secret, before);
      ArenaParts(suite, secret, pageSize, before, a, view);
      EncryptedPage(suite, z, a.engine, secret, pages, required, rnd, claim, pageSize, last.0);
      FaultKeepsArena(suite, z, fill, pageSize, secret, before, a, last.0, last.1, view);
      assert faults == before + [(last.0, last.1)];
    }
  }

  lemma ArenaParts(suite: Suite, secret: Bytes, pageSize: nat, faults: seq<(nat, bool)>, a: Arena, view: nat -> Bytes)
    requires ArenaOk(suite, secret, pageSize, faults, a, view)
    ensures Sound(suite, a.engine) && a.engine.secret == secret
  {
  }

  /** The same for compressed pages; a page shows its original bytes whenever its compression succeeded. */
  lemma {:induction false} CompressedMemoryIllusion(suite: Suite, z: Zstd, secret: Bytes, pages: seq<Bytes>, required: Clearance, rnd: Randomness,
                                                    claim: JisClaim, pageSize: nat, faults: seq<(nat, bool)>)
    requires Lawful(suite) && Faithful(z)
    ensures var fill := CompressedEncryptedRestore(SealPagesCompressed(suite, z, secret, pages, required, rnd), claim);
            ArenaOk(suite, secret, pageSize, faults, HandleAll(suite, z, fill, pageSize, secret, faults),
                    CompressedView(z, pages, claim, required, pageSize))
    ensures forall k: nat | k < |pages| && z.encode(pages[k]).Some? ::
              CompressedIllusion(z, pages, claim, required, pageSize, k) == Illusion(pages, claim, required, pageSize, k)
  {
    hide Lawful, Faithful, ArenaOk, HandleFault, SealPagesCompressed;
    var fill := CompressedEncryptedRestore(SealPagesCompressed(suite, z, secret, pages, required, rnd), claim);
    var view := CompressedView(z, pages, claim, required, pageSize);
    if faults == [] {
      NewArenaOk(suite, secret, pageSize, view);
    } else {
      var before, last := faults[..|faults| - 1], faults[|faults| - 1];
      CompressedMemoryIllusion(suite, z, secret, pages, required, rnd, claim, pageSize, before);
      var a := HandleAll(suite, z, fill, pageSize, secret, before);
      ArenaParts(suite, secret, pageSize, before, a, view);
      CompressedPage(suite, z, a.engine, secret, pages, required, rnd, claim, pageSize, last.0);
      FaultKeepsArena(suite, z, fill, pageSize, secret, before, a, last.0, last.1, view);
      assert faults == before + [(last.0, last.1)];
    }
  }

  function StaticView(payload: Bytes, pageSize: nat): nat -> Bytes
  {
    (k: nat) => seq(pageSize, j requires 0 <= j < pageSize => if j < |payload| then payload[j] else 0)
  }

  /** The unencrypted modes, over every order of faults: every injected page shows the payload from its start, cut or
      followed by zeros; or nothing but zeros. */
  lemma {:induction false} StaticPages(suite: Suite, z: Zstd, secret: Bytes, payload: Bytes, pageSize: nat, faults: seq<(nat, bool)>)
    ensures ArenaOk(suite, secret, pageSize, faults, HandleAll(suite, z, StaticData(payload), pageSize, secret, faults), StaticView(payload, pageSize))
    ensures ArenaOk(suite, secret, pageSize, faults, HandleAll(suite, z, ZeroFill, pageSize, secret, faults), StaticView([], pageSize))
  {
    hide ArenaOk, HandleFault, Sound;
    if faults == [] {
      NewArenaOk(suite, secret, pageSize, StaticView(payload, pageSize));
      NewArenaOk(suite, secret, pageSize, StaticView([], pageSize));
    } else {
      var before, last := faults[..|faults| - 1], faults[|faults| - 1];
      StaticPages(suite, z, secret, payload, pageSize, before);
      assert faults == before + [(last.0, last.1)];
      var a := HandleAll(suite, z, StaticData(payload), pageSize, secret, before);
      ArenaParts(suite, secret, pageSize, before, a, StaticView(payload, pageSize));
      assert Fit(payload, pageSize) == StaticView(payload, pageSize)(last.0);
      FaultKeepsArena(suite, z, StaticData(payload), pageSize, secret, before, a, last.0, last.1, StaticView(payload, pageSize));
      var b := HandleAll(suite, z, ZeroFill, pageSize, secret, before);
      ArenaParts(suite, secret, pageSize, before, b, StaticView([], pageSize));
      assert Zeros(pageSize) == StaticView([], pageSize)(last.0);
      FaultKeepsArena(suite, z, ZeroFill, pageSize, secret, before, b, last.0, last.1, StaticView([], pageSize));
    }
  }

  // ---------------------------------------------------------------- corrupt pages

  /** The decryption of a page fails for a claim that is let through to it. */
  predicate Corrupt(suite: Suite, secret: Bytes, pages: seq<EncryptedBlock>, claim: JisClaim, k: nat)
  {
    && k < |pages|
    && claim.identity != "" && |claim.ed25519Pub| == 64 && pages[k].required in Covers(claim.clearance)
    && suite.decrypt(KeyUnder(suite, suite.dh(secret, pages[k].ephemeralPub), pages[k].index), pages[k].nonce, pages[k].ciphertext).None?
  }

  ghost predicate NoneCorrupt(suite: Suite, secret: Bytes, pages: seq<EncryptedBlock>, claim: JisClaim, faults: seq<(nat, bool)>)
  {
    forall k | 0 <= k < |faults| :: !Corrupt(suite, secret, pages, claim, faults[k].0)
  }

  /** How many faults ask the engine to open a page. */
  function Opens(pages: seq<EncryptedBlock>, faults: seq<(nat, bool)>): nat
  {
    if faults == [] then 0
    else Opens(pages, faults[..|faults| - 1]) + (if faults[|faults| - 1].0 < |pages| then 1 else 0)
  }

  function OpensCounted(s: Stats): nat
  {
    s.blocksOpened + s.accessDenied + s.integrityFailures + s.invalidClaims
  }

  /** The handler as far as its engine goes: sound, and with every open it was asked for counted once. */
  ghost predicate EngineOk(suite: Suite, secret: Bytes, pages: seq<EncryptedBlock>, faults: seq<(nat, bool)>, a: Arena)
  {
    && a.alive && Sound(suite, a.engine) && a.engine.secret == secret
    && OpensCounted(a.engine.stats) == Opens(pages, faults)
  }

  lemma OneFaultOnPages(suite: Suite, z: Zstd, secret: Bytes, pages: seq<EncryptedBlock>, claim: JisClaim, pageSize: nat,
                        fill: FillMode, faults: seq<(nat, bool)>, a: Arena, page: nat, copied: bool)
    requires fill == EncryptedRestore(pages, claim) || fill == CompressedEncryptedRestore(pages, claim)
    requires EngineOk(suite, secret, pages, faults, a)
    ensures var b := HandleFault(suite, z, fill, pageSize, a, page, copied);
            && (Corrupt(suite, secret, pages, claim, page) ==> !b.alive && b.memory == a.memory && b.pagesInjected == a.pagesInjected)
            && (!Corrupt(suite, secret, pages, claim, page) ==> EngineOk(suite, secret, pages, faults + [(page, copied)], b))
  {
    hide Sound, Open, KeyUnder, Covers;
    assert (faults + [(page, copied)])[..|faults|] == faults;
    if page < |pages| {
      OpenedIsGenuine(suite, a.engine, pages[page], claim);
      OpenIsSound(suite, a.engine, pages[page], claim);
      StepTallies(suite, a.engine, OpenOp(pages[page], claim));
    }
  }

  /**
   Over any pages, sealed or forged, and any order of faults: the handler lives, and its engine has counted every page it
   was asked to open, exactly as long as no fault has hit a page that fails to decrypt for the claim; after that nothing
   changes any more.
   */
  lemma {:induction false} StopsAtACorruptPage(suite: Suite, z: Zstd, secret: Bytes, pages: seq<EncryptedBlock>, claim: JisClaim,
                                               pageSize: nat, fill: FillMode, faults: seq<(nat, bool)>, next: (nat, bool))
    requires fill == EncryptedRestore(pages, claim) || fill == CompressedEncryptedRestore(pages, claim)
    ensures var a := HandleAll(suite, z, fill, pageSize, secret, faults);
            && (a.alive <==> NoneCorrupt(suite, secret, pages, claim, faults))
            && (a.alive ==> EngineOk(suite, secret, pages, faults, a))
            && (!a.alive ==> HandleAll(suite, z, fill, pageSize, secret, faults + [next]) == a)
  {
    hide Corrupt, EngineOk;
    assert (faults + [next])[..|faults|] == faults;
    if faults == [] {
      hide HandleFault;
      NewEngineOk(suite, secret, pages);
    } else {
      var before, last := faults[..|faults| - 1], faults[|faults| - 1];
      StopsAtACorruptPage(suite, z, secret, pages, claim, pageSize, fill, before, last);
      var a := HandleAll(suite, z, fill, pageSize, secret, before);
      assert faults == before + [last];
      AliveIfOk(suite, secret, pages, faults, HandleAll(suite, z, fill, pageSize, secret, faults));
      assert NoneCorrupt(suite, secret, pages, claim, faults) <==>
             NoneCorrupt(suite, secret, pages, claim, before) && !Corrupt(suite, secret, pages, claim, last.0);
      if a.alive {
        OneFaultOnPages(suite, z, secret, pages, claim, pageSize, fill, before, a, last.0, last.1);
      }
      DeadStaysDead(suite, z, fill, pageSize, HandleAll(suite, z, fill, pageSize, secret, faults), next);
      hide HandleFault;
    }
  }

  lemma DeadStaysDead(suite: Suite, z: Zstd, fill: FillMode, pageSize: nat, a: Arena, next: (nat, bool))
    ensures !a.alive ==> HandleFault(suite, z, fill, pageSize, a, next.0, next.1) == a
  {
  }

  lemma AliveIfOk(suite: Suite, secret: Bytes, pages: seq<EncryptedBlock>, faults: seq<(nat, bool)>, a: Arena)
    ensures EngineOk(suite, secret, pages, faults, a) ==> a.alive
  {
  }

  lemma NewEngineOk(suite: Suite, secret: Bytes, pages: seq<EncryptedBlock>)
    ensures EngineOk(suite, secret, pages, [], NewArena(suite, secret))
  {
    NewEngineIsSound(suite, secret);
  }
}
