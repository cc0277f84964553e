/** The block store behind RAM B (cluster_transport.rs): an index-keyed map with counters. */
module ClusterTransport {
  import opened Prelude

  datatype StoredBlock = StoredBlock(
    data: Bytes,
    contentHash: string,
    rawSize: nat,
    storedBy: string,
    busSeq: nat,
    accessCount: nat)

  /** The store's contents and counters as a value. */
  datatype StoreValue = StoreValue(
    blocks: map<nat, StoredBlock>,
    totalBytes: nat,
    blocksServed: nat,
    blocksStored: nat)

  const EMPTY_STORE: StoreValue := StoreValue(map[], 0, 0, 0)

  /** Inserting a block replaces whatever was stored at its index. */
  function Put(v: StoreValue, index: nat, data: Bytes, contentHash: string, rawSize: nat, storedBy: string, busSeq: nat): StoreValue
  {
    StoreValue(
      v.blocks[index := StoredBlock(data, contentHash, rawSize, storedBy, busSeq, 0)],
      v.totalBytes + |data|,
      v.blocksServed,
      v.blocksStored + 1)
  }

  /** Serving a block bumps its access count; a missing block changes nothing. */
  function Get(v: StoreValue, index: nat): (StoreValue, Option<StoredBlock>)
  {
    if index in v.blocks then
      var b := v.blocks[index].(accessCount := v.blocks[index].accessCount + 1);
      (v.(blocks := v.blocks[index := b], blocksServed := v.blocksServed + 1), Some(b))
    else
      (v, None)
  }

  /** What a client can observe of a stored block: its bytes and its claimed hash. */
  function Visible(v: StoreValue): map<nat, (Bytes, string)>
  {
    map i | i in v.blocks :: (v.blocks[i].data, v.blocks[i].contentHash)
  }

  /** A fetch returns exactly the visible entry and never disturbs what later fetches can see. */
  lemma GetIsTransparent(v: StoreValue, index: nat)
    ensures Visible(Get(v, index).0) == Visible(v)
    ensures Get(v, index).1.Some? <==> index in Visible(v)
    ensures index in Visible(v) ==>
              (Get(v, index).1.value.data, Get(v, index).1.value.contentHash) == Visible(v)[index]
  {
    assert Visible(Get(v, index).0).Keys == Visible(v).Keys;
  }

  /** A stored block is what the next fetch of that index returns; other indices are untouched. */
  lemma PutThenGet(v: StoreValue, index: nat, data: Bytes, contentHash: string, rawSize: nat, storedBy: string, busSeq: nat)
    ensures Visible(Put(v, index, data, contentHash, rawSize, storedBy, busSeq)) == Visible(v)[index := (data, contentHash)]
  {
    var w := Put(v, index, data, contentHash, rawSize, storedBy, busSeq);
    assert Visible(w).Keys == Visible(v).Keys + {index};
  }

  // ---------------------------------------------------------------- runs

  datatype StoreOp =
    | PutOp(index: nat, data: Bytes, contentHash: string, rawSize: nat, storedBy: string, busSeq: nat)
    | GetOp(index: nat)

  function Apply(v: StoreValue, op: StoreOp): StoreValue
  {
    match op
    case PutOp(i, data, hash, rawSize, owner, seqNo) => Put(v, i, data, hash, rawSize, owner, seqNo)
    case GetOp(i) => Get(v, i).0
  }

  function RunStore(ops: seq<StoreOp>): StoreValue
  {
    if ops == [] then EMPTY_STORE else Apply(RunStore(ops[..|ops| - 1]), ops[|ops| - 1])
  }

  /** The last store to an index, if any. */
  function LastPut(ops: seq<StoreOp>, index: nat): Option<StoreOp>
  {
    if ops == [] then None
    else if ops[|ops| - 1].PutOp? && ops[|ops| - 1].index == index then Some(ops[|ops| - 1])
    else LastPut(ops[..|ops| - 1], index)
  }

  /** How often an index was fetched since the last store to it. */
  function FetchesSince(ops: seq<StoreOp>, index: nat): nat
  {
    if ops == [] then 0
    else
      var before, last := ops[..|ops| - 1], ops[|ops| - 1];
      if last.index != index then FetchesSince(before, index)
      else if last.PutOp? then 0
      else FetchesSince(before, index) + 1
  }

  function Stores(ops: seq<StoreOp>): nat
  {
    if ops == [] then 0 else Stores(ops[..|ops| - 1]) + (if ops[|ops| - 1].PutOp? then 1 else 0)
  }

  function BytesStored(ops: seq<StoreOp>): nat
  {
    if ops == [] then 0 else BytesStored(ops[..|ops| - 1]) + (if ops[|ops| - 1].PutOp? then |ops[|ops| - 1].data| else 0)
  }

  /** Fetches that found a block. */
  function Served(ops: seq<StoreOp>): nat
  {
    if ops == [] then 0
    else
      var before, last := ops[..|ops| - 1], ops[|ops| - 1];
      Served(before) + (if last.GetOp? && LastPut(before, last.index).Some? then 1 else 0)
  }

  /** Over every run each index holds exactly what was last stored there, with its fetches since then counted, and the
      totals are those of the run: bytes ever stored, stores, and fetches that found something. */
  lemma {:induction false} StoreKeepsTheLast(ops: seq<StoreOp>, index: nat)
    ensures var v := RunStore(ops);
            && (index in v.blocks <==> LastPut(ops, index).Some?)
            && (index in v.blocks ==>
                  var p := LastPut(ops, index).value;
                  p.PutOp? && v.blocks[index] == StoredBlock(p.data, p.contentHash, p.rawSize, p.storedBy, p.busSeq, FetchesSince(ops, index)))
            && v.blocksStored == Stores(ops) && v.totalBytes == BytesStored(ops) && v.blocksServed == Served(ops)
  {
    if ops != [] {
      var before, last := ops[..|ops| - 1], ops[|ops| - 1];
      StoreKeepsTheLast(before, index);
      StoreKeepsTheLast(before, last.index);
    }
  }

  class BlockStore {
    var blocks: map<nat, StoredBlock>
    var totalBytes: nat
    var blocksServed: nat
    var blocksStored: nat

    constructor ()
      ensures Value() == EMPTY_STORE
    {
      blocks, totalBytes, blocksServed, blocksStored := map[], 0, 0, 0;
    }

    ghost function Value(): StoreValue
      reads this
    {
      StoreValue(blocks, totalBytes, blocksServed, blocksStored)
    }

    method Store(index: nat, data: Bytes, contentHash: string, rawSize: nat, storedBy: string, busSeq: nat)
      modifies this
      ensures Value() == Put(old(Value()), index, data, contentHash, rawSize, storedBy, busSeq)
    {
      blocks := blocks[index := StoredBlock(data, contentHash, rawSize, storedBy, busSeq, 0)];
      totalBytes := totalBytes + |data|;
      blocksStored := blocksStored + 1;
    }

    method Fetch(index: nat) returns (block: Option<StoredBlock>)
      modifies this
      ensures (Value(), block) == Get(old(Value()), index)
    {
      if index in blocks {
        var b := blocks[index].(accessCount := blocks[index].accessCount + 1);
        blocks := blocks[index := b];
        blocksServed := blocksServed + 1;
        block := Some(b);
      } else {
        block := None;
      }
    }
  }
}
