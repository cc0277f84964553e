/** Bytes on the wire (cluster_mux.rs): length-prefixed frames and payloads hashed while they are read. */
module MuxWire {
  import opened Prelude

  const MAX_FRAME: nat := 4 * 1024 * 1024
  const U32: nat := 0x1_0000_0000
  const CHUNK_SIZE: nat := 65536

  /** The frame serialiser, as an input. */
  datatype Codec<!F> = Codec(encode: F -> Bytes, decode: Bytes -> Option<F>)

  ghost predicate RoundTrips<F(!new)>(codec: Codec<F>)
  {
    forall f: F :: codec.decode(codec.encode(f)) == Some(f)
  }

  /** The four bytes of n, most significant first. */
  function Be32(n: nat): (b: Bytes)
    ensures |b| == 4
  {
    [(n / 256 / 256 / 256 % 256) as Byte, (n / 256 / 256 % 256) as Byte, (n / 256 % 256) as Byte, (n % 256) as Byte]
  }

  function FromBe32(b: Bytes): nat
    requires |b| == 4
  {
    ((b[0] as nat * 256 + b[1] as nat) * 256 + b[2] as nat) * 256 + b[3] as nat
  }

  lemma RemainderIsUnique(n: nat, q: nat, r: nat)
    requires n == q * U32 + r && r < U32
    ensures n % U32 == r
  {
  }

  /** The prefix carries the length modulo 2^32, as the source's cast to u32 does. */
  lemma Be32Truncates(n: nat)
    ensures FromBe32(Be32(n)) == n % U32
  {
    var q1 := n / 256;
    var q2 := q1 / 256;
    var q3 := q2 / 256;
    var q4 := q3 / 256;
    assert FromBe32(Be32(n)) == ((q3 % 256 * 256 + q2 % 256) * 256 + q1 % 256) * 256 + n % 256;
    RemainderIsUnique(n, q4, FromBe32(Be32(n)));
  }

  function WriteFrame<F>(codec: Codec<F>, f: F): Bytes
  {
    Be32(|codec.encode(f)|) + codec.encode(f)
  }

  datatype Parsed<F> = Parsed(frame: F, rest: Bytes) | UnexpectedEof | TooLarge | BadFrame

  function ReadFrame<F>(codec: Codec<F>, wire: Bytes): Parsed<F>
  {
    if |wire| < 4 then UnexpectedEof
    else
      var n := FromBe32(wire[..4]);
      if n > MAX_FRAME then TooLarge
      else if |wire| < 4 + n then UnexpectedEof
      else
        match codec.decode(wire[4..4 + n])
        case None => BadFrame
        case Some(f) => Parsed(f, wire[4 + n..])
  }

  /** A written frame is read back, with the rest of the stream intact, exactly when its encoding fits the limit. */
  lemma FrameRoundTripIff<F(!new)>(codec: Codec<F>, f: F, rest: Bytes)
    requires RoundTrips(codec)
    ensures ReadFrame(codec, WriteFrame(codec, f) + rest) == Parsed(f, rest) <==> |codec.encode(f)| <= MAX_FRAME
  {
    var json := codec.encode(f);
    var wire := WriteFrame(codec, f) + rest;
    Be32Truncates(|json|);
    assert wire[..4] == Be32(|json|);
    hide Be32, FromBe32;
    var n := FromBe32(wire[..4]);
    if |json| <= MAX_FRAME {
      assert n == |json|;
      assert wire[4..4 + n] == json;
      assert wire[4 + n..] == rest;
    } else if n <= MAX_FRAME {
      assert |wire| == 4 + |json| + |rest|;
      assert |wire[4 + n..]| == |json| + |rest| - n;
    }
  }

  /** A frame cut short is never mistaken for a frame. */
  lemma TruncatedFrameIsEof<F(!new)>(codec: Codec<F>, f: F, k: nat)
    requires k < |WriteFrame(codec, f)| && |codec.encode(f)| <= MAX_FRAME
    ensures ReadFrame(codec, WriteFrame(codec, f)[..k]) == UnexpectedEof
  {
    var json := codec.encode(f);
    var wire := WriteFrame(codec, f);
    Be32Truncates(|json|);
    hide Be32, FromBe32;
    if k >= 4 {
      assert wire[..k][..4] == Be32(|json|);
    }
  }

  function WriteAll<F>(codec: Codec<F>, fs: seq<F>): Bytes
  {
    if fs == [] then [] else WriteFrame(codec, fs[0]) + WriteAll(codec, fs[1..])
  }

  /** Reading n frames in a row, or the reason the first unreadable one stops at. */
  function ReadAll<F>(codec: Codec<F>, wire: Bytes, n: nat): Option<(seq<F>, Bytes)>
    decreases n
  {
    if n == 0 then Some(([], wire))
    else
      match ReadFrame(codec, wire)
      case Parsed(f, rest) =>
        (match ReadAll(codec, rest, n - 1)
         case Some((fs, last)) => Some(([f] + fs, last))
         case None => None)
      case _ => None
  }

  /** A pipelined run of frames comes back as that run, whatever follows on the stream. */
  lemma {:induction false} PipelineRoundTrip<F(!new)>(codec: Codec<F>, fs: seq<F>, rest: Bytes)
    requires RoundTrips(codec)
    requires forall k | 0 <= k < |fs| :: |codec.encode(fs[k])| <= MAX_FRAME
    ensures ReadAll(codec, WriteAll(codec, fs) + rest, |fs|) == Some((fs, rest))
    decreases |fs|
  {
    if fs == [] {
      assert [] + rest == rest;
    } else {
      hide WriteFrame, ReadFrame, RoundTrips;
      var more := WriteAll(codec, fs[1..]) + rest;
      FrameRoundTripIff(codec, fs[0], more);
      assert WriteAll(codec, fs) + rest == WriteFrame(codec, fs[0]) + more;
      PipelineRoundTrip(codec, fs[1..], rest);
      assert [fs[0]] + fs[1..] == fs;
    }
  }

  // ---------------------------------------------------------------- streaming hash

  /** An incremental hash function, as an input. */
  datatype Hasher<!S> = Hasher(init: S, update: (S, Bytes) -> S, finalize: S -> string)

  /** Feeding two pieces is feeding their concatenation. */
  ghost predicate Incremental<S(!new)>(h: Hasher<S>)
  {
    && h.update(h.init, []) == h.init
    && forall s: S, a: Bytes, b: Bytes :: h.update(h.update(s, a), b) == h.update(s, a + b)
  }

  lemma FeedMore<S(!new)>(h: Hasher<S>, a: Bytes, b: Bytes)
    requires Incremental(h)
    ensures h.update(h.update(h.init, a), b) == h.update(h.init, a + b)
  {
  }

  function HashOf<S>(h: Hasher<S>, data: Bytes): string
  {
    h.finalize(h.update(h.init, data))
  }

  /** One exact read of wire[from..to] into its place in the buffer. */
  method ReadExact(data: array<Byte>, wire: Bytes, from: nat, to: nat)
    requires from <= to <= data.Length && to <= |wire|
    requires data[..from] == wire[..from]
    modifies data
    ensures data[..to] == wire[..to]
  {
    forall k | from <= k < to {
      data[k] := wire[k];
    }
    forall k | 0 <= k < to ensures data[k] == wire[k] {
      if k < from {
        assert old(data[..from])[k] == wire[..from][k];
      }
    }
  }

  /** Read n bytes chunk by chunk into a buffer, hashing each chunk as it arrives: the data is the wire's next
      n bytes and the hash is the hash of the whole, or nothing if the wire ends first. */
  method ReadPayloadStreaming<S(!new)>(h: Hasher<S>, wire: Bytes, n: nat) returns (r: Option<(Bytes, string)>)
    requires Incremental(h)
    ensures r.Some? <==> n <= |wire|
    ensures r.Some? ==> r.value == (wire[..n], HashOf(h, wire[..n]))
  {
    assert h.update(h.init, []) == h.init;
    hide Incremental;
    var data := new Byte[n](_ => 0);
    var hasher := h.init;
    var offset := 0;
    assert wire[..0] == [];
    while offset < n
      invariant 0 <= offset <= n && offset <= |wire|
      invariant data[..offset] == wire[..offset]
      invariant hasher == h.update(h.init, wire[..offset])
    {
      var end := Min(offset + CHUNK_SIZE, n);
      if end > |wire| {
        return None;
      }
      ReadExact(data, wire, offset, end);
      assert wire[..offset] + wire[offset..end] == wire[..end];
      assert data[offset..end] == data[..end][offset..] == wire[..end][offset..] == wire[offset..end];
      FeedMore(h, wire[..offset], wire[offset..end]);
      hasher := h.update(hasher, data[offset..end]);
      offset := end;
    }
    assert data[..n] == data[..];
    r := Some((data[..], h.finalize(hasher)));
  }
}
