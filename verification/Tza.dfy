/** The .tza snapshot format: build_tza_blob and parse_tza_header (snapshot.rs). */
module Tza {
  import opened Prelude

  const MAGIC: Bytes := [0x54, 0x42, 0x5A]
  const VERSION: Byte := 1
  const BLOCK_SNAPSHOT: Byte := 2
  const HEADER_SIZE: nat := 157

  /** What a blob is built from; intentHash, seal and hash are text of any length. */
  datatype Snapshot = Snapshot(intentHash: Bytes, seal: Bytes, hash: Bytes, rawSize: nat, compressedSize: nat, data: Bytes)

  datatype Header = Header(version: Byte, blockType: Byte, intentHash: Bytes, timestamp: nat,
                           rawSize: nat, compressedSize: nat, dataOffset: nat)

  datatype ParseResult = Parsed(header: Header) | TooSmall(len: nat) | BadMagic | BadVersion(version: Byte)

  function HeaderBytes(s: Snapshot, timestamp: nat): (r: Bytes)
    ensures |r| == HEADER_SIZE
  {
    MAGIC + [VERSION] + [BLOCK_SNAPSHOT] + Fit(s.intentHash, 32) + LittleEndian(timestamp, 8)
    + LittleEndian(s.rawSize, 8) + LittleEndian(s.compressedSize, 8) + Fit(s.seal, 64) + Fit(s.hash, 32)
  }

  function Blob(s: Snapshot, timestamp: nat): Bytes
  {
    HeaderBytes(s, timestamp) + s.data
  }

  /** One padded field: the text cut to width, then the buffer resized by what is missing. */
  method AppendFitted(blob: Bytes, text: Bytes, width: nat) returns (r: Bytes)
    ensures r == blob + Fit(text, width)
  {
    var taken := if |text| < width then |text| else width;
    r := blob + text[..taken];
    r := r + Zeros(width - taken);
  }

  method BuildTzaBlob(s: Snapshot, timestamp: nat) returns (blob: Bytes)
    ensures blob == Blob(s, timestamp)
  {
    hide LittleEndian, Fit;
    blob := MAGIC;
    blob := blob + [VERSION];
    blob := blob + [BLOCK_SNAPSHOT];
    blob := AppendFitted(blob, s.intentHash, 32);
    blob := blob + LittleEndian(timestamp, 8);
    blob := blob + LittleEndian(s.rawSize, 8);
    blob := blob + LittleEndian(s.compressedSize, 8);
    blob := AppendFitted(blob, s.seal, 64);
    blob := AppendFitted(blob, s.hash, 32);
    blob := blob + s.data;
  }

  function ParseTzaHeader(blob: Bytes): ParseResult
  {
    if |blob| < HEADER_SIZE then TooSmall(|blob|)
    else if blob[0..3] != MAGIC then BadMagic
    else if blob[3] != VERSION then BadVersion(blob[3])
    else Parsed(Header(blob[3], blob[4], blob[5..37], FromLittleEndian(blob[37..45]), FromLittleEndian(blob[45..53]),
                       FromLittleEndian(blob[53..61]), HEADER_SIZE))
  }

  /** Where each field of a built blob stands. */
  lemma FieldsOf(s: Snapshot, timestamp: nat)
    ensures var b := Blob(s, timestamp);
            && |b| == HEADER_SIZE + |s.data| && b[0..3] == MAGIC && b[3] == VERSION && b[4] == BLOCK_SNAPSHOT
            && b[5..37] == Fit(s.intentHash, 32) && b[37..45] == LittleEndian(timestamp, 8)
            && b[45..53] == LittleEndian(s.rawSize, 8) && b[53..61] == LittleEndian(s.compressedSize, 8)
            && b[61..125] == Fit(s.seal, 64) && b[125..157] == Fit(s.hash, 32) && b[157..] == s.data
  {
    hide LittleEndian, Fit;
  }

  lemma U64RoundTrip(n: nat)
    requires n < Pow256(8)
    ensures FromLittleEndian(LittleEndian(n, 8)) == n
  {
    LittleEndianRoundTrip(n, 8);
  }

  /** Parsing a built blob returns what was written, and the data follows the header, whatever the lengths of the
      seal and of the hashes. */
  lemma BuiltBlobParses(s: Snapshot, timestamp: nat)
    requires timestamp < Pow256(8) && s.rawSize < Pow256(8) && s.compressedSize < Pow256(8)
    ensures var b := Blob(s, timestamp);
            && ParseTzaHeader(b) == Parsed(Header(VERSION, BLOCK_SNAPSHOT, Fit(s.intentHash, 32), timestamp,
                                                  s.rawSize, s.compressedSize, HEADER_SIZE))
            && b[HEADER_SIZE..] == s.data
  {
    hide LittleEndian, FromLittleEndian, Fit, Blob, Pow256;
    FieldsOf(s, timestamp);
    U64RoundTrip(timestamp);
    U64RoundTrip(s.rawSize);
    U64RoundTrip(s.compressedSize);
  }

  /** What the fields of a parsed header say about the bytes they came from. */
  function FieldBytes(h: Header): Bytes
  {
    MAGIC + [h.version] + [h.blockType] + h.intentHash + LittleEndian(h.timestamp, 8)
    + LittleEndian(h.rawSize, 8) + LittleEndian(h.compressedSize, 8)
  }

  /** Parsing loses nothing of the first 61 bytes: they can be rebuilt from the header. */
  lemma ParsingLosesNothing(blob: Bytes)
    requires ParseTzaHeader(blob).Parsed?
    ensures blob[..61] == FieldBytes(ParseTzaHeader(blob).header)
  {
    hide LittleEndian, FromLittleEndian;
    var h := ParseTzaHeader(blob).header;
    FromLittleEndianRoundTrip(blob[37..45]);
    FromLittleEndianRoundTrip(blob[45..53]);
    FromLittleEndianRoundTrip(blob[53..61]);
    assert blob[..61] == blob[0..3] + [blob[3]] + [blob[4]] + blob[5..37] + blob[37..45] + blob[45..53] + blob[53..61];
  }

  /**
   Bytes received parse as a built blob does exactly when they are at least a header long and agree with it on the
   first 61 bytes: an alteration there is refused or shows in the header, and one behind them never does.
   */
  lemma AlterationShowsIff(s: Snapshot, timestamp: nat, received: Bytes)
    ensures ParseTzaHeader(received) == ParseTzaHeader(Blob(s, timestamp)) <==>
              |received| >= HEADER_SIZE && received[..61] == Blob(s, timestamp)[..61]
  {
    hide Blob, LittleEndian, FromLittleEndian;
    FieldsOf(s, timestamp);
    var b := Blob(s, timestamp);
    assert ParseTzaHeader(b).Parsed?;
    ParsingLosesNothing(b);
    if ParseTzaHeader(received).Parsed? {
      ParsingLosesNothing(received);
    }
    if |received| >= HEADER_SIZE && received[..61] == b[..61] {
      SameFields(received, b);
    }
  }

  lemma SameFields(a: Bytes, b: Bytes)
    requires |a| >= HEADER_SIZE && |b| >= HEADER_SIZE && a[..61] == b[..61]
    ensures ParseTzaHeader(a) == ParseTzaHeader(b)
  {
    hide FromLittleEndian;
    assert forall k | 0 <= k < 61 :: a[k] == a[..61][k] == b[k];
    assert a[0..3] == b[0..3] && a[5..37] == b[5..37];
    assert a[37..45] == b[37..45] && a[45..53] == b[45..53] && a[53..61] == b[53..61];
  }

  /** What is refused, and why: a header cut short, other first bytes than TBZ, any version but one; nothing else. */
  lemma RefusedIff(blob: Bytes)
    ensures ParseTzaHeader(blob) == TooSmall(|blob|) <==> |blob| < 157
    ensures ParseTzaHeader(blob).BadMagic? <==> |blob| >= 157 && !(blob[0] == 0x54 && blob[1] == 0x42 && blob[2] == 0x5A)
    ensures ParseTzaHeader(blob).BadVersion? <==>
              |blob| >= 157 && blob[0] == 0x54 && blob[1] == 0x42 && blob[2] == 0x5A && blob[3] != 1
    ensures ParseTzaHeader(blob).BadVersion? ==> ParseTzaHeader(blob).version == blob[3]
    ensures ParseTzaHeader(blob).Parsed? ==> ParseTzaHeader(blob).header.version == 1 && ParseTzaHeader(blob).header.dataOffset == 157
  {
    hide FromLittleEndian;
    if |blob| >= 157 {
      var first := blob[0..3];
      assert first == [blob[0], blob[1], blob[2]];
      assert first == MAGIC <==> first[0] == 0x54 && first[1] == 0x42 && first[2] == 0x5A;
    }
  }
}
