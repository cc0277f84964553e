/** The server-name walker over a TLS ClientHello (extract_tls_sni in portmux.rs). */
module Sni {
  import opened Prelude

  function U16(data: Bytes, pos: nat): (n: nat)
    requires pos + 2 <= |data|
    ensures n < 0x10000
  {
    data[pos] as nat * 256 + data[pos + 1] as nat
  }

  /** Past the record and handshake headers, version, random, session id, cipher suites and compression methods:
      where the length of the extensions stands. */
  function ExtensionsLengthAt(data: Bytes): (r: Option<nat>)
    ensures r.Some? ==> r.value + 2 <= |data|
  {
    if |data| < 43 then None
    else
      var pos := 5 + 1 + 3 + 2 + 32;
      if pos >= |data| then None
      else
        var pos := pos + 1 + data[pos] as nat;
        if pos + 2 > |data| then None
        else
          var pos := pos + 2 + U16(data, pos);
          if pos + 1 > |data| then None
          else
            var pos := pos + 1 + data[pos] as nat;
            if pos + 2 > |data| then None else Some(pos)
  }

  /** The walk over the extensions; utf8 says whether bytes are a valid string. */
  function Walk(data: Bytes, pos: nat, end: nat, utf8: Bytes -> bool): Option<Bytes>
    decreases SatSub(|data|, pos)
  {
    if pos + 4 <= end && pos + 4 <= |data| then
      var kind, len := U16(data, pos), U16(data, pos + 2);
      var pos := pos + 4;
      if kind == 0 && len > 5 && pos + len <= |data| && pos + 5 + U16(data, pos + 3) <= |data| then
        var name := data[pos + 5..pos + 5 + U16(data, pos + 3)];
        if utf8(name) then Some(name) else None
      else Walk(data, pos + len, end, utf8)
    else None
  }

  function ServerName(data: Bytes, utf8: Bytes -> bool): Option<Bytes>
  {
    match ExtensionsLengthAt(data)
    case None => None
    case Some(at) => Walk(data, at + 2, at + 2 + U16(data, at), utf8)
  }

  /** The walker itself: no access is out of range and it terminates, on every byte sequence. */
  method ExtractTlsSni(data: Bytes, utf8: Bytes -> bool) returns (name: Option<Bytes>)
    ensures name == ServerName(data, utf8)
  {
    hide U16;
    if |data| < 43 { return None; }
    var pos: nat := 5;
    if pos >= |data| { return None; }
    pos := pos + 1;
    pos := pos + 3;
    pos := pos + 2;
    pos := pos + 32;

    if pos >= |data| { return None; }
    var sessionIdLen := data[pos] as nat;
    pos := pos + 1 + sessionIdLen;

    if pos + 2 > |data| { return None; }
    var cipherSuitesLen := U16(data, pos);
    pos := pos + 2 + cipherSuitesLen;

    if pos + 1 > |data| { return None; }
    var compressionLen := data[pos] as nat;
    pos := pos + 1 + compressionLen;

    if pos + 2 > |data| { return None; }
    var extensionsLen := U16(data, pos);
    pos := pos + 2;
    var end := pos + extensionsLen;
    assert ServerName(data, utf8) == Walk(data, pos, end, utf8);
    hide ServerName, ExtensionsLengthAt;

    while pos + 4 <= end && pos + 4 <= |data|
      invariant ServerName(data, utf8) == Walk(data, pos, end, utf8)
      decreases SatSub(|data|, pos)
    {
      var kind := U16(data, pos);
      var len := U16(data, pos + 2);
      pos := pos + 4;
      if kind == 0 && len > 5 && pos + len <= |data| {
        var nameLen := U16(data, pos + 3);
        if pos + 5 + nameLen <= |data| {
          var bytes := data[pos + 5..pos + 5 + nameLen];
          return if utf8(bytes) then Some(bytes) else None;
        }
      }
      pos := pos + len;
    }
    return None;
  }

  // ---------------------------------------------------------------- the message, as the standards lay it out

  datatype Name = Name(kind: Byte, text: Bytes)

  /** An extension of a ClientHello: a server_name list (section 3 of RFC 6066), or any other. */
  datatype Extension = ServerNames(names: seq<Name>) | Other(kind: nat, body: Bytes)

  /** A ClientHello (section 4.1.2 of RFC 8446) in its record. Headers, version and random are opaque here. */
  datatype ClientHello = ClientHello(
    record: Bytes,
    handshake: Bytes,
    version: Bytes,
    random: Bytes,
    sessionId: Bytes,
    cipherSuites: Bytes,
    compression: Bytes,
    extensions: seq<Extension>)

  function Be16(n: nat): (r: Bytes)
    ensures |r| == 2
  {
    [(n / 256 % 256) as Byte, (n % 256) as Byte]
  }

  /** A vector behind a one-byte length; below, behind a two-byte length. */
  function Vec8(b: Bytes): Bytes
  {
    [(|b| % 256) as Byte] + b
  }

  function Vec16(b: Bytes): Bytes
  {
    Be16(|b|) + b
  }

  function EncodeName(n: Name): Bytes
  {
    [n.kind] + Be16(|n.text|) + n.text
  }

  function EncodeNames(names: seq<Name>): Bytes
  {
    if names == [] then [] else EncodeName(names[0]) + EncodeNames(names[1..])
  }

  function KindOf(e: Extension): nat
  {
    if e.ServerNames? then 0 else e.kind
  }

  function BodyOf(e: Extension): Bytes
  {
    if e.ServerNames? then Vec16(EncodeNames(e.names)) else e.body
  }

  function EncodeExtension(e: Extension): Bytes
  {
    Be16(KindOf(e)) + Be16(|BodyOf(e)|) + BodyOf(e)
  }

  function EncodeExtensions(es: seq<Extension>): Bytes
  {
    if es == [] then [] else EncodeExtension(es[0]) + EncodeExtensions(es[1..])
  }

  function Encode(h: ClientHello): Bytes
  {
    h.record + h.handshake + h.version + h.random
    + Vec8(h.sessionId) + Vec16(h.cipherSuites) + Vec8(h.compression) + Vec16(EncodeExtensions(h.extensions))
  }

  /** Lengths fit their fields, a name is never empty, and type zero is used only for server names (or, for an
      extension that carries none, for a body too short to hold one). */
  ghost predicate WellFormedExtension(e: Extension)
  {
    && |BodyOf(e)| < 0x10000 && KindOf(e) < 0x10000
    && (e.Other? && e.kind == 0 ==> |e.body| <= 5)
    && (e.ServerNames? ==> forall k | 0 <= k < |e.names| :: 0 < |e.names[k].text|)
  }

  ghost predicate WellFormed(h: ClientHello)
  {
    && |h.record| == 5 && |h.handshake| == 4 && |h.version| == 2 && |h.random| == 32
    && |h.sessionId| < 256 && |h.cipherSuites| < 0x10000 && |h.compression| < 256
    && |EncodeExtensions(h.extensions)| < 0x10000
    && (forall k | 0 <= k < |h.extensions| :: WellFormedExtension(h.extensions[k]))
  }

  /** The first server name the message carries, whatever other extensions come before it. */
  function FirstName(es: seq<Extension>): (r: Option<Bytes>)
  {
    if es == [] then None
    else if es[0].ServerNames? && es[0].names != [] then Some(es[0].names[0].text)
    else FirstName(es[1..])
  }

  // ---------------------------------------------------------------- the walker meets the standards

  lemma U16Reads(data: Bytes, pos: nat, n: nat)
    requires pos + 2 <= |data| && data[pos..pos + 2] == Be16(n) && n < 0x10000
    ensures U16(data, pos) == n
  {
    assert data[pos] == data[pos..pos + 2][0] && data[pos + 1] == data[pos..pos + 2][1];
  }

  /** Where a concatenation starts, its first part starts and its second follows. */
  lemma Split(data: Bytes, pos: nat, end: nat, a: Bytes, b: Bytes)
    requires pos <= end <= |data| && data[pos..end] == a + b
    ensures pos + |a| <= end && data[pos..pos + |a|] == a && data[pos + |a|..end] == b
  {
    assert |data[pos..end]| == |a| + |b|;
    assert data[pos..pos + |a|] == data[pos..end][..|a|] == a;
    assert data[pos + |a|..end] == data[pos..end][|a|..] == b;
  }

  /** The head of one encoded extension reads back as its type and length. */
  lemma ExtensionHead(data: Bytes, pos: nat, end: nat, e: Extension)
    requires pos <= end <= |data| && data[pos..end] == EncodeExtension(e) && WellFormedExtension(e)
    ensures end == pos + 4 + |BodyOf(e)|
    ensures U16(data, pos) == KindOf(e) && U16(data, pos + 2) == |BodyOf(e)| && data[pos + 4..end] == BodyOf(e)
  {
    hide BodyOf, KindOf, Be16;
    Split(data, pos, end, Be16(KindOf(e)) + Be16(|BodyOf(e)|), BodyOf(e));
    Split(data, pos, pos + 4, Be16(KindOf(e)), Be16(|BodyOf(e)|));
    U16Reads(data, pos, KindOf(e));
    U16Reads(data, pos + 2, |BodyOf(e)|);
  }

  /** Inside a non-empty server_name list the first name stands five bytes in. */
  lemma FirstNameAt(data: Bytes, pos: nat, end: nat, e: Extension)
    requires pos <= end <= |data| && data[pos..end] == BodyOf(e) && WellFormedExtension(e) && e.ServerNames? && e.names != []
    ensures var text := e.names[0].text;
            && |BodyOf(e)| > 5 && pos + 5 + |text| <= end
            && U16(data, pos + 3) == |text| && data[pos + 5..pos + 5 + |text|] == text
  {
    hide Be16;
    var n := e.names[0];
    var list := EncodeNames(e.names);
    assert |n.text| > 0;
    Split(data, pos, end, Be16(|list|), list);
    Split(data, pos + 2, end, EncodeName(n), EncodeNames(e.names[1..]));
    var stop := pos + 5 + |n.text|;
    Split(data, pos + 2, stop, [n.kind] + Be16(|n.text|), n.text);
    Split(data, pos + 2, pos + 5, [n.kind], Be16(|n.text|));
    U16Reads(data, pos + 3, |n.text|);
  }

  lemma ShortListIsShort(e: Extension)
    requires WellFormedExtension(e) && KindOf(e) == 0 && !(e.ServerNames? && e.names != [])
    ensures |BodyOf(e)| <= 5
  {
  }

  function IfValid(name: Option<Bytes>, utf8: Bytes -> bool): Option<Bytes>
  {
    if name.Some? && utf8(name.value) then name else None
  }

  lemma {:induction false} WalkFinds(data: Bytes, pos: nat, end: nat, es: seq<Extension>, utf8: Bytes -> bool)
    requires pos <= end <= |data| && data[pos..end] == EncodeExtensions(es)
    requires forall k | 0 <= k < |es| :: WellFormedExtension(es[k])
    ensures Walk(data, pos, end, utf8) == IfValid(FirstName(es), utf8)
    decreases |es|
  {
    hide EncodeExtension, BodyOf, KindOf, WellFormedExtension, U16;
    if es != [] {
      var e := es[0];
      assert WellFormedExtension(e);
      Split(data, pos, end, EncodeExtension(e), EncodeExtensions(es[1..]));
      var next := pos + |EncodeExtension(e)|;
      ExtensionHead(data, pos, next, e);
      if e.ServerNames? && e.names != [] {
        FirstNameAt(data, pos + 4, next, e);
        KindOfNames(e);
      } else {
        if KindOf(e) == 0 { ShortListIsShort(e); }
        WalkFinds(data, next, end, es[1..], utf8);
      }
    }
  }

  lemma KindOfNames(e: Extension)
    requires e.ServerNames?
    ensures KindOf(e) == 0
  {
  }

  lemma Vec8Reads(data: Bytes, pos: nat, end: nat, b: Bytes)
    requires pos <= end <= |data| && data[pos..end] == Vec8(b) && |b| < 256
    ensures end == pos + 1 + |b| && data[pos] as nat == |b|
  {
    Split(data, pos, end, [(|b| % 256) as Byte], b);
    assert data[pos] == data[pos..pos + 1][0];
  }

  lemma Vec16Reads(data: Bytes, pos: nat, end: nat, b: Bytes)
    requires pos <= end <= |data| && data[pos..end] == Vec16(b) && |b| < 0x10000
    ensures end == pos + 2 + |b| && U16(data, pos) == |b| && data[pos + 2..end] == b
  {
    Split(data, pos, end, Be16(|b|), b);
    U16Reads(data, pos, |b|);
  }

  lemma EncodeIsPieces(h: ClientHello, rest: Bytes)
    ensures Encode(h) + rest == (h.record + h.handshake + h.version + h.random)
                                + (Vec8(h.sessionId) + (Vec16(h.cipherSuites) + (Vec8(h.compression)
                                + (Vec16(EncodeExtensions(h.extensions)) + rest))))
  {
    hide Vec8, Vec16, EncodeExtensions;
  }

  lemma SkipsLengths(data: Bytes, a: nat, b: nat, c: nat)
    requires 49 + a + b + c <= |data|
    requires data[43] as nat == a && U16(data, 44 + a) == b && data[46 + a + b] as nat == c
    ensures ExtensionsLengthAt(data) == Some(47 + a + b + c)
  {
    hide U16;
  }

  /** The fixed part of a well-formed message is skipped exactly. */
  lemma HeaderIsSkipped(h: ClientHello, rest: Bytes)
    requires WellFormed(h)
    ensures var data := Encode(h) + rest;
            var exts := EncodeExtensions(h.extensions);
            exists at: nat ::
              && at + 2 + |exts| <= |data| && ExtensionsLengthAt(data) == Some(at)
              && U16(data, at) == |exts| && data[at + 2..at + 2 + |exts|] == exts
  {
    hide Encode, EncodeExtensions, Vec8, Vec16, U16, WellFormedExtension, ExtensionsLengthAt;
    var data, exts := Encode(h) + rest, EncodeExtensions(h.extensions);
    EncodeIsPieces(h, rest);
    var sid, suites, comp, tail := Vec8(h.sessionId), Vec16(h.cipherSuites), Vec8(h.compression), Vec16(exts);
    HeaderPieces(data, h.record + h.handshake + h.version + h.random, sid, suites, comp, tail, rest);
    var p1 := 43 + |sid|;
    var p2 := p1 + |suites|;
    var at := p2 + |comp|;
    Vec8Reads(data, 43, p1, h.sessionId);
    Vec16Reads(data, p1, p2, h.cipherSuites);
    Vec8Reads(data, p2, at, h.compression);
    Vec16Reads(data, at, at + |tail|, exts);
    SkipsLengths(data, |h.sessionId|, |h.cipherSuites|, |h.compression|);
  }

  lemma HeaderPieces(data: Bytes, head: Bytes, sid: Bytes, suites: Bytes, comp: Bytes, tail: Bytes, rest: Bytes)
    requires data == head + (sid + (suites + (comp + (tail + rest)))) && |head| == 43
    ensures var p1 := 43 + |sid|; var p2 := p1 + |suites|; var at := p2 + |comp|;
            && at + |tail| <= |data| && data[43..p1] == sid && data[p1..p2] == suites && data[p2..at] == comp
            && data[at..at + |tail|] == tail
  {
    var p1 := 43 + |sid|; var p2 := p1 + |suites|; var at := p2 + |comp|;
    assert data == data[0..|data|];
    Split(data, 0, |data|, head, sid + (suites + (comp + (tail + rest))));
    Split(data, 43, |data|, sid, suites + (comp + (tail + rest)));
    Split(data, p1, |data|, suites, comp + (tail + rest));
    Split(data, p2, |data|, comp, tail + rest);
    Split(data, at, |data|, tail, rest);
  }

  /**
   On every well-formed ClientHello, whatever follows it on the stream and whatever extensions come before, the walker
   returns the first server name, provided it is valid text; and nothing when the message names no server.
   */
  lemma FindsTheServerName(h: ClientHello, rest: Bytes, utf8: Bytes -> bool)
    requires WellFormed(h)
    ensures ServerName(Encode(h) + rest, utf8) == IfValid(FirstName(h.extensions), utf8)
  {
    hide Encode, EncodeExtensions, ExtensionsLengthAt, Walk, FirstName;
    var data, exts := Encode(h) + rest, EncodeExtensions(h.extensions);
    HeaderIsSkipped(h, rest);
    var at: nat :| at + 2 + |exts| <= |data| && ExtensionsLengthAt(data) == Some(at)
                   && U16(data, at) == |exts| && data[at + 2..at + 2 + |exts|] == exts;
    WalkFinds(data, at + 2, at + 2 + |exts|, h.extensions, utf8);
  }

  /** FirstName is the name of the earliest server_name list that has one. */
  lemma {:induction false} FirstNameIsEarliest(before: seq<Extension>, e: Extension, after: seq<Extension>)
    requires forall k | 0 <= k < |before| :: before[k].Other? || before[k].names == []
    requires e.ServerNames? && e.names != []
    ensures FirstName(before + [e] + after) == Some(e.names[0].text)
  {
    var es := before + [e] + after;
    if before == [] {
      assert es[0] == e;
    } else {
      assert es[0] == before[0] && es[1..] == before[1..] + [e] + after;
      FirstNameIsEarliest(before[1..], e, after);
    }
  }

  ghost predicate StandsAt(data: Bytes, p: nat, name: Bytes)
  {
    p + 2 + |name| <= |data| && U16(data, p) == |name| && data[p + 2..p + 2 + |name|] == name
  }

  /** On any bytes at all, a name that is returned is valid text standing in the data behind its own length. */
  lemma {:induction false} WalkReturnsASlice(data: Bytes, pos: nat, end: nat, utf8: Bytes -> bool)
    ensures var r := Walk(data, pos, end, utf8);
            r.Some? ==> utf8(r.value) && exists p: nat :: p >= pos && StandsAt(data, p, r.value)
    decreases SatSub(|data|, pos)
  {
    if pos + 4 <= end && pos + 4 <= |data| {
      var kind, len := U16(data, pos), U16(data, pos + 2);
      var next := pos + 4;
      if kind == 0 && len > 5 && next + len <= |data| && next + 5 + U16(data, next + 3) <= |data| {
        assert StandsAt(data, next + 3, data[next + 5..next + 5 + U16(data, next + 3)]);
      } else {
        WalkReturnsASlice(data, next + len, end, utf8);
      }
    }
  }
}
