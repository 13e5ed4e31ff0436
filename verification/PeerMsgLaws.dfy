/** Laws of the wire codec: round trips in both directions, self-delimitation, unique decodability. */
module PeerMessageLaws {
  import opened Wrappers
  import opened Bytes
  import opened PeerMessages

  /** The payload shape that the builders give each kind of message. */
  predicate Canonical(m: PeerMsg) {
    match m.kind
    case Handshake => |m.payload| == 68 && m.payload[..28] == [19] + PROTOCOL + RESERVED
    case KeepAlive | Choked | Unchoked | Interested | NotInterested => m.payload == []
    case Have => |m.payload| == 4
    case Request => |m.payload| == 12
    case Piece => m.payload != []
    case Bitfield => true
  }

  /** Nothing that is encoded as another kind, whatever follows it, is taken for a handshake. */
  lemma OthersAreNoHandshake(m: PeerMsg, s: seq<byte>)
    requires !m.kind.Handshake? && Encode(m).Ok?
    ensures !IsPeerHandshakeMsg(Encode(m).value + s)
  {
    if m.kind.KeepAlive? {
      assert (PutUint32(0) + s)[0] == 0;
    } else {
      FrameIsNoHandshake(m.kind, Body(m).value, s);
    }
  }

  lemma FrameIsNoHandshake(kind: Kind, body: seq<byte>, s: seq<byte>)
    requires !kind.Handshake? && !kind.KeepAlive?
    ensures !IsPeerHandshakeMsg(Frame(kind, body) + s)
  {
    var buf := Frame(kind, body) + s;
    assert buf[4] == Id(kind);
    if |buf| >= 20 {
      assert buf[1..20][3] == buf[4] && PROTOCOL[3] == 84;
    }
  }

  lemma ParseOfFrame(kind: Kind, body: seq<byte>)
    requires !kind.Handshake? && !kind.KeepAlive?
    ensures Parse(Frame(kind, body)) == Ok(PeerMsg(kind, body))
  {
    FrameIsNoHandshake(kind, body, []);
    assert Frame(kind, body) + [] == Frame(kind, body);
    assert Frame(kind, body)[5..] == body;
  }

  lemma CanonicalHandshakeIsRecognized(payload: seq<byte>, s: seq<byte>)
    requires Canonical(PeerMsg(Handshake, payload))
    ensures IsPeerHandshakeMsg(payload + s)
  {
    var head := payload[..28];
    assert (payload + s)[0] == head[0];
    assert (payload + s)[1..20] == head[1..20];
  }

  lemma ParseOfHandshake(payload: seq<byte>)
    ensures Parse(payload) == Ok(PeerMsg(Handshake, payload)) <==> Canonical(PeerMsg(Handshake, payload))
  {
    if |payload| >= 68 {
      var rebuilt := BuildPeerHandshakeMsg(payload[48..68], payload[28..48]).payload;
      assert rebuilt[..28] == [19] + PROTOCOL + RESERVED;
      if Canonical(PeerMsg(Handshake, payload)) {
        CanonicalHandshakeIsRecognized(payload, []);
        assert payload + [] == payload;
        assert payload[28..] == payload[28..48] + payload[48..68];
        assert payload == payload[..28] + payload[28..];
        assert rebuilt == rebuilt[..28] + (payload[28..48] + payload[48..68]);
      }
    }
  }

  lemma BodyIsPayloadIffCanonical(m: PeerMsg)
    requires !m.kind.Handshake?
    ensures Body(m) == Ok(m.payload) <==> Canonical(m)
  {
    assert m.payload[..|m.payload|] == m.payload;
  }

  /** Parsing gives back an encoded message exactly when it has the shape its builder gives it. */
  lemma RoundTripIffCanonical(m: PeerMsg)
    ensures (Encode(m).Ok? && Parse(Encode(m).value) == Ok(m)) <==> Canonical(m)
  {
    if m.kind.Handshake? {
      ParseOfHandshake(m.payload);
    } else if m.kind.KeepAlive? {
      assert !IsPeerHandshakeMsg(PutUint32(0));
    } else {
      BodyIsPayloadIffCanonical(m);
      if Body(m).Ok? {
        ParseOfFrame(m.kind, Body(m).value);
      }
    }
  }

  lemma FrameIsInjective(kind: Kind, a: seq<byte>, b: seq<byte>)
    requires !kind.Handshake? && !kind.KeepAlive?
    ensures Frame(kind, a) == Frame(kind, b) <==> a == b
  {
    assert Frame(kind, a)[5..] == a && Frame(kind, b)[5..] == b;
  }

  /** A handshake with its reserved bytes cleared; any other frame as it is. */
  function Normalize(f: seq<byte>): seq<byte> {
    if IsPeerHandshakeMsg(f) && |f| >= 28 then f[..20] + RESERVED + f[28..] else f
  }

  lemma NormalizeIsIdempotent(f: seq<byte>)
    ensures Normalize(Normalize(f)) == Normalize(f)
  {
    if IsPeerHandshakeMsg(f) && |f| >= 28 {
      var g := Normalize(f);
      assert g[..20] == f[..20] && g[28..] == f[28..];
      assert g[1..20] == f[1..20];
    }
  }

  /** Encoding what was parsed from an exact-length frame gives the frame back, up to the reserved bytes
      of a handshake, exactly when the parsed message is canonical.  Handshakes always are; a CHOKED frame
      that carries a payload is accepted but never reproduced. */
  lemma ReencodeIffCanonical(f: seq<byte>)
    requires ParseRawPeerMsgLength(f) == Ok(|f|)
    requires Parse(f).Ok?
    ensures Encode(Parse(f).value) == Ok(Normalize(f)) <==> Canonical(Parse(f).value)
    ensures Parse(f).value.kind.Handshake? ==> Canonical(Parse(f).value)
  {
    if IsPeerHandshakeMsg(f) {
      ReencodeHandshake(f);
    } else if |f| == 4 {
      PutOfUint32(f);
      assert f == f[..4];
    } else {
      var m := Parse(f).value;
      PutOfUint32(f);
      assert f == f[..4] + [f[4]] + f[5..];
      assert f == Frame(m.kind, m.payload);
      BodyIsPayloadIffCanonical(m);
      if Body(m).Ok? {
        FrameIsInjective(m.kind, Body(m).value, m.payload);
      }
    }
  }

  lemma ReencodeHandshake(f: seq<byte>)
    requires IsPeerHandshakeMsg(f) && |f| == 68
    ensures Parse(f).Ok? && Encode(Parse(f).value) == Ok(Normalize(f)) && Canonical(Parse(f).value)
  {
    var normal := Normalize(f);
    assert f[..20] == [19] + PROTOCOL;
    assert normal == [19] + PROTOCOL + RESERVED + f[28..48] + f[48..68];
    assert Parse(f).value.payload[..28] == [19] + PROTOCOL + RESERVED;
  }

  /** The reader learns the length of a canonical message from its first bytes, whatever follows them,
      exactly when the frame is no longer than the limit it imposes. */
  lemma SelfDelimitingIff(m: PeerMsg, s: seq<byte>)
    requires Canonical(m)
    ensures Encode(m).Ok?
    ensures ParseRawPeerMsgLength(Encode(m).value + s) == Ok(|Encode(m).value|)
       <==> |Encode(m).value| <= MAX_MSG_LENGTH
  {
    var f := Encode(m).value;
    match m.kind
    case Handshake =>
      CanonicalHandshakeIsRecognized(m.payload, s);
    case KeepAlive =>
      Uint32OfPut(0, s);
    case _ =>
      BodyIsPayloadIffCanonical(m);
      FrameLength(m.kind, m.payload, s);
  }

  lemma FrameLength(kind: Kind, body: seq<byte>, s: seq<byte>)
    requires !kind.Handshake? && !kind.KeepAlive?
    ensures ParseRawPeerMsgLength(Frame(kind, body) + s) == Ok(|Frame(kind, body)|)
       <==> |Frame(kind, body)| <= MAX_MSG_LENGTH
  {
    FrameIsNoHandshake(kind, body, s);
    var n := ToUint32(|body| + 1);
    var rest := [Id(kind)] + body + s;
    Uint32OfPut(n, rest);
    assert Frame(kind, body) + s == PutUint32(n) + rest;
  }

  /** The messages a peer may send: of the builders' shape and within the reader's limit. */
  predicate WellFormed(m: PeerMsg) {
    Canonical(m) && Encode(m).Ok? && |Encode(m).value| <= MAX_MSG_LENGTH
  }

  /** No frame of a well-formed message is a proper prefix of another. */
  lemma PrefixFree(a: PeerMsg, b: PeerMsg)
    requires WellFormed(a) && WellFormed(b)
    requires Encode(a).value <= Encode(b).value
    ensures a == b
  {
    var f, g := Encode(a).value, Encode(b).value;
    var s := g[|f|..];
    SelfDelimitingIff(a, s);
    SelfDelimitingIff(b, []);
    assert f + s == g && g + [] == g;
    assert f == g;
    RoundTripIffCanonical(a);
    RoundTripIffCanonical(b);
  }

  ghost predicate AllWellFormed(ms: seq<PeerMsg>) {
    forall m :: m in ms ==> WellFormed(m)
  }

  ghost function Stream(ms: seq<PeerMsg>): seq<byte>
    requires AllWellFormed(ms)
  {
    if |ms| == 0 then [] else assert ms[0] in ms; Encode(ms[0]).value + Stream(ms[1..])
  }

  lemma FramesAreNotEmpty(m: PeerMsg)
    requires WellFormed(m)
    ensures |Encode(m).value| >= 4
  {
  }

  /** A stream of well-formed messages can be taken apart in one way only. */
  lemma {:induction false} UniquelyDecodable(a: seq<PeerMsg>, b: seq<PeerMsg>)
    requires AllWellFormed(a) && AllWellFormed(b)
    requires Stream(a) == Stream(b)
    ensures a == b
  {
    if |a| == 0 {
      if |b| > 0 {
        assert b[0] in b;
        FramesAreNotEmpty(b[0]);
      }
    } else if |b| == 0 {
      assert a[0] in a;
      FramesAreNotEmpty(a[0]);
    } else {
      assert a[0] in a && b[0] in b;
      var f, g := Encode(a[0]).value, Encode(b[0]).value;
      SelfDelimitingIff(a[0], Stream(a[1..]));
      SelfDelimitingIff(b[0], Stream(b[1..]));
      assert f == Stream(a)[..|f|] == g;
      assert Stream(a[1..]) == Stream(a)[|f|..] == Stream(b[1..]);
      RoundTripIffCanonical(a[0]);
      RoundTripIffCanonical(b[0]);
      UniquelyDecodable(a[1..], b[1..]);
    }
  }
}
