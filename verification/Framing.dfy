/** `shared/src/util.cpp`: byte stuffing and the framing automaton. */
module Framing {
  import opened Prelude
  import opened PacketCodec

  const DELIMITER: byte := 0xF0
  const ESCAPE: byte := 0xF1
  const ESCAPED_DELIMITER: byte := 0x00
  const ESCAPED_ESCAPE: byte := 0x01

  // ---------------------------------------------------------------- encoder

  function StuffByte(b: byte): seq<byte> {
    if b == DELIMITER then [ESCAPE, ESCAPED_DELIMITER]
    else if b == ESCAPE then [ESCAPE, ESCAPED_ESCAPE]
    else [b]
  }

  function Stuff(bytes: seq<byte>): seq<byte> {
    if bytes == [] then [] else Stuff(bytes[..|bytes| - 1]) + StuffByte(bytes[|bytes| - 1])
  }

  function Encoded(p: Packet): seq<byte> {
    Stuff(Serialized(p)) + [DELIMITER]
  }

  /** The frames of several packets, one after another. */
  function EncodedAll(ps: seq<Packet>): seq<byte> {
    if ps == [] then [] else EncodedAll(ps[..|ps| - 1]) + Encoded(ps[|ps| - 1])
  }

  method Encapsulate(p: Packet) returns (payload: seq<byte>)
    ensures payload == Encoded(p)
  {
    payload := [];
    var serialized := Serialize(p);
    for i := 0 to |serialized|
      invariant payload == Stuff(serialized[..i])
    {
      var b := serialized[i];
      assert serialized[..i + 1][..i] == serialized[..i];
      if b == DELIMITER {
        payload := payload + [ESCAPE];
        payload := payload + [ESCAPED_DELIMITER];
      } else if b == ESCAPE {
        payload := payload + [ESCAPE];
        payload := payload + [ESCAPED_ESCAPE];
      } else {
        payload := payload + [b];
      }
    }
    assert serialized[..|serialized|] == serialized;
    payload := payload + [DELIMITER];
  }

  // -------------------------------------------------------------- automaton

  /** The automaton between two input bytes: the decoded bytes of the open frame, whether an
      escape is pending, and the raw bytes read since the last frame boundary. */
  datatype Scan = Scan(frame: seq<byte>, escaped: bool, raw: seq<byte>)

  const BOUNDARY := Scan([], false, [])

  function Unescape(b: byte): seq<byte> {
    if b == ESCAPED_DELIMITER then [DELIMITER]
    else if b == ESCAPED_ESCAPE then [ESCAPE]
    else [ESCAPE, b]
  }

  function Step(s: Scan, b: byte): Scan {
    if s.escaped then Scan(s.frame + Unescape(b), false, s.raw + [b])
    else if b == ESCAPE then Scan(s.frame, true, s.raw + [b])
    else if b == DELIMITER then BOUNDARY
    else Scan(s.frame + [b], false, s.raw + [b])
  }

  /** What one input byte completes: at most one packet, none for an empty frame. */
  function Emit(s: Scan, b: byte): seq<Packet> {
    if !s.escaped && b == DELIMITER && s.frame != [] then [Deserialized(s.frame)] else []
  }

  function After(s: Scan, bytes: seq<byte>): Scan {
    if bytes == [] then s
    else Step(After(s, bytes[..|bytes| - 1]), bytes[|bytes| - 1])
  }

  function Emitted(s: Scan, bytes: seq<byte>): seq<Packet> {
    if bytes == [] then []
    else
      var n := |bytes| - 1;
      Emitted(s, bytes[..n]) + Emit(After(s, bytes[..n]), bytes[n])
  }

  /** The packets one parse of a whole stream yields. */
  function PacketsOf(bytes: seq<byte>): seq<Packet> {
    Emitted(BOUNDARY, bytes)
  }

  /** The bytes one parse of a whole stream leaves unconsumed. */
  function Residue(bytes: seq<byte>): seq<byte> {
    After(BOUNDARY, bytes).raw
  }

  /** A QByteArray that its holder updates in place. */
  class ByteArray {
    var bytes: seq<byte>

    constructor (bytes: seq<byte>)
      ensures this.bytes == bytes
    {
      this.bytes := bytes;
    }

    method Append(more: seq<byte>)
      modifies this
      ensures bytes == old(bytes) + more
    {
      bytes := bytes + more;
    }
  }

  /** The byte after an escape; an unknown code keeps the escape byte and itself. */
  method AppendEscaped(buffer: seq<byte>, b: byte) returns (longer: seq<byte>)
    ensures longer == buffer + Unescape(b)
  {
    longer := buffer;
    if b == ESCAPED_DELIMITER {
      longer := longer + [DELIMITER];
    } else if b == ESCAPED_ESCAPE {
      longer := longer + [ESCAPE];
    } else {
      longer := longer + [ESCAPE];
      longer := longer + [b];
    }
  }

  /** The parsing loop: it decodes into `buffer`, and at the end trims the caller's array up to
      the last frame boundary it passed. */
  method ParseStream(input: ByteArray) returns (messages: seq<Packet>)
    modifies input
    ensures messages == PacketsOf(old(input.bytes))
    ensures input.bytes == Residue(old(input.bytes))
  {
    messages := [];
    var buffer: seq<byte> := [];
    var escaped := false;
    var consumed := 0;
    var bytes := input.bytes;
    ghost var scan := BOUNDARY;
    RunNothing(BOUNDARY);
    hide After, Emitted, Deserialized, Unescape;

    for i := 0 to |bytes|
      invariant 0 <= consumed <= i
      invariant scan == After(BOUNDARY, bytes[..i])
      invariant scan.frame == buffer && scan.escaped == escaped && scan.raw == bytes[consumed..i]
      invariant messages == Emitted(BOUNDARY, bytes[..i])
      invariant input.bytes == bytes
    {
      var b := bytes[i];
      RunSnoc(BOUNDARY, bytes[..i], b);
      SliceSnoc(bytes, 0, i);
      SliceSnoc(bytes, consumed, i);

      if escaped {
        buffer := AppendEscaped(buffer, b);
        escaped := false;
      } else if b == ESCAPE {
        escaped := true;
      } else if b == DELIMITER {
        if buffer != [] {
          var message := Deserialize(buffer);
          messages := messages + [message];
        }
        buffer := [];
        consumed := i + 1;
      } else {
        buffer := buffer + [b];
      }
      scan := Step(scan, b);
    }

    assert bytes[..|bytes|] == bytes;
    if consumed > 0 {
      input.bytes := bytes[consumed..];
    }
  }

  lemma SliceSnoc<T>(s: seq<T>, from: nat, to: nat)
    requires from <= to < |s|
    ensures s[from..to + 1] == s[from..to] + [s[to]]
    ensures from == 0 ==> s[..to + 1] == s[..to] + [s[to]]
  {
  }

  method Parse(bytes: seq<byte>) returns (messages: seq<Packet>)
    ensures messages == PacketsOf(bytes)
  {
    var buffer := new ByteArray(bytes);
    messages := ParseStream(buffer);
  }

  // ---------------------------------------------------- cutting the stream

  lemma RunNothing(s: Scan)
    ensures After(s, []) == s && Emitted(s, []) == []
  {
  }

  lemma RunSnoc(s: Scan, bytes: seq<byte>, b: byte)
    ensures After(s, bytes + [b]) == Step(After(s, bytes), b)
    ensures Emitted(s, bytes + [b]) == Emitted(s, bytes) + Emit(After(s, bytes), b)
  {
    assert (bytes + [b])[..|bytes|] == bytes;
  }

  lemma {:induction false} RunConcat(s: Scan, a: seq<byte>, b: seq<byte>)
    ensures After(s, a + b) == After(After(s, a), b)
    ensures Emitted(s, a + b) == Emitted(s, a) + Emitted(After(s, a), b)
  {
    if b == [] {
      assert a + b == a;
    } else {
      hide *;
      var m, x := b[..|b| - 1], b[|b| - 1];
      SplitLast(b);
      ConcatAssociative(a, m, [x]);
      RunConcat(s, a, m);
      RunSnoc(s, a + m, x);
      RunSnoc(After(s, a), m, x);
      ConcatAssociative(Emitted(s, a), Emitted(After(s, a), m), Emit(After(s, a + m), x));
    }
  }

  /** Rescanning the residue from a clean start reaches the state the automaton was in, and
      completes nothing on the way: the residue is all a later parse needs. */
  lemma {:induction false} ResidueReplays(bytes: seq<byte>)
    ensures After(BOUNDARY, Residue(bytes)) == After(BOUNDARY, bytes)
    ensures PacketsOf(Residue(bytes)) == []
  {
    if bytes == [] {
    } else {
      var m, b := bytes[..|bytes| - 1], bytes[|bytes| - 1];
      ResidueReplays(m);
      RunSnoc(BOUNDARY, Residue(m), b);
    }
  }

  /** One more chunk on top of the residue is the same as one more chunk on top of the whole
      history. */
  lemma ParseResumes(history: seq<byte>, chunk: seq<byte>)
    ensures PacketsOf(history + chunk) == PacketsOf(history) + PacketsOf(Residue(history) + chunk)
    ensures Residue(history + chunk) == Residue(Residue(history) + chunk)
  {
    hide After, Emitted;
    RunConcat(BOUNDARY, history, chunk);
    RunConcat(BOUNDARY, Residue(history), chunk);
    ResidueReplays(history);
  }

  /** Append-then-parse for each chunk in turn: what comes out and what is left in the buffer. */
  function FeedPackets(chunks: seq<seq<byte>>): seq<Packet> {
    if chunks == [] then []
    else
      var n := |chunks| - 1;
      FeedPackets(chunks[..n]) + PacketsOf(FeedBuffer(chunks[..n]) + chunks[n])
  }

  function FeedBuffer(chunks: seq<seq<byte>>): seq<byte> {
    if chunks == [] then []
    else Residue(FeedBuffer(chunks[..|chunks| - 1]) + chunks[|chunks| - 1])
  }

  /** However the stream is cut, the packets and the final residue are those of one parse. */
  lemma {:induction false} ChunkingInvariance(chunks: seq<seq<byte>>)
    ensures FeedPackets(chunks) == PacketsOf(Flatten(chunks))
    ensures FeedBuffer(chunks) == Residue(Flatten(chunks))
  {
    if chunks == [] {
    } else {
      hide PacketsOf, Residue;
      var n := |chunks| - 1;
      ChunkingInvariance(chunks[..n]);
      ParseResumes(Flatten(chunks[..n]), chunks[n]);
    }
  }

  // ----------------------------------------------------------- round trips

  lemma RunOne(s: Scan, b: byte)
    ensures After(s, [b]) == Step(s, b) && Emitted(s, [b]) == Emit(s, b)
  {
    assert [b][..0] == [];
  }

  lemma RunTwo(s: Scan, a: byte, b: byte)
    ensures After(s, [a, b]) == Step(Step(s, a), b)
    ensures Emitted(s, [a, b]) == Emit(s, a) + Emit(Step(s, a), b)
  {
    hide After, Emitted, Step, Emit;
    assert [a, b] == [a] + [b];
    RunOne(s, a);
    RunSnoc(s, [a], b);
  }

  lemma StuffedByteDecodes(s: Scan, b: byte)
    requires !s.escaped
    ensures After(s, StuffByte(b)) == Scan(s.frame + [b], false, s.raw + StuffByte(b))
    ensures Emitted(s, StuffByte(b)) == []
  {
    hide After, Emitted;
    var w := StuffByte(b);
    if |w| == 2 {
      RunTwo(s, w[0], w[1]);
      assert s.raw + [w[0]] + [w[1]] == s.raw + w;
    } else {
      RunOne(s, b);
    }
  }

  /** Outside an escape, a stuffed body is decoded byte for byte and completes nothing. */
  lemma {:induction false} StuffDecodes(s: Scan, body: seq<byte>)
    requires !s.escaped
    ensures After(s, Stuff(body)) == Scan(s.frame + body, false, s.raw + Stuff(body))
    ensures Emitted(s, Stuff(body)) == []
  {
    if body == [] {
      assert s.frame + body == s.frame && s.raw + Stuff(body) == s.raw;
    } else {
      hide *;
      var m, b := body[..|body| - 1], body[|body| - 1];
      var t := Scan(s.frame + m, false, s.raw + Stuff(m));
      SplitLast(body);
      StuffDecodes(s, m);
      StuffSnoc(m, b);
      RunConcat(s, Stuff(m), StuffByte(b));
      StuffedByteDecodes(t, b);
      ConcatAssociative(s.frame, m, [b]);
      ConcatAssociative(s.raw, Stuff(m), StuffByte(b));
    }
  }

  /** The rest of a frame, read outside an escape, closes it. */
  lemma FrameEnds(s: Scan, body: seq<byte>)
    requires !s.escaped && s.frame + body != []
    ensures After(s, Stuff(body) + [DELIMITER]) == BOUNDARY
    ensures Emitted(s, Stuff(body) + [DELIMITER]) == [Deserialized(s.frame + body)]
  {
    hide After, Emitted, Stuff;
    StuffDecodes(s, body);
    RunConcat(s, Stuff(body), [DELIMITER]);
    RunOne(After(s, Stuff(body)), DELIMITER);
  }

  /** A whole frame read from an unescaped state adds one packet and ends on a boundary. */
  lemma FrameDecodes(s: Scan, p: Packet)
    requires !s.escaped
    ensures After(s, Encoded(p)) == BOUNDARY
    ensures Emitted(s, Encoded(p)) == [Deserialized(s.frame + Serialized(p))]
  {
    FrameEnds(s, Serialized(p));
  }

  lemma EncodedAllSnoc(ps: seq<Packet>, p: Packet)
    ensures EncodedAll(ps + [p]) == EncodedAll(ps) + Encoded(p)
    ensures CanonicalAll(ps + [p]) == CanonicalAll(ps) + [Canonical(p)]
  {
    assert (ps + [p])[..|ps|] == ps;
  }

  /** What a frame read on its own gives back. */
  lemma EncodedAlone(p: Packet)
    ensures PacketsOf(Encoded(p)) == [Canonical(p)] && Residue(Encoded(p)) == []
    ensures After(BOUNDARY, Encoded(p)) == BOUNDARY
  {
    hide After, Emitted, Encoded, Serialized, Deserialized;
    FrameDecodes(BOUNDARY, p);
    assert [] + Serialized(p) == Serialized(p);
    PacketRoundTrip(p);
  }

  /** Back-to-back frames read from a boundary come out one by one, unchanged. */
  lemma {:induction false} FramesDecode(ps: seq<Packet>)
    ensures After(BOUNDARY, EncodedAll(ps)) == BOUNDARY
    ensures PacketsOf(EncodedAll(ps)) == CanonicalAll(ps)
  {
    if ps == [] {
    } else {
      hide After, Emitted, EncodedAll, Encoded, CanonicalAll;
      var m, p := ps[..|ps| - 1], ps[|ps| - 1];
      SplitLast(ps);
      FramesDecode(m);
      EncodedAlone(p);
      EncodedAllSnoc(m, p);
      RunConcat(BOUNDARY, EncodedAll(m), Encoded(p));
    }
  }

  lemma {:induction false} EncodedAllConcat(a: seq<Packet>, b: seq<Packet>)
    ensures EncodedAll(a + b) == EncodedAll(a) + EncodedAll(b)
  {
    if b == [] {
      assert a + b == a;
    } else {
      hide *;
      var m, x := b[..|b| - 1], b[|b| - 1];
      SplitLast(b);
      ConcatAssociative(a, m, [x]);
      EncodedAllConcat(a, m);
      EncodedAllSnoc(a + m, x);
      EncodedAllSnoc(m, x);
      ConcatAssociative(EncodedAll(a), EncodedAll(m), Encoded(x));
    }
  }

  /** End to end: frames written back to back and cut anywhere by the transport arrive as the
      same packets in the same order, with an empty buffer. */
  lemma {:induction false} TransportRoundTrip(ps: seq<Packet>, chunks: seq<seq<byte>>)
    requires Flatten(chunks) == EncodedAll(ps)
    ensures FeedPackets(chunks) == CanonicalAll(ps)
    ensures FeedBuffer(chunks) == []
  {
    ChunkingInvariance(chunks);
    FramesDecode(ps);
  }

  // --------------------------------------------------- self-synchronisation

  lemma StuffSnoc(body: seq<byte>, b: byte)
    ensures Stuff(body + [b]) == Stuff(body) + StuffByte(b)
  {
    assert (body + [b])[..|body|] == body;
  }

  lemma {:induction false} StuffConcat(a: seq<byte>, b: seq<byte>)
    ensures Stuff(a + b) == Stuff(a) + Stuff(b)
  {
    if b == [] {
      assert a + b == a;
    } else {
      hide *;
      var m, x := b[..|b| - 1], b[|b| - 1];
      SplitLast(b);
      ConcatAssociative(a, m, [x]);
      StuffConcat(a, m);
      StuffSnoc(a + m, x);
      StuffSnoc(m, x);
      ConcatAssociative(Stuff(a), Stuff(m), StuffByte(x));
    }
  }

  /** What a pending escape makes of the first byte of a frame that starts with `kind`. */
  function Swallowed(kind: byte): seq<byte> {
    if kind == DELIMITER then [ESCAPE, ESCAPE, ESCAPED_DELIMITER]
    else if kind == ESCAPE then [ESCAPE, ESCAPE, ESCAPED_ESCAPE]
    else Unescape(kind)
  }

  lemma StuffedByteAfterEscape(s: Scan, kind: byte)
    requires s.escaped
    ensures After(s, StuffByte(kind)).frame == s.frame + Swallowed(kind)
    ensures !After(s, StuffByte(kind)).escaped
    ensures Emitted(s, StuffByte(kind)) == []
  {
    hide After, Emitted;
    var w := StuffByte(kind);
    if |w| == 2 {
      RunTwo(s, w[0], w[1]);
      assert s.frame + Unescape(ESCAPE) + [w[1]] == s.frame + Swallowed(kind);
    } else {
      RunOne(s, kind);
    }
  }

  /** The decoded content of the first frame after arbitrary bytes that left state `s`. */
  function FirstFrame(s: Scan, p: Packet): seq<byte> {
    s.frame + (if s.escaped then Swallowed(p.kind) + Serialized(p)[1..] else Serialized(p))
  }

  /** From any state at all, even inside an escape, one frame completes exactly one packet and
      brings the automaton back to a boundary. */
  lemma FrameResynchronises(s: Scan, p: Packet)
    ensures After(s, Encoded(p)) == BOUNDARY
    ensures Emitted(s, Encoded(p)) == [Deserialized(FirstFrame(s, p))]
  {
    if !s.escaped {
      FrameDecodes(s, p);
    } else {
      hide After, Emitted, Stuff, Encoded;
      var head, tail := StuffByte(p.kind), Serialized(p)[1..];
      FirstByteStuffed(p);
      StuffedByteAfterEscape(s, p.kind);
      RestResynchronises(s, head, tail);
      ConcatAssociative(s.frame, Swallowed(p.kind), tail);
    }
  }

  lemma {:induction false} RestResynchronises(s: Scan, head: seq<byte>, tail: seq<byte>)
    requires !After(s, head).escaped && After(s, head).frame != [] && Emitted(s, head) == []
    ensures After(s, head + (Stuff(tail) + [DELIMITER])) == BOUNDARY
    ensures Emitted(s, head + (Stuff(tail) + [DELIMITER])) == [Deserialized(After(s, head).frame + tail)]
  {
    hide After, Emitted, Stuff;
    FrameEnds(After(s, head), tail);
    RunConcat(s, head, Stuff(tail) + [DELIMITER]);
  }

  lemma FirstByteStuffed(p: Packet)
    ensures Encoded(p) == StuffByte(p.kind) + (Stuff(Serialized(p)[1..]) + [DELIMITER])
  {
    var head, tail := [p.kind], Serialized(p)[1..];
    assert Serialized(p) == head + tail;
    StuffConcat(head, tail);
    assert Stuff(head) == StuffByte(p.kind) by {
      assert head[..0] == [];
    }
  }

  /** A reachable state is a boundary exactly when no raw bytes are held. */
  lemma {:induction false} BoundaryIffNoResidue(bytes: seq<byte>)
    ensures Residue(bytes) == [] <==> After(BOUNDARY, bytes) == BOUNDARY
    ensures Residue(bytes) != [] ==> After(BOUNDARY, bytes).frame != [] || After(BOUNDARY, bytes).escaped
  {
    if bytes == [] {
    } else {
      BoundaryIffNoResidue(bytes[..|bytes| - 1]);
    }
  }

  /** The first packet is read intact exactly when the garbage ended on a boundary. */
  lemma FirstFrameIntact(s: Scan, p: Packet)
    ensures Deserialized(FirstFrame(s, p)) == Canonical(p) <==> s.frame == [] && !s.escaped
  {
    var f := FirstFrame(s, p);
    BytesRoundTrip(f);
    PacketRoundTrip(p);
    assert Serialized(Canonical(p)) == Serialized(p);
    if s.frame == [] && !s.escaped {
      assert f == Serialized(p);
    } else {
      FirstFrameDiffers(s, p);
    }
  }

  lemma FirstFrameDiffers(s: Scan, p: Packet)
    requires s.frame != [] || s.escaped
    ensures FirstFrame(s, p) != Serialized(p)
    ensures |FirstFrame(s, p)| >= PACKET_HEADER_SIZE
  {
    if s.frame == [] && p.kind != ESCAPE {
      assert FirstFrame(s, p)[0] == Swallowed(p.kind)[0] != p.kind == Serialized(p)[0];
    } else {
      assert |FirstFrame(s, p)| > |Serialized(p)|;
    }
  }

  /** Whatever bytes came first, a following run of frames yields the packets those bytes held,
      then exactly one packet, then every later packet unchanged, with nothing left over. The
      one packet in between is the first sent packet exactly when the bytes ended on a frame
      boundary. */
  lemma {:induction false} SelfSynchronisation(garbage: seq<byte>, ps: seq<Packet>)
    requires ps != []
    ensures Residue(garbage + EncodedAll(ps)) == []
    ensures |PacketsOf(garbage + EncodedAll(ps))| == |PacketsOf(garbage)| + |ps|
    ensures PacketsOf(garbage + EncodedAll(ps))[..|PacketsOf(garbage)|] == PacketsOf(garbage)
    ensures PacketsOf(garbage + EncodedAll(ps))[|PacketsOf(garbage)| + 1..] == CanonicalAll(ps[1..])
    ensures PacketsOf(garbage + EncodedAll(ps))[|PacketsOf(garbage)|] == Canonical(ps[0])
       <==> Residue(garbage) == []
  {
    hide After, Emitted, EncodedAll, FirstFrame, Deserialized, CanonicalAll;
    var s := After(BOUNDARY, garbage);
    FramesResynchronise(s, ps);
    FirstFrameIntact(s, ps[0]);
    BoundaryIffNoResidue(garbage);
    RunConcat(BOUNDARY, garbage, EncodedAll(ps));
    SplitAround(PacketsOf(garbage), Deserialized(FirstFrame(s, ps[0])), CanonicalAll(ps[1..]));
  }

  lemma SplitAround(before: seq<Packet>, x: Packet, later: seq<Packet>)
    ensures (before + ([x] + later))[..|before|] == before
    ensures (before + ([x] + later))[|before|] == x
    ensures (before + ([x] + later))[|before| + 1..] == later
  {
  }

  lemma {:induction false} FramesResynchronise(s: Scan, ps: seq<Packet>)
    requires ps != []
    ensures After(s, EncodedAll(ps)) == BOUNDARY
    ensures Emitted(s, EncodedAll(ps)) == [Deserialized(FirstFrame(s, ps[0]))] + CanonicalAll(ps[1..])
  {
    var first, rest := Encoded(ps[0]), EncodedAll(ps[1..]);
    EncodedAllOne(ps[0]);
    hide *;
    assert ps == [ps[0]] + ps[1..];
    EncodedAllConcat([ps[0]], ps[1..]);
    FrameResynchronises(s, ps[0]);
    FramesDecode(ps[1..]);
    RunConcat(s, first, rest);
    assert Emitted(BOUNDARY, rest) == PacketsOf(rest) by {
      ParsedFromBoundary(rest);
    }
  }

  lemma EncodedAllOne(p: Packet)
    ensures EncodedAll([p]) == Encoded(p)
  {
    assert [p] == [] + [p];
    EncodedAllSnoc([], p);
  }

  lemma ParsedFromBoundary(bytes: seq<byte>)
    ensures Emitted(BOUNDARY, bytes) == PacketsOf(bytes)
  {
  }

  // ------------------------------------------------------- what a frame reads as

  /** The special bytes as they go over the wire, and all others. */
  lemma StuffedBytes(b: byte)
    ensures Stuff([b]) == if b == 0xF0 then [0xF1, 0x00] else if b == 0xF1 then [0xF1, 0x01] else [b]
    ensures forall p: Packet :: Encoded(p)[|Encoded(p)| - 1] == 0xF0
  {
    assert [b][..0] == [];
  }

  /** Any body that is not empty, stuffed and delimited, is read as that body; an empty one as nothing. */
  lemma FrameReads(body: seq<byte>)
    ensures PacketsOf(Stuff(body) + [DELIMITER]) == if body == [] then [] else [Deserialized(body)]
    ensures Residue(Stuff(body) + [DELIMITER]) == []
  {
    if body == [] {
      RunOne(BOUNDARY, DELIMITER);
      assert Stuff(body) + [DELIMITER] == [DELIMITER];
    } else {
      FrameEnds(BOUNDARY, body);
      assert [] + body == body;
    }
  }

  /** An escape byte before anything but the two codes stands for itself, and so does that byte, even
      when it is a delimiter. */
  lemma UnknownEscapeKept(a: seq<byte>, b: byte, c: seq<byte>)
    requires b != 0x00 && b != 0x01
    ensures PacketsOf(Stuff(a) + [ESCAPE, b] + (Stuff(c) + [DELIMITER])) == [Deserialized(a + [ESCAPE, b] + c)]
    ensures Residue(Stuff(a) + [ESCAPE, b] + (Stuff(c) + [DELIMITER])) == []
  {
    hide After, Emitted, Stuff, Unescape;
    var scan, pair := Scan(a, false, Stuff(a)), Scan(a + [ESCAPE, b], false, Stuff(a) + [ESCAPE, b]);
    StuffDecodes(BOUNDARY, a);
    assert [] + a == a && [] + Stuff(a) == Stuff(a);
    PairKept(scan, b);
    RunConcat(BOUNDARY, Stuff(a), [ESCAPE, b]);
    FrameEnds(pair, c);
    RunConcat(BOUNDARY, Stuff(a) + [ESCAPE, b], Stuff(c) + [DELIMITER]);
  }

  lemma PairKept(s: Scan, b: byte)
    requires !s.escaped && b != 0x00 && b != 0x01
    ensures After(s, [ESCAPE, b]) == Scan(s.frame + [ESCAPE, b], false, s.raw + [ESCAPE, b])
    ensures Emitted(s, [ESCAPE, b]) == []
  {
    hide After, Emitted;
    RunTwo(s, ESCAPE, b);
    assert s.raw + [ESCAPE] + [b] == s.raw + [ESCAPE, b];
  }

  // ------------------------------------------------------- canonical frames

  /** A frame as the encoder would write it, told by its bytes alone: it ends with its only
      delimiter, every escape byte is followed by one of the two escape codes, and it holds at
      least a header's worth of decoded bytes. */
  ghost predicate CanonicalFrame(w: seq<byte>) {
    && w != []
    && w[|w| - 1] == DELIMITER
    && WellStuffed(w[..|w| - 1])
    && PACKET_HEADER_SIZE <= |w| - 1 - Escapes(w[..|w| - 1])
  }

  ghost predicate WellStuffed(w: seq<byte>) {
    && (forall i :: 0 <= i < |w| ==> w[i] != DELIMITER)
    && (forall i :: 0 <= i < |w| && w[i] == ESCAPE ==>
          i + 1 < |w| && w[i + 1] in {ESCAPED_DELIMITER, ESCAPED_ESCAPE})
  }

  /** The number of escape bytes in `w`. */
  function Escapes(w: seq<byte>): nat {
    if w == [] then 0
    else Escapes(w[..|w| - 1]) + if w[|w| - 1] == ESCAPE then 1 else 0
  }

  /** The number of bytes of `w` that need stuffing. */
  function Specials(w: seq<byte>): nat {
    if w == [] then 0
    else Specials(w[..|w| - 1]) + if w[|w| - 1] in {DELIMITER, ESCAPE} then 1 else 0
  }

  lemma EscapesSnoc(w: seq<byte>, b: byte)
    ensures Escapes(w + [b]) == Escapes(w) + if b == ESCAPE then 1 else 0
  {
    assert (w + [b])[..|w|] == w;
  }

  lemma {:induction false} EscapesConcat(a: seq<byte>, b: seq<byte>)
    ensures Escapes(a + b) == Escapes(a) + Escapes(b)
  {
    if b == [] {
      assert a + b == a;
    } else {
      hide *;
      var m, x := b[..|b| - 1], b[|b| - 1];
      SplitLast(b);
      ConcatAssociative(a, m, [x]);
      EscapesConcat(a, m);
      EscapesSnoc(a + m, x);
      EscapesSnoc(m, x);
    }
  }

  lemma EscapesOfPair(w: seq<byte>)
    requires 1 <= |w| <= 2
    ensures Escapes(w) == (if w[0] == ESCAPE then 1 else 0) + (if |w| == 2 && w[1] == ESCAPE then 1 else 0)
  {
    assert [w[0]][..0] == [];
    assert Escapes([w[0]]) == if w[0] == ESCAPE then 1 else 0;
    if |w| == 2 {
      assert w[..1] == [w[0]];
    } else {
      assert w == [w[0]];
    }
  }

  lemma {:induction false} StuffIsWellStuffed(body: seq<byte>)
    ensures WellStuffed(Stuff(body))
    ensures |Stuff(body)| == |body| + Specials(body)
    ensures Escapes(Stuff(body)) == Specials(body)
  {
    if body == [] {
    } else {
      hide *;
      var before, last := body[..|body| - 1], body[|body| - 1];
      SplitLast(body);
      StuffIsWellStuffed(before);
      StuffSnoc(before, last);
      SpecialsSnoc(before, last);
      StuffedByteIsWellStuffed(last);
      WellStuffedConcat(Stuff(before), StuffByte(last));
      EscapesConcat(Stuff(before), StuffByte(last));
    }
  }

  lemma SpecialsSnoc(w: seq<byte>, b: byte)
    ensures Specials(w + [b]) == Specials(w) + if b in {DELIMITER, ESCAPE} then 1 else 0
  {
    assert (w + [b])[..|w|] == w;
  }

  lemma StuffedByteIsWellStuffed(b: byte)
    ensures WellStuffed(StuffByte(b))
    ensures Escapes(StuffByte(b)) == if b in {DELIMITER, ESCAPE} then 1 else 0
    ensures |StuffByte(b)| == 1 + if b in {DELIMITER, ESCAPE} then 1 else 0
  {
    EscapesOfPair(StuffByte(b));
  }

  lemma WellStuffedConcat(a: seq<byte>, b: seq<byte>)
    requires WellStuffed(a) && WellStuffed(b)
    ensures WellStuffed(a + b)
  {
  }

  /** Undoes the stuffing of a well-stuffed body. */
  ghost function Unstuffed(w: seq<byte>): seq<byte> {
    if w == [] then []
    else
      var n := |w| - 1;
      if 0 < n && w[n - 1] == ESCAPE then Unstuffed(w[..n - 1]) + Unescape(w[n])
      else Unstuffed(w[..n]) + [w[n]]
  }

  lemma {:induction false} UnstuffedRestuffs(w: seq<byte>)
    requires WellStuffed(w)
    ensures Stuff(Unstuffed(w)) == w
    ensures |Unstuffed(w)| == |w| - Escapes(w)
  {
    if w == [] {
    } else {
      var n := |w| - 1;
      if 0 < n && w[n - 1] == ESCAPE {
        var head, pair := w[..n - 1], [w[n - 1], w[n]];
        assert w == head + pair;
        UnstuffedRestuffs(head);
        StuffSnoc(Unstuffed(head), Unescape(w[n])[0]);
        EscapesConcat(head, pair);
        EscapesOfPair(pair);
      } else {
        assert w == w[..n] + [w[n]];
        UnstuffedRestuffs(w[..n]);
        StuffSnoc(Unstuffed(w[..n]), w[n]);
      }
    }
  }

  /** Every encoding is a canonical frame, of length header + data + stuffing + delimiter. */
  lemma EncodingIsCanonicalFrame(p: Packet)
    ensures CanonicalFrame(Encoded(p))
    ensures |Encoded(p)| == PACKET_HEADER_SIZE + |Body(p)| + Specials(Serialized(p)) + 1
  {
    StuffIsWellStuffed(Serialized(p));
    assert Encoded(p)[..|Encoded(p)| - 1] == Stuff(Serialized(p));
  }

  ghost predicate Reencodes(w: seq<byte>) {
    |PacketsOf(w)| == 1 && Residue(w) == [] && Encoded(PacketsOf(w)[0]) == w
  }

  lemma WellStuffedReencodes(inner: seq<byte>)
    requires WellStuffed(inner) && PACKET_HEADER_SIZE <= |inner| - Escapes(inner)
    ensures Encoded(Deserialized(Unstuffed(inner))) == inner + [DELIMITER]
    ensures Canonical(Deserialized(Unstuffed(inner))) == Deserialized(Unstuffed(inner))
  {
    UnstuffedRestuffs(inner);
    BytesRoundTrip(Unstuffed(inner));
  }

  lemma CanonicalFrameReencodes(w: seq<byte>)
    requires CanonicalFrame(w)
    ensures Reencodes(w)
  {
    var inner := w[..|w| - 1];
    assert w == inner + [DELIMITER];
    WellStuffedReencodes(inner);
    EncodedAlone(Deserialized(Unstuffed(inner)));
  }

  /** Canonical frames and packets are in bijection: a byte string is a canonical frame exactly
      when it parses to one packet, with nothing left, whose encoding is that same byte string. */
  lemma CanonicalFrameIff(w: seq<byte>)
    ensures CanonicalFrame(w) <==>
            |PacketsOf(w)| == 1 && Residue(w) == [] && Encoded(PacketsOf(w)[0]) == w
  {
    if CanonicalFrame(w) {
      CanonicalFrameReencodes(w);
    } else if Reencodes(w) {
      EncodingIsCanonicalFrame(PacketsOf(w)[0]);
    }
  }

  /** The other half of the bijection: two packets share an encoding only when they are the
      same packet as far as the wire can tell. */
  lemma EncodingInjective(p: Packet, q: Packet)
    ensures Encoded(p) == Encoded(q) <==> Canonical(p) == Canonical(q)
  {
    EncodedAlone(p);
    EncodedAlone(q);
    assert Serialized(Canonical(p)) == Serialized(p) && Serialized(Canonical(q)) == Serialized(q);
  }
}
