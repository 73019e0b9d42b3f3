/**
 * The wire format of `PowerMessageCodec` (src/helpers/powerMessageCodec.js) and the meaning of a byte
 * stream: the frames it carries, the tail that is not yet a frame, and the first error if there is one.
 */
module Framing {

  type Byte = b: int | 0 <= b < 256

  type Bytes = seq<Byte>

  const PROTOCOL_VERSION: Byte := 1
  const JSON: Byte := 0
  const RAW: Byte := 2
  const HEADER_BYTES: nat := 6
  const WRAP: nat := 0x1_0000_0000

  datatype Frame = Frame(version: Byte, codec: Byte, payload: Bytes)

  datatype Error = ShortHeader | BadVersion | UnknownCodec | Truncated | BadJson | Oversized

  datatype Decoded = Ok(frame: Frame, byteLength: nat) | Err(error: Error)

  /** Whether versions are checked, the ceiling on a whole frame if any, and which payloads parse as JSON. */
  datatype Codec = Codec(strict: bool, limited: bool, maxFrameBytes: nat, parses: Bytes -> bool)

  /** `_frame`: the length is written modulo 2^32, low byte first. */
  function Encode(codec: Byte, payload: Bytes): Bytes {
    var n := |payload|;
    [PROTOCOL_VERSION, codec, n % 256, n / 256 % 256, n / 65536 % 256, n / 16777216 % 256] + payload
  }

  /** `_readLength`. The four shifted bytes do not overlap, so their bitwise or is their sum. */
  function DeclaredLength(b: Bytes): nat
    requires |b| >= HEADER_BYTES
  {
    Assemble(b[2], b[3], b[4], b[5])
  }

  function Assemble(b0: int, b1: int, b2: int, b3: int): (n: int)
    ensures 0 <= b0 && 0 <= b1 && 0 <= b2 && 0 <= b3 ==> n >= 0
  {
    b0 + 256 * b1 + 65536 * b2 + 16777216 * b3
  }

  /** `decodeMessage`, checks in source order; bytes after the frame are ignored. */
  function Decode(c: Codec, b: Bytes): Decoded {
    if |b| < HEADER_BYTES then Err(ShortHeader)
    else if c.strict && b[0] != PROTOCOL_VERSION then Err(BadVersion)
    else if b[1] != JSON && b[1] != RAW then Err(UnknownCodec)
    else
      var total := HEADER_BYTES + DeclaredLength(b);
      if |b| < total then Err(Truncated)
      else if b[1] == JSON && !c.parses(b[HEADER_BYTES..total]) then Err(BadJson)
      else Ok(Frame(b[0], b[1], b[HEADER_BYTES..total]), total)
  }

  datatype Status = Clean | Failed(error: Error)

  /** What a reader makes of a stretch of stream: frames taken, bytes left, and whether it threw. */
  datatype Reading = Reading(frames: seq<Frame>, rest: Bytes, status: Status)

  /** Not yet a whole frame. */
  predicate Incomplete(b: Bytes) {
    |b| < HEADER_BYTES || |b| < HEADER_BYTES + DeclaredLength(b)
  }

  predicate OverCeiling(c: Codec, b: Bytes) {
    c.limited && |b| >= HEADER_BYTES && HEADER_BYTES + DeclaredLength(b) > c.maxFrameBytes
  }

  /** The meaning of a stream: an oversized frame is refused on its header, otherwise frames are taken while whole ones remain. */
  function Parse(c: Codec, b: Bytes): (r: Reading)
    ensures r.status.Clean? ==> Incomplete(r.rest)
  {
    if OverCeiling(c, b) then Reading([], b, Failed(Oversized))
    else if Incomplete(b) then Reading([], b, Clean)
    else
      match Decode(c, b)
      case Err(e) => Reading([], b, Failed(e))
      case Ok(frame, n) =>
        var r := Parse(c, b[n..]);
        Reading([frame] + r.frames, r.rest, r.status)
  }

  /** A reader that has thrown takes nothing more; otherwise it reads on from its tail. */
  function Feed(c: Codec, r: Reading, chunk: Bytes): Reading {
    if r.status.Failed? then r.(rest := r.rest + chunk)
    else
      var next := Parse(c, r.rest + chunk);
      Reading(r.frames + next.frames, next.rest, next.status)
  }

  function FeedAll(c: Codec, chunks: seq<Bytes>): Reading {
    if chunks == [] then Reading([], [], Clean)
    else Feed(c, FeedAll(c, chunks[..|chunks| - 1]), chunks[|chunks| - 1])
  }

  function Flatten(chunks: seq<Bytes>): Bytes {
    if chunks == [] then [] else Flatten(chunks[..|chunks| - 1]) + chunks[|chunks| - 1]
  }

  // ----- chunking independence

  /** More bytes behind a whole frame, or behind a refused one, do not change how it reads. */
  lemma DecodePrefix(c: Codec, a: Bytes, b: Bytes)
    ensures OverCeiling(c, a) ==> OverCeiling(c, a + b)
    ensures !Incomplete(a) ==> !Incomplete(a + b) && OverCeiling(c, a + b) == OverCeiling(c, a)
    ensures !Incomplete(a) ==> Decode(c, a + b) == Decode(c, a)
  {
    if |a| >= HEADER_BYTES {
      assert (a + b)[..HEADER_BYTES] == a[..HEADER_BYTES];
      assert forall i :: 0 <= i < HEADER_BYTES ==> (a + b)[i] == a[i];
      assert DeclaredLength(a + b) == DeclaredLength(a);
      if !Incomplete(a) {
        var total := HEADER_BYTES + DeclaredLength(a);
        assert (a + b)[HEADER_BYTES..total] == a[HEADER_BYTES..total];
      }
    }
  }

  lemma {:induction false} ParseFront(c: Codec, b: Bytes)
    ensures OverCeiling(c, b) ==> Parse(c, b) == Reading([], b, Failed(Oversized))
    ensures !OverCeiling(c, b) && Incomplete(b) ==> Parse(c, b) == Reading([], b, Clean)
    ensures !OverCeiling(c, b) && !Incomplete(b) && Decode(c, b).Err? ==>
      Parse(c, b) == Reading([], b, Failed(Decode(c, b).error))
    ensures !OverCeiling(c, b) && !Incomplete(b) && Decode(c, b).Ok? ==>
      var frame, n := Decode(c, b).frame, Decode(c, b).byteLength;
      && HEADER_BYTES <= n <= |b|
      && Parse(c, b) == Reading([frame] + Parse(c, b[n..]).frames, Parse(c, b[n..]).rest, Parse(c, b[n..]).status)
  {
  }

  /** `target` is what a reader that has taken `frames` and stands before `b` will have read. */
  ghost predicate Reads(c: Codec, target: Reading, frames: seq<Frame>, b: Bytes) {
    target == Reading(frames + Parse(c, b).frames, Parse(c, b).rest, Parse(c, b).status)
  }

  lemma ReadsFront(c: Codec, target: Reading, frames: seq<Frame>, b: Bytes)
    requires Reads(c, target, frames, b)
    ensures OverCeiling(c, b) ==> target == Reading(frames, b, Failed(Oversized))
    ensures !OverCeiling(c, b) && Incomplete(b) ==> target == Reading(frames, b, Clean)
    ensures !OverCeiling(c, b) && !Incomplete(b) && Decode(c, b).Err? ==>
      target == Reading(frames, b, Failed(Decode(c, b).error))
    ensures !OverCeiling(c, b) && !Incomplete(b) && Decode(c, b).Ok? ==>
      var frame, n := Decode(c, b).frame, Decode(c, b).byteLength;
      HEADER_BYTES <= n <= |b| && Reads(c, target, frames + [frame], b[n..])
  {
    ParseFront(c, b);
    hide Parse, Incomplete, OverCeiling, Decode;
    if !OverCeiling(c, b) && !Incomplete(b) && Decode(c, b).Ok? {
      var frame, more := Decode(c, b).frame, Parse(c, b[Decode(c, b).byteLength..]);
      assert frames + ([frame] + more.frames) == frames + [frame] + more.frames;
    }
  }

  /** Reading a stream in two pieces is reading it whole. */
  lemma {:induction false} ParseInPieces(c: Codec, a: Bytes, b: Bytes)
    ensures Parse(c, a + b) == Feed(c, Parse(c, a), b)
    decreases |a|
  {
    hide Decode, DeclaredLength, OverCeiling, Incomplete;
    DecodePrefix(c, a, b);
    ParseFront(c, a);
    ParseFront(c, a + b);
    if !OverCeiling(c, a) && !Incomplete(a) && Decode(c, a).Ok? {
      hide Parse;
      var frame, n := Decode(c, a).frame, Decode(c, a).byteLength;
      assert (a + b)[n..] == a[n..] + b;
      ParseInPieces(c, a[n..], b);
      var r := Parse(c, a[n..]);
      assert [frame] + r.frames + Parse(c, r.rest + b).frames == [frame] + (r.frames + Parse(c, r.rest + b).frames);
    }
  }

  /** However a stream is split into chunks, a reader emits the same frames, keeps the same tail and fails alike. */
  lemma {:induction false} ChunkingDoesNotMatter(c: Codec, chunks: seq<Bytes>)
    ensures FeedAll(c, chunks) == Parse(c, Flatten(chunks))
  {
    if chunks != [] {
      var n := |chunks| - 1;
      ChunkingDoesNotMatter(c, chunks[..n]);
      ParseInPieces(c, Flatten(chunks[..n]), chunks[n]);
    }
  }

  // ----- round trips

  function EncodeAll(frames: seq<Frame>): Bytes {
    if frames == [] then [] else Encode(frames[0].codec, frames[0].payload) + EncodeAll(frames[1..])
  }

  /** What the encoder produces: the current version, a known codec, a length that fits, and a payload that parses and fits the ceiling. */
  predicate Encodable(c: Codec, f: Frame) {
    && f.version == PROTOCOL_VERSION && (f.codec == JSON || f.codec == RAW)
    && |f.payload| < WRAP && (f.codec == JSON ==> c.parses(f.payload))
    && (c.limited ==> HEADER_BYTES + |f.payload| <= c.maxFrameBytes)
  }

  /** The four length bytes read back the length modulo 2^32. */
  lemma LengthReadsBack(codec: Byte, payload: Bytes, tail: Bytes)
    ensures DeclaredLength(Encode(codec, payload) + tail) == |payload| % WRAP
  {
    BaseDigits(|payload|);
  }

  lemma DivideTwice(n: nat)
    ensures n / 256 / 256 == n / 65536
  {
    var q1, q2 := n / 256, n / 256 / 256;
    assert n == 65536 * q2 + (256 * (q1 % 256) + n % 256);
  }

  lemma DivideThrice(n: nat)
    ensures n / 65536 / 256 == n / 16777216
  {
    var q2, q3 := n / 65536, n / 65536 / 256;
    assert n == 16777216 * q3 + (65536 * (q2 % 256) + n % 65536);
  }

  lemma RemainderIs(n: nat, q: nat, r: nat)
    requires n == WRAP * q + r && r < WRAP
    ensures n % WRAP == r
  {
  }

  lemma DigitSum(n: nat, q1: nat, q2: nat, q3: nat, q4: nat, r0: Byte, r1: Byte, r2: Byte, r3: Byte)
    requires n == 256 * q1 + r0 && q1 == 256 * q2 + r1 && q2 == 256 * q3 + r2 && q3 == 256 * q4 + r3
    ensures n % WRAP == Assemble(r0, r1, r2, r3)
  {
    RemainderIs(n, q4, Assemble(r0, r1, r2, r3));
  }

  /** A length is its base-256 digits, up to the wrap of the field. */
  lemma BaseDigits(n: nat)
    ensures n % WRAP == Assemble(n % 256, n / 256 % 256, n / 65536 % 256, n / 16777216 % 256)
  {
    DivideTwice(n);
    DivideThrice(n);
    var q1, q2, q3 := n / 256, n / 65536, n / 16777216;
    DigitSum(n, q1, q2, q3, q3 / 256, n % 256, q1 % 256, q2 % 256, q3 % 256);
    hide Assemble;
  }

  lemma Layout(codec: Byte, payload: Bytes, tail: Bytes)
    ensures var b, end := Encode(codec, payload) + tail, HEADER_BYTES + |payload|;
      && |b| == end + |tail| && b[0] == PROTOCOL_VERSION && b[1] == codec
      && b[HEADER_BYTES..end] == payload && b[end..] == tail
  {
  }

  lemma DecodeEncoded(c: Codec, f: Frame, tail: Bytes)
    requires Encodable(c, f)
    ensures var b := Encode(f.codec, f.payload) + tail;
      && !OverCeiling(c, b) && !Incomplete(b)
      && Decode(c, b) == Ok(f, HEADER_BYTES + |f.payload|)
      && b[HEADER_BYTES + |f.payload|..] == tail
  {
    hide Encode, DeclaredLength;
    Layout(f.codec, f.payload, tail);
    LengthReadsBack(f.codec, f.payload, tail);
    assert |f.payload| % WRAP == |f.payload|;
  }

  /** Any list of encodable frames followed by an incomplete tail reads back as exactly those frames and that tail. */
  lemma {:induction false} EncodedFramesReadBack(c: Codec, frames: seq<Frame>, tail: Bytes)
    requires forall f :: f in frames ==> Encodable(c, f)
    requires Incomplete(tail) && !OverCeiling(c, tail)
    ensures Parse(c, EncodeAll(frames) + tail) == Reading(frames, tail, Clean)
  {
    if frames == [] {
      assert EncodeAll(frames) + tail == tail;
    } else {
      var f, more := frames[0], EncodeAll(frames[1..]) + tail;
      assert EncodeAll(frames) + tail == Encode(f.codec, f.payload) + more;
      DecodeEncoded(c, f, more);
      EncodedFramesReadBack(c, frames[1..], tail);
      assert frames == [f] + frames[1..];
    }
  }

  /** And back: what a strict reader took, re-encoded, is the bytes it consumed; the tail is what it did not. */
  lemma {:induction false} ReadFramesEncodeBack(c: Codec, b: Bytes)
    requires c.strict
    ensures EncodeAll(Parse(c, b).frames) + Parse(c, b).rest == b
    ensures forall f :: f in Parse(c, b).frames ==> Encodable(c, f)
    decreases |b|
  {
    hide Encodable, Encode, Decode, OverCeiling, Incomplete, DeclaredLength;
    ParseFront(c, b);
    hide Parse;
    var r := Parse(c, b);
    if !OverCeiling(c, b) && !Incomplete(b) && Decode(c, b).Ok? {
      var frame, n := Decode(c, b).frame, Decode(c, b).byteLength;
      EncodeDecoded(c, b);
      ReadFramesEncodeBack(c, b[n..]);
      var next := Parse(c, b[n..]);
      assert r.frames == [frame] + next.frames && r.rest == next.rest;
      assert r.frames[1..] == next.frames;
      assert EncodeAll(r.frames) + r.rest == Encode(frame.codec, frame.payload) + (EncodeAll(next.frames) + next.rest);
      assert b == b[..n] + b[n..];
    } else {
      assert r.frames == [] && r.rest == b;
      assert EncodeAll([]) + b == b;
    }
  }

  /** A whole frame that a strict reader accepts is encodable, and encodes to the very bytes it was read from. */
  lemma EncodeDecoded(c: Codec, b: Bytes)
    requires c.strict
    ensures !OverCeiling(c, b) && !Incomplete(b) && Decode(c, b).Ok? ==>
      var frame, n := Decode(c, b).frame, Decode(c, b).byteLength;
      && HEADER_BYTES <= n <= |b|
      && Encodable(c, frame) && Encode(frame.codec, frame.payload) == b[..n]
  {
    if !Incomplete(b) {
      LengthBytes(b[2], b[3], b[4], b[5]);
      var n := HEADER_BYTES + DeclaredLength(b);
      assert |b[HEADER_BYTES..n]| == DeclaredLength(b);
    }
  }

  lemma LengthBytes(b0: Byte, b1: Byte, b2: Byte, b3: Byte)
    ensures var n := Assemble(b0, b1, b2, b3);
      && n < WRAP && n % 256 == b0 && n / 256 % 256 == b1 && n / 65536 % 256 == b2 && n / 16777216 % 256 == b3
  {
    var n := Assemble(b0, b1, b2, b3);
    Quotient(n, 256, b1 + 256 * b2 + 65536 * b3, b0);
    Quotient(b1 + 256 * b2 + 65536 * b3, 256, b2 + 256 * b3, b1);
    Quotient(n, 65536, b2 + 256 * b3, 256 * b1 + b0);
    Quotient(b2 + 256 * b3, 256, b3, b2);
    Quotient(n, 16777216, b3, 65536 * b2 + 256 * b1 + b0);
  }

  lemma Quotient(n: nat, m: nat, q: nat, r: nat)
    requires n == m * q + r && r < m
    ensures n / m == q && n % m == r
  {
    var d := n / m - q;
    assert n == m * (n / m) + n % m;
    assert m * d == r - n % m;
    WholeMultiple(m, d);
  }

  lemma WholeMultiple(m: int, d: int)
    requires m > 0
    ensures d != 0 ==> m * d >= m || m * d <= -m
  {
    if d >= 1 {
      assert m * (d - 1) >= 0;
    } else if d <= -1 {
      assert m * (d + 1) <= 0;
    }
  }

  /** A raw payload survives framing exactly when its length fits the 32-bit length field. */
  lemma {:induction false} RawRoundTripIffLengthFits(c: Codec, payload: Bytes)
    requires !c.limited
    ensures Parse(c, Encode(RAW, payload)) == Reading([Frame(PROTOCOL_VERSION, RAW, payload)], [], Clean)
       <==> |payload| < WRAP
  {
    var f, b := Frame(PROTOCOL_VERSION, RAW, payload), Encode(RAW, payload);
    assert b + [] == b;
    if |payload| < WRAP {
      EncodedFramesReadBack(c, [f], []);
      assert EncodeAll([f]) == b + [];
    } else {
      LengthReadsBack(RAW, payload, []);
      var taken := Decode(c, b).frame;
      assert |taken.payload| == |payload| % WRAP < |payload|;
      assert Parse(c, b).frames[0] == taken;
    }
  }

  // ----- what is a frame

  /** The bytes of a frame: its version, its codec, its length and its payload. */
  function FrameBytes(f: Frame): Bytes {
    var n := |f.payload|;
    [f.version, f.codec, n % 256, n / 256 % 256, n / 65536 % 256, n / 16777216 % 256] + f.payload
  }

  lemma {:induction false} FrameParts(f: Frame, tail: Bytes)
    ensures var b := FrameBytes(f) + tail;
      && |b| >= HEADER_BYTES + |f.payload| && b[0] == f.version && b[1] == f.codec
      && b[HEADER_BYTES..HEADER_BYTES + |f.payload|] == f.payload
      && DeclaredLength(b) == |f.payload| % WRAP
  {
    BaseDigits(|f.payload|);
    hide Assemble;
  }

  lemma {:induction false} FrameBytesDecode(c: Codec, f: Frame, tail: Bytes)
    requires |f.payload| < WRAP && (c.strict ==> f.version == PROTOCOL_VERSION)
    requires (f.codec == JSON && c.parses(f.payload)) || f.codec == RAW
    ensures Decode(c, FrameBytes(f) + tail) == Ok(f, HEADER_BYTES + |f.payload|)
  {
    FrameParts(f, tail);
    hide FrameBytes, DeclaredLength;
  }

  /**
   * Bytes decode exactly when they start with the bytes of a frame whose version is accepted, whose codec is known and whose
   * payload, if it is JSON, parses; then they decode to that frame and its length.
   */
  lemma {:induction false} DecodesIff(c: Codec, b: Bytes, f: Frame)
    ensures Decode(c, b) == Ok(f, HEADER_BYTES + |f.payload|) <==>
      && |f.payload| < WRAP && FrameBytes(f) <= b
      && (c.strict ==> f.version == PROTOCOL_VERSION)
      && ((f.codec == JSON && c.parses(f.payload)) || f.codec == RAW)
  {
    if Decode(c, b) == Ok(f, HEADER_BYTES + |f.payload|) {
      DecodedBytes(c, b);
    } else if && |f.payload| < WRAP && FrameBytes(f) <= b && (c.strict ==> f.version == PROTOCOL_VERSION)
              && ((f.codec == JSON && c.parses(f.payload)) || f.codec == RAW) {
      assert b == FrameBytes(f) + b[|FrameBytes(f)|..];
      FrameBytesDecode(c, f, b[|FrameBytes(f)|..]);
    }
  }

  lemma {:induction false} DecodedBytes(c: Codec, b: Bytes)
    requires Decode(c, b).Ok?
    ensures var f := Decode(c, b).frame;
      Decode(c, b).byteLength == HEADER_BYTES + |f.payload| && |f.payload| < WRAP && FrameBytes(f) <= b
  {
    LengthBytes(b[2], b[3], b[4], b[5]);
    var f, n := Decode(c, b).frame, HEADER_BYTES + DeclaredLength(b);
    assert |f.payload| == DeclaredLength(b);
    assert FrameBytes(f) == b[..n];
  }

  /** One whole frame in front of any bytes is taken, and the rest reads as it would alone. */
  lemma {:induction false} ParseAfterFrame(c: Codec, f: Frame, rest: Bytes)
    requires Encodable(c, f)
    ensures Parse(c, Encode(f.codec, f.payload) + rest)
         == Reading([f] + Parse(c, rest).frames, Parse(c, rest).rest, Parse(c, rest).status)
  {
    DecodeEncoded(c, f, rest);
    hide Decode, Incomplete, OverCeiling, Encode, Encodable, Parse;
    ParseFront(c, Encode(f.codec, f.payload) + rest);
  }

  lemma {:induction false} FirstOfAll(frames: seq<Frame>, rest: Bytes)
    requires frames != []
    ensures EncodeAll(frames) + rest == Encode(frames[0].codec, frames[0].payload) + (EncodeAll(frames[1..]) + rest)
    ensures [frames[0]] + frames[1..] == frames
  {
    hide Encode;
  }

  /** A frame over the ceiling is refused on its header, whether or not its payload has arrived, and what came before it is kept. */
  lemma {:induction false} OversizedIsRefusedOnItsHeader(c: Codec, frames: seq<Frame>, header: Bytes, tail: Bytes)
    requires forall i :: 0 <= i < |frames| ==> Encodable(c, frames[i])
    requires |header| == HEADER_BYTES && c.limited && HEADER_BYTES + DeclaredLength(header) > c.maxFrameBytes
    ensures Parse(c, EncodeAll(frames) + (header + tail)) == Reading(frames, header + tail, Failed(Oversized))
    decreases |frames|
  {
    if frames == [] {
      assert EncodeAll(frames) + (header + tail) == header + tail;
      DecodePrefix(c, header, tail);
      ParseFront(c, header + tail);
    } else {
      hide Encode, EncodeAll, Parse, Encodable, DeclaredLength;
      OversizedIsRefusedOnItsHeader(c, frames[1..], header, tail);
      FirstOfAll(frames, header + tail);
      ParseAfterFrame(c, frames[0], EncodeAll(frames[1..]) + (header + tail));
    }
  }
}
