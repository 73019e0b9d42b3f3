/**
 * Two stream readers: the naive one of `runFrameDecodeWorkload` (bench/claims.js), which re-concatenates
 * on every chunk, and `createFrameDecoder` (src/helpers/powerMessageCodec.js), which keeps a read and a
 * write cursor over one growable buffer. Both mean `Parse`.
 */
module FrameDecoder {
  import opened Framing

  /** The inner loop of `naiveDecodeAll`: take whole frames while there are any. */
  method NaiveDrain(c: Codec, buf: Bytes) returns (out: seq<Frame>, tail: Bytes, status: Status)
    requires !c.limited
    ensures Reading(out, tail, status) == Parse(c, buf)
  {
    hide Parse, Decode, DeclaredLength, Reads;
    out, tail, status := [], buf, Clean;
    ghost var target := Parse(c, buf);
    ReadsAll(c, buf);
    while true
      invariant Reads(c, target, out, tail)
      decreases |tail|
    {
      ReadsFront(c, target, out, tail);
      if |tail| < HEADER_BYTES || |tail| < HEADER_BYTES + DeclaredLength(tail) {
        break;
      }
      var decoded := Decode(c, tail);
      if decoded.Err? {
        return out, tail, Failed(decoded.error);
      }
      out := out + [decoded.frame];
      tail := tail[decoded.byteLength..];
    }
  }

  lemma {:induction false} ReadsAll(c: Codec, b: Bytes)
    ensures Reads(c, Parse(c, b), [], b)
  {
    assert [] + Parse(c, b).frames == Parse(c, b).frames;
  }

  /** `naiveDecodeAll`: where the source throws, the status says so. */
  method NaiveDecodeAll(c: Codec, chunks: seq<Bytes>) returns (out: seq<Frame>, tail: Bytes, status: Status)
    requires !c.limited
    ensures status.Clean? ==> tail == Parse(c, Flatten(chunks)).rest
    ensures out == Parse(c, Flatten(chunks)).frames && status == Parse(c, Flatten(chunks)).status
  {
    hide Parse, Delivered;
    out, tail, status := [], [], Clean;
    for i := 0 to |chunks|
      invariant Reading(out, tail, Clean) == FeedAll(c, chunks[..i])
    {
      assert chunks[..i + 1][..i] == chunks[..i];
      var frames;
      frames, tail, status := NaiveDrain(c, tail + chunks[i]);
      out := out + frames;
      if status.Failed? {
        assert chunks == chunks[..i + 1] + chunks[i + 1..];
        FailureIsFinal(c, chunks[..i + 1], chunks[i + 1..]);
        ChunkingDoesNotMatter(c, chunks);
        return;
      }
    }
    assert chunks[..|chunks|] == chunks;
    ChunkingDoesNotMatter(c, chunks);
    status := Clean;
  }

  const INITIAL_BYTES: nat := 1024

  /** The frame at the front is refused, and with it whatever follows. */
  ghost predicate Refused(c: Codec, b: Bytes) {
    OverCeiling(c, b) || (!Incomplete(b) && Decode(c, b).Err?)
  }

  class Decoder {
    const codec: Codec
    var buf: array<Byte>
    var start: nat
    var end: nat
    /** Since construction or disposal: bytes pushed, bytes gone again, and bytes moved by compaction and by growth. */
    ghost var pushed: nat
    ghost var gone: nat
    ghost var compacted: nat
    ghost var grown: nat
    /** How many bytes at the front of the buffer a compaction has moved and no frame has consumed. */
    ghost var charged: nat

    /** The bytes held for an incomplete frame. */
    ghost function View(): Bytes
      requires start <= end <= buf.Length
      reads this, buf
    {
      buf[start..end]
    }

    /** Every byte moved is charged: by growth to the capacity, by compaction to bytes gone or about to go as one frame. */
    ghost predicate Accounted()
      requires start <= end <= buf.Length
      reads this, buf
    {
      && gone + (end - start) <= pushed
      && (buf.Length == 0 ==> grown == 0)
      && (buf.Length > 0 ==> grown + INITIAL_BYTES <= buf.Length)
      && (buf.Length > INITIAL_BYTES ==> buf.Length < 2 * pushed)
      && charged <= end - start && compacted <= gone + charged
      && (charged > 0 ==> start == 0 && (Incomplete(buf[..charged]) || Refused(codec, View())))
    }

    /** Between pushes the buffer holds an incomplete frame, or one that was refused. */
    ghost predicate Valid()
      reads this, buf
    {
      start <= end <= buf.Length && Accounted() && (Incomplete(View()) || Refused(codec, View()))
    }

    constructor (codec: Codec)
      ensures Valid() && View() == [] && fresh(buf) && this.codec == codec
    {
      this.codec := codec;
      buf := new Byte[INITIAL_BYTES](_ => 0);
      start, end, pushed, gone, compacted, grown, charged := 0, 0, 0, 0, 0, 0, 0;
    }

    /** All copying together is linear in the bytes pushed, however they were chunked and framed. */
    lemma MovedBytesAreLinear()
      requires Valid()
      ensures compacted + grown <= 3 * pushed
    {
    }

    /** `copyWithin(0, start, end)`. */
    method Compact()
      requires Valid() && start > 0
      modifies this, buf
      ensures Valid() && start == 0 && buf == old(buf) && View() == old(View()) && pushed == old(pushed) && gone == old(gone)
    {
      var live := end - start;
      ghost var view := View();
      for i := 0 to live
        modifies buf
        invariant buf[..i] == view[..i]
        invariant forall j :: start + i <= j < end ==> buf[j] == old(buf[j])
      {
        buf[i] := buf[start + i];
      }
      start, end := 0, live;
      compacted, charged := compacted + live, live;
      assert buf[..live] == buf[0..live] == view;
    }

    /** `buf.length || INITIAL_BYTES`, doubled until it fits. */
    static method Doubled(length: nat, needed: nat) returns (capacity: nat)
      requires length < needed && (length == 0 || length >= INITIAL_BYTES)
      ensures capacity >= needed && capacity >= INITIAL_BYTES
      ensures capacity == INITIAL_BYTES || capacity < 2 * needed
      ensures length > 0 ==> capacity >= 2 * length
    {
      capacity := if length == 0 then INITIAL_BYTES else length;
      while capacity < needed
        invariant capacity >= INITIAL_BYTES && (capacity == INITIAL_BYTES || capacity == length || capacity < 2 * needed)
        invariant length > 0 ==> capacity == length || capacity >= 2 * length
        decreases needed - capacity
      {
        capacity := capacity * 2;
      }
    }

    /** `larger.set(buf.subarray(start, end), 0)`. */
    method CopyLive(capacity: nat) returns (larger: array<Byte>)
      requires start <= end <= buf.Length && end - start <= capacity
      ensures fresh(larger) && larger.Length == capacity && larger[..end - start] == buf[start..end]
    {
      larger := new Byte[capacity](_ => 0);
      for i := 0 to end - start
        modifies larger
        invariant larger[..i] == buf[start..start + i]
      {
        larger[i] := buf[start + i];
      }
    }

    /** A larger buffer with the live bytes at its start. */
    method Grow(incoming: nat)
      requires Valid() && buf.Length < end - start + incoming <= pushed
      modifies this
      ensures Valid() && fresh(buf) && start == 0 && View() == old(View()) && pushed == old(pushed) && gone == old(gone)
      ensures end + incoming <= buf.Length
    {
      hide Incomplete, Refused, OverCeiling, Decode;
      var live := end - start;
      var capacity := Doubled(buf.Length, live + incoming);
      var larger := CopyLive(capacity);
      Adopt(larger);
    }

    method Adopt(larger: array<Byte>)
      requires Valid() && buf.Length < larger.Length && larger[..end - start] == View()
      requires larger.Length >= INITIAL_BYTES && larger.Length >= 2 * buf.Length
      requires larger.Length == INITIAL_BYTES || larger.Length < 2 * pushed
      modifies this`buf, this`start, this`end, this`grown
      ensures Valid() && buf == larger && start == 0 && end == old(end) - old(start) && View() == old(View())
    {
      hide Incomplete, Refused, OverCeiling, Decode;
      var live := end - start;
      grown := grown + live;
      assert charged > 0 ==> larger[..charged] == buf[..charged];
      assert larger[0..live] == View();
      buf, start, end := larger, 0, live;
    }

    method Reserve(incoming: nat)
      requires Valid() && end - start + incoming <= pushed
      modifies this, buf
      ensures Valid() && (buf == old(buf) || fresh(buf)) && View() == old(View()) && pushed == old(pushed) && gone == old(gone)
      ensures end + incoming <= buf.Length
    {
      if end + incoming <= buf.Length {
        return;
      }
      if end - start + incoming <= buf.Length {
        Compact();
      } else {
        Grow(incoming);
      }
    }

    /** `buf.set(bytes, end)`. */
    method Append(chunk: Bytes)
      requires Valid() && end + |chunk| <= buf.Length && gone + (end - start) + |chunk| <= pushed
      modifies this`end, buf
      ensures start <= end <= buf.Length && View() == old(View()) + chunk && Accounted()
    {
      ghost var view := View();
      for i := 0 to |chunk|
        modifies buf
        invariant buf[..end] == old(buf[..end]) && buf[end..end + i] == chunk[..i]
      {
        buf[end + i] := chunk[i];
      }
      end := end + |chunk|;
      assert buf[..old(end)][start..] == view;
      assert View() == view + chunk;
      assert buf[..charged] == buf[..old(end)][..charged];
      DecodePrefix(codec, view, chunk);
    }

    /** Takes every whole frame off the front; where the source throws, the status says so. */
    method Drain() returns (frames: seq<Frame>, status: Status)
      requires start <= end <= buf.Length && Accounted()
      modifies this`start, this`end, this`gone, this`charged
      ensures Valid() && Reading(frames, View(), status) == Parse(codec, old(View()))
    {
      hide Decode, Decoder.Accounted, Parse, DeclaredLength, Reads;
      ghost var target := Parse(codec, View());
      ReadsAll(codec, View());
      frames := [];
      while end - start >= HEADER_BYTES
        invariant start <= end == old(end) && Accounted() && Reads(codec, target, frames, View())
        decreases end - start
      {
        ReadsFront(codec, target, frames, View());
        var declared := DeclaredLength(buf[start..end]);
        if codec.limited && HEADER_BYTES + declared > codec.maxFrameBytes {
          return frames, Failed(Oversized);
        }
        if end - start < HEADER_BYTES + declared {
          break;
        }
        var decoded := Decode(codec, buf[start..end]);
        if decoded.Err? {
          return frames, Failed(decoded.error);
        }
        Consume(decoded.byteLength);
        frames := frames + [decoded.frame];
      }
      ReadsFront(codec, target, frames, View());
      if start == end {
        Rewind();
      }
      status := Clean;
    }

    method Rewind()
      requires start == end <= buf.Length && Accounted()
      modifies this`start, this`end
      ensures start == end == 0 && Accounted()
    {
      start, end := 0, 0;
    }

    /** The read cursor moves past a whole frame: what a compaction had moved goes with it. */
    method Consume(n: nat)
      requires start <= end <= buf.Length && Accounted()
      requires !OverCeiling(codec, View()) && !Incomplete(View()) && Decode(codec, View()).Ok?
      requires n == Decode(codec, View()).byteLength
      modifies this`start, this`gone, this`charged
      ensures start == old(start) + n <= end && View() == old(View())[n..] && Accounted() && n > 0
    {
      ghost var view := View();
      FrontIsWhole(view, charged);
      assert start == 0 ==> buf[..charged] == view[..charged];
      start := start + n;
      gone, charged := gone + n, 0;
      assert View() == view[n..];
    }

    /** The frames completed by this chunk. A throw takes the frames it had already completed with it. */
    method Push(chunk: Bytes) returns (frames: seq<Frame>, status: Status)
      requires Valid()
      modifies this, buf
      ensures Valid() && (buf == old(buf) || fresh(buf)) && pushed == old(pushed) + |chunk|
      ensures var reading := Parse(codec, old(View()) + chunk);
        View() == reading.rest && status == reading.status && frames == if status.Clean? then reading.frames else []
    {
      pushed := pushed + |chunk|;
      Reserve(|chunk|);
      Append(chunk);
      frames, status := Drain();
      if status.Failed? {
        frames := [];
      }
    }

    /** The unconsumed remainder as a copy, or the shortfall where the source throws. */
    method Flush(strict: bool) returns (remainder: Bytes, needed: nat)
      requires Valid()
      ensures remainder == View()
      ensures needed == if strict && |View()| > 0
                        then HEADER_BYTES + (if |View()| < HEADER_BYTES then 0 else DeclaredLength(View())) else 0
    {
      remainder, needed := buf[start..end], 0;
      if end - start > 0 && strict {
        needed := HEADER_BYTES + if end - start < HEADER_BYTES then 0 else DeclaredLength(buf[start..end]);
      }
    }

    method Reset()
      requires Valid()
      modifies this`start, this`end, this`gone, this`charged
      ensures Valid() && View() == [] && start == end == charged == 0
    {
      gone := gone + (end - start);
      start, end, charged := 0, 0, 0;
    }

    method Dispose()
      requires Valid()
      modifies this
      ensures Valid() && View() == [] && buf.Length == 0 && fresh(buf) && pushed == 0
    {
      Reset();
      buf := new Byte[0](_ => 0);
      pushed, gone, compacted, grown := 0, 0, 0, 0;
    }
  }

  /** Bytes that do not make a frame end inside the frame that a longer run of them makes. */
  lemma FrontIsWhole(view: Bytes, k: nat)
    requires k <= |view|
    ensures !Incomplete(view) && Incomplete(view[..k]) ==> k < HEADER_BYTES + DeclaredLength(view)
  {
    if k >= HEADER_BYTES {
      assert DeclaredLength(view[..k]) == DeclaredLength(view);
    }
  }

  /** `incrementalDecodeAll`: on any chunking it ends as the naive reader does, and with the same frames. */
  method IncrementalDecodeAll(c: Codec, chunks: seq<Bytes>) returns (out: seq<Frame>, status: Status)
    ensures status == Parse(c, Flatten(chunks)).status && out == Delivered(c, chunks)
    ensures status.Clean? ==> out == Parse(c, Flatten(chunks)).frames
  {
    hide Parse, Incomplete, Refused, Decoder.Accounted;
    var decoder := new Decoder(c);
    out := [];
    for i := 0 to |chunks|
      invariant decoder.Valid() && fresh(decoder) && fresh(decoder.buf) && decoder.codec == c
      invariant FeedAll(c, chunks[..i]) == Reading(out, decoder.View(), Clean) && out == Delivered(c, chunks[..i])
    {
      assert chunks[..i + 1][..i] == chunks[..i];
      var frames, pushed := decoder.Push(chunks[i]);
      if pushed.Failed? {
        assert chunks == chunks[..i + 1] + chunks[i + 1..];
        FailureIsFinal(c, chunks[..i + 1], chunks[i + 1..]);
        ChunkingDoesNotMatter(c, chunks);
        return out, pushed;
      }
      out := out + frames;
    }
    assert chunks[..|chunks|] == chunks;
    ChunkingDoesNotMatter(c, chunks);
    status := Clean;
  }

  /** The frames that pushes return: a push that throws returns none, and nothing is read after it. */
  function Delivered(c: Codec, chunks: seq<Bytes>): seq<Frame> {
    if chunks == [] then []
    else
      var n := |chunks| - 1;
      var before, after := FeedAll(c, chunks[..n]), FeedAll(c, chunks);
      if after.status.Failed? then Delivered(c, chunks[..n])
      else Delivered(c, chunks[..n]) + Parse(c, before.rest + chunks[n]).frames
  }

  lemma {:induction false} FailureIsFinal(c: Codec, a: seq<Bytes>, b: seq<Bytes>)
    requires FeedAll(c, a).status.Failed?
    ensures FeedAll(c, a + b).status == FeedAll(c, a).status && FeedAll(c, a + b).frames == FeedAll(c, a).frames
    ensures Delivered(c, a + b) == Delivered(c, a)
  {
    if b == [] {
      assert a + b == a;
    } else {
      var n := |b| - 1;
      assert (a + b)[..|a| + n] == a + b[..n];
      FailureIsFinal(c, a, b[..n]);
    }
  }

  /** What is delivered is always a prefix of what the stream carries, and all of it while nothing throws. */
  lemma {:induction false} DeliveredIsAPrefix(c: Codec, chunks: seq<Bytes>)
    ensures Delivered(c, chunks) <= FeedAll(c, chunks).frames
    ensures FeedAll(c, chunks).status.Clean? ==> Delivered(c, chunks) == FeedAll(c, chunks).frames
  {
    hide Parse;
    if chunks != [] {
      DeliveredIsAPrefix(c, chunks[..|chunks| - 1]);
    }
  }

  lemma {:induction false} OneChunk(c: Codec, chunk: Bytes)
    ensures Flatten([chunk]) == chunk && FeedAll(c, [chunk]) == Parse(c, chunk)
    ensures Delivered(c, [chunk]) == if Parse(c, chunk).status.Failed? then [] else Parse(c, chunk).frames
  {
    hide Parse;
    assert [chunk][..0] == [];
    assert [] + chunk == chunk;
  }

  /**
   * A throw takes the frames completed by its chunk with it. So all chunkings of a stream deliver the
   * frames it carries exactly when the stream does not fail, or fails before its first frame.
   */
  lemma {:induction false} DeliveryIgnoresChunkingIff(c: Codec, stream: Bytes)
    ensures (forall chunks :: Flatten(chunks) == stream ==> Delivered(c, chunks) == Parse(c, stream).frames)
       <==> Parse(c, stream).status.Clean? || Parse(c, stream).frames == []
  {
    hide Parse, Delivered, FeedAll, Flatten;
    if Parse(c, stream).status.Clean? || Parse(c, stream).frames == [] {
      forall chunks | Flatten(chunks) == stream ensures Delivered(c, chunks) == Parse(c, stream).frames {
        ChunkingDoesNotMatter(c, chunks);
        DeliveredIsAPrefix(c, chunks);
      }
    } else {
      OneChunk(c, stream);
    }
  }
}
