/**
 The framing of the byte stream: a frame is a four-byte big-endian body length, a
 four-byte little-endian protocol type and the payload.

 `FrameReader.Feed` is the incremental reader. `Parse` is its one-pass meaning, and
 `ParseIsDecomposition` says what that meaning is without mentioning the reader: the
 unique way of writing the stream as whole frames and an incomplete remainder.
 */
module FrameCodec {
  import opened WireFormat

  const LENGTH_FIELD: nat := 4
  const TYPE_FIELD: nat := 4
  const MAX_BODY: nat := 10 * 1024 * 1024

  datatype Frame = Frame(kind: uint32, payload: seq<byte>)
  datatype Status = NeedMore | FrameReady | InvalidLength
  datatype Parsed = Parsed(frames: seq<Frame>, rest: seq<byte>, corrupt: bool)

  predicate ValidBodyLen(n: int) {
    TYPE_FIELD <= n <= MAX_BODY
  }

  predicate Encodable(f: Frame) {
    TYPE_FIELD + |f.payload| <= MAX_BODY
  }

  // ---- the encoder ----

  method EncodeLength(bodyLen: uint32, out: array<byte>, at: nat)
    requires at + LENGTH_FIELD <= out.Length
    modifies out
    ensures out[..] == old(out[..at]) + BigEndian(bodyLen, 4) + old(out[at + 4..])
  {
    out[at] := bodyLen / 0x100_0000 % 0x100;
    out[at + 1] := bodyLen / 0x1_0000 % 0x100;
    out[at + 2] := bodyLen / 0x100 % 0x100;
    out[at + 3] := bodyLen % 0x100;
    BigEndian4(bodyLen);
  }

  method EncodeType32(v: uint32, out: array<byte>, at: nat)
    requires at + TYPE_FIELD <= out.Length
    modifies out
    ensures out[..] == old(out[..at]) + LittleEndian(v, 4) + old(out[at + 4..])
  {
    out[at] := v % 0x100;
    out[at + 1] := v / 0x100 % 0x100;
    out[at + 2] := v / 0x1_0000 % 0x100;
    out[at + 3] := v / 0x100_0000 % 0x100;
    LittleEndian4(v);
  }

  /** The bytes of a frame on the wire. */
  function FrameBytes(f: Frame): seq<byte> {
    BigEndian(TYPE_FIELD + |f.payload|, 4) + LittleEndian(f.kind, 4) + f.payload
  }

  /** A body that would exceed the limit is refused before anything is written. */
  method EncodeFrame(kind: uint32, payload: seq<byte>) returns (r: Option<seq<byte>>)
    ensures r == if Encodable(Frame(kind, payload)) then Some(FrameBytes(Frame(kind, payload))) else None
    ensures r.Some? <==> 4 + |payload| <= 10485760
    ensures r.Some? ==> r.value == BigEndian(4 + |payload|, 4) + LittleEndian(kind, 4) + payload
  {
    var bodyLen := TYPE_FIELD + |payload|;
    if bodyLen > MAX_BODY {
      return None;
    }
    var out := new byte[LENGTH_FIELD + bodyLen](_ => 0);
    EncodeLength(bodyLen, out, 0);
    EncodeType32(kind, out, LENGTH_FIELD);
    ghost var head := out[..8];
    assert head == BigEndian(bodyLen, 4) + LittleEndian(kind, 4);
    CopyPayload(out, payload);
    assert out[..] == head + payload;
    return Some(out[..]);
  }

  method CopyPayload(out: array<byte>, payload: seq<byte>)
    requires out.Length == LENGTH_FIELD + TYPE_FIELD + |payload|
    modifies out
    ensures out[..8] == old(out[..8]) && out[8..] == payload
  {
    forall i | 0 <= i < |payload| {
      out[8 + i] := payload[i];
    }
  }

  // ---- the decoder ----

  function DecodeLength(p: seq<byte>): (n: uint32)
    requires |p| >= LENGTH_FIELD
    ensures n == BodyLen(p)
  {
    ValueOfFour(p[0], p[1], p[2], p[3]);
    assert p[..4] == [p[0], p[1], p[2], p[3]];
    var b0: int, b1: int, b2: int, b3: int := p[0], p[1], p[2], p[3];
    b0 * 0x100_0000 + b1 * 0x1_0000 + b2 * 0x100 + b3
  }

  function DecodeType32(p: seq<byte>): (v: uint32)
    requires |p| >= TYPE_FIELD
    ensures v == LittleEndianValue(p[..4])
  {
    ValueOfFour(p[3], p[2], p[1], p[0]);
    assert p[..4] == [p[0], p[1], p[2], p[3]];
    var b0: int, b1: int, b2: int, b3: int := p[0], p[1], p[2], p[3];
    b0 + b1 * 0x100 + b2 * 0x1_0000 + b3 * 0x100_0000
  }

  /** The length field at the head of a buffer, and the type field of a body. */
  function BodyLen(s: seq<byte>): nat
    requires |s| >= LENGTH_FIELD
  {
    BigEndianValue(s[..4])
  }

  function BodyType(body: seq<byte>): uint32
    requires |body| >= TYPE_FIELD
  {
    LittleEndianCanonical(body[..4]);
    FourBytes();
    LittleEndianValue(body[..4])
  }

  /** `p` with frames that were read before it. */
  function Prepend(frames: seq<Frame>, p: Parsed): Parsed {
    Parsed(frames + p.frames, p.rest, p.corrupt)
  }

  predicate HasFrame(s: seq<byte>) {
    |s| >= LENGTH_FIELD && ValidBodyLen(BodyLen(s)) && |s| >= LENGTH_FIELD + BodyLen(s)
  }

  function HeadFrame(s: seq<byte>): Frame
    requires HasFrame(s)
  {
    Frame(BodyType(s[4..]), s[8..4 + BodyLen(s)])
  }

  predicate CorruptHeader(s: seq<byte>) {
    |s| >= LENGTH_FIELD && !ValidBodyLen(BodyLen(s))
  }

  function Parse(s: seq<byte>): Parsed {
    if CorruptHeader(s) then Parsed([], [], true)
    else if !HasFrame(s) then Parsed([], s, false)
    else Prepend([HeadFrame(s)], Parse(s[LENGTH_FIELD + BodyLen(s)..]))
  }

  /** `Parse` seen from an offset into the buffer, as the reader's loop sees it. */
  lemma ParseAt(buffer: seq<byte>, at: nat, next: nat, f: Frame, before: seq<Frame>)
    requires at + 8 <= next <= |buffer| && HasFrame(buffer[at..])
    requires next == at + LENGTH_FIELD + BodyLen(buffer[at..])
    requires f == Frame(BodyType(buffer[at + 4..]), buffer[at + 8..next])
    ensures Prepend(before, Parse(buffer[at..])) == Prepend(before + [f], Parse(buffer[next..]))
  {
    var here := buffer[at..];
    assert here[4..] == buffer[at + 4..] && here[8..next - at] == buffer[at + 8..next];
    assert here[next - at..] == buffer[next..];
    PrependTwice(before, [HeadFrame(here)], Parse(buffer[next..]));
  }

  /** Where the reader's loop must stop, what it has read is all there is to read. */
  lemma ParseEnds(s: seq<byte>)
    requires !HasFrame(s)
    ensures Parse(s) == if CorruptHeader(s) then Parsed([], [], true) else Parsed([], s, false)
  {
  }

  /** The reader's loop over its buffer: every whole frame is appended to `out`. */
  method Drain(buffer: seq<byte>, out: seq<Frame>) returns (corrupt: bool, consumed: nat, frames: seq<Frame>)
    ensures consumed <= |buffer|
    ensures !corrupt ==> Prepend(out, Parse(buffer)) == Parsed(frames, buffer[consumed..], false)
    ensures |frames| > |out| <==> Parse(buffer).frames != []
    ensures corrupt ==> Prepend(out, Parse(buffer)) == Parsed(frames, [], true)
  {
    frames, consumed := out, 0;
    assert buffer[0..] == buffer;
    while true
      invariant consumed <= |buffer|
      invariant Prepend(frames, Parse(buffer[consumed..])) == Prepend(out, Parse(buffer))
      decreases |buffer| - consumed
    {
      var here := buffer[consumed..];
      if |here| < LENGTH_FIELD {
        ParseEnds(here);
        return false, consumed, frames;
      }
      var bodyLen := DecodeLength(here);
      if !ValidBodyLen(bodyLen) {
        ParseEnds(here);
        return true, consumed, frames;
      }
      var frameLen := LENGTH_FIELD + bodyLen;
      if |here| < frameLen {
        ParseEnds(here);
        return false, consumed, frames;
      }
      var body, next := consumed + LENGTH_FIELD, consumed + frameLen;
      var f := Frame(DecodeType32(buffer[body..]), buffer[body + TYPE_FIELD..next]);
      ParseAt(buffer, consumed, next, f, frames);
      frames, consumed := frames + [f], next;
    }
  }

  class FrameReader {
    var pending: seq<byte>

    constructor ()
      ensures pending == []
    {
      pending := [];
    }

    method Feed(data: array?<byte>, len: nat, out: seq<Frame>) returns (status: Status, frames: seq<Frame>)
      requires data != null ==> len <= data.Length
      modifies this
      ensures len > 0 && data == null ==>
                status == InvalidLength && frames == out && pending == old(pending)
      ensures len == 0 || data != null ==>
                var p := Parse(old(pending) + if len == 0 then [] else data[..len]);
                && frames == out + p.frames
                && pending == p.rest
                && status == if p.corrupt then InvalidLength else if p.frames != [] then FrameReady else NeedMore
    {
      if len > 0 {
        if data == null {
          return InvalidLength, out;
        }
        pending := pending + data[..len];
      }
      assert pending == old(pending) + if len == 0 then [] else data[..len];
      var corrupt, consumed;
      corrupt, consumed, frames := Drain(pending, out);
      if corrupt {
        pending := [];
        return InvalidLength, frames;
      }
      pending := pending[consumed..];
      status := if |frames| > |out| then FrameReady else NeedMore;
    }

    /** Reconnecting must drop whatever the old connection left behind. */
    method Reset()
      modifies this
      ensures pending == []
    {
      pending := [];
    }
  }

  // ---- the fields in closed form ----

  lemma Quotients(v: uint32)
    ensures v / 0x100 / 0x100 == v / 0x1_0000 && v / 0x1_0000 / 0x100 == v / 0x100_0000
  {
  }

  lemma BigEndianSnoc(v: nat, q: nat, width: nat)
    requires q == v / 0x100
    ensures BigEndian(v, width + 1) == BigEndian(q, width) + [v % 0x100]
  {
  }

  lemma LittleEndianCons(v: nat, q: nat, width: nat)
    requires q == v / 0x100
    ensures LittleEndian(v, width + 1) == [v % 0x100] + LittleEndian(q, width)
  {
  }

  lemma BigEndian4(v: uint32)
    ensures BigEndian(v, 4) == [v / 0x100_0000 % 0x100, v / 0x1_0000 % 0x100, v / 0x100 % 0x100, v % 0x100]
  {
    var a, b, c := v / 0x100, v / 0x1_0000, v / 0x100_0000;
    Quotients(v);
    BigEndianSnoc(v, a, 3);
    BigEndianSnoc(a, b, 2);
    BigEndianSnoc(b, c, 1);
    BigEndianSnoc(c, c / 0x100, 0);
  }

  lemma LittleEndian4(v: uint32)
    ensures LittleEndian(v, 4) == [v % 0x100, v / 0x100 % 0x100, v / 0x1_0000 % 0x100, v / 0x100_0000 % 0x100]
  {
    var a, b, c := v / 0x100, v / 0x1_0000, v / 0x100_0000;
    Quotients(v);
    LittleEndianCons(v, a, 3);
    LittleEndianCons(a, b, 2);
    LittleEndianCons(b, c, 1);
    LittleEndianCons(c, c / 0x100, 0);
  }

  lemma ValueOfFour(b0: byte, b1: byte, b2: byte, b3: byte)
    ensures var v0: int, v1: int, v2: int, v3: int := b0, b1, b2, b3;
            var v := v0 * 0x100_0000 + v1 * 0x1_0000 + v2 * 0x100 + v3;
            BigEndianValue([b0, b1, b2, b3]) == v && LittleEndianValue([b3, b2, b1, b0]) == v
  {
    assert [b0, b1, b2, b3][..3] == [b0, b1, b2] && [b0, b1, b2][..2] == [b0, b1] && [b0, b1][..1] == [b0];
    assert BigEndianValue([b0]) == b0 && BigEndianValue([b0, b1]) == 0x100 * BigEndianValue([b0]) + b1;
    assert BigEndianValue([b0, b1, b2]) == 0x100 * BigEndianValue([b0, b1]) + b2;
    assert [b3, b2, b1, b0][1..] == [b2, b1, b0] && [b2, b1, b0][1..] == [b1, b0] && [b1, b0][1..] == [b0];
    assert LittleEndianValue([b0]) == b0 && LittleEndianValue([b1, b0]) == b1 + 0x100 * LittleEndianValue([b0]);
    assert LittleEndianValue([b2, b1, b0]) == b2 + 0x100 * LittleEndianValue([b1, b0]);
  }

  // ---- what the stream means ----

  function EncodeAll(frames: seq<Frame>): seq<byte> {
    if frames == [] then [] else FrameBytes(frames[0]) + EncodeAll(frames[1..])
  }

  predicate AllEncodable(frames: seq<Frame>) {
    forall i :: 0 <= i < |frames| ==> Encodable(frames[i])
  }

  /** Nothing more can be read from these bytes, yet they may still become a frame. */
  predicate Incomplete(rest: seq<byte>) {
    |rest| < LENGTH_FIELD || (ValidBodyLen(BodyLen(rest)) && |rest| < LENGTH_FIELD + BodyLen(rest))
  }

  lemma ParseOneEncoded(f: Frame, more: seq<byte>)
    requires Encodable(f)
    ensures Parse(FrameBytes(f) + more) == Prepend([f], Parse(more))
  {
    var n := TYPE_FIELD + |f.payload|;
    var s := FrameBytes(f) + more;
    FourBytes();
    assert s[..4] == BigEndian(n, 4) && s[4..][..4] == LittleEndian(f.kind, 4);
    BigEndianRoundTrip(n, 4);
    LittleEndianRoundTrip(f.kind, 4);
    assert s[8..4 + n] == f.payload && s[4 + n..] == more;
  }

  lemma EncodeAllCons(frames: seq<Frame>, more: seq<byte>)
    requires frames != []
    ensures EncodeAll(frames) + more == FrameBytes(frames[0]) + (EncodeAll(frames[1..]) + more)
  {
    var a, b := FrameBytes(frames[0]), EncodeAll(frames[1..]);
    assert (a + b) + more == a + (b + more);
  }

  lemma PrependTwice(a: seq<Frame>, b: seq<Frame>, p: Parsed)
    ensures Prepend(a, Prepend(b, p)) == Prepend(a + b, p)
  {
    assert a + (b + p.frames) == (a + b) + p.frames;
  }

  /** Encoded frames in front of any bytes are read back first, unchanged and in order. */
  lemma {:induction false} ParseEncoded(frames: seq<Frame>, more: seq<byte>)
    requires AllEncodable(frames)
    ensures Parse(EncodeAll(frames) + more) == Prepend(frames, Parse(more))
  {
    if frames == [] {
      assert EncodeAll(frames) + more == more;
    } else {
      var f, fs := frames[0], frames[1..];
      ParseEncoded(fs, more);
      EncodeAllCons(frames, more);
      ParseOneEncoded(f, EncodeAll(fs) + more);
      PrependTwice([f], fs, Parse(more));
      assert [f] + fs == frames;
    }
  }

  /** Every whole frame at the head of a stream is the encoding of what is read from it. */
  lemma HeadIsEncoded(s: seq<byte>)
    requires HasFrame(s)
    ensures Encodable(HeadFrame(s))
    ensures s == FrameBytes(HeadFrame(s)) + s[4 + BodyLen(s)..]
  {
    var n := BodyLen(s);
    BigEndianCanonical(s[..4]);
    LittleEndianCanonical(s[4..][..4]);
    assert s == s[..4] + (s[4..][..4] + (s[8..4 + n] + s[4 + n..]));
  }

  /** The unread bytes of a stream are what follows the frames `Parse` returned. */
  lemma {:induction false} ParseSound(s: seq<byte>) returns (tail: seq<byte>)
    ensures s == EncodeAll(Parse(s).frames) + tail && AllEncodable(Parse(s).frames)
    ensures if Parse(s).corrupt then CorruptHeader(tail) && Parse(s).rest == []
            else Incomplete(tail) && Parse(s).rest == tail
  {
    if !HasFrame(s) {
      tail := s;
    } else {
      var f, later := HeadFrame(s), s[4 + BodyLen(s)..];
      tail := ParseSound(later);
      HeadIsEncoded(s);
      var frames := Parse(s).frames;
      assert frames == [f] + Parse(later).frames;
      assert frames[1..] == Parse(later).frames;
      EncodeAllCons(frames, tail);
    }
  }

  /**
   A stream decomposes in exactly one way: `Parse` returns `frames` and `rest` if and
   only if the stream is the encoding of `frames` followed by an incomplete `rest`.
   */
  lemma ParseIsDecomposition(s: seq<byte>, frames: seq<Frame>, rest: seq<byte>)
    ensures Parse(s) == Parsed(frames, rest, false) <==>
            AllEncodable(frames) && s == EncodeAll(frames) + rest && Incomplete(rest)
  {
    var tail := ParseSound(s);
    if AllEncodable(frames) && s == EncodeAll(frames) + rest && Incomplete(rest) {
      ParseEncoded(frames, rest);
      assert Parse(rest) == Parsed([], rest, false);
      assert frames + [] == frames;
    }
  }

  /** A stream is corrupt exactly when some whole frames are followed by a bad length field. */
  lemma CorruptIffBadHeader(s: seq<byte>, frames: seq<Frame>)
    ensures Parse(s) == Parsed(frames, [], true) <==>
            AllEncodable(frames) && exists tail :: s == EncodeAll(frames) + tail && CorruptHeader(tail)
  {
    var unread := ParseSound(s);
    if Parse(s) == Parsed(frames, [], true) {
      assert s == EncodeAll(frames) + unread && CorruptHeader(unread);
    }
    if tail :| AllEncodable(frames) && s == EncodeAll(frames) + tail && CorruptHeader(tail) {
      ParseEncoded(frames, tail);
      assert Parse(tail) == Parsed([], [], true);
      assert frames + [] == frames;
    }
  }

  // ---- splitting the stream never matters ----

  /** Later bytes do not change how the head of the buffer is read. */
  lemma HeadIsStable(a: seq<byte>, b: seq<byte>)
    requires |a| >= LENGTH_FIELD
    ensures BodyLen(a + b) == BodyLen(a)
    ensures HasFrame(a) ==> HasFrame(a + b) && HeadFrame(a + b) == HeadFrame(a)
  {
    assert (a + b)[..4] == a[..4];
    if HasFrame(a) {
      var n := BodyLen(a);
      assert (a + b)[4..][..4] == a[4..][..4] && (a + b)[8..4 + n] == a[8..4 + n];
    }
  }

  lemma ParseAppendStep(a: seq<byte>, b: seq<byte>) returns (f: Frame, later: seq<byte>)
    requires HasFrame(a)
    ensures |later| < |a| && Parse(a) == Prepend([f], Parse(later)) && Parse(a + b) == Prepend([f], Parse(later + b))
  {
    HeadIsStable(a, b);
    var n := LENGTH_FIELD + BodyLen(a);
    f, later := HeadFrame(a), a[n..];
    assert (a + b)[n..] == later + b;
  }

  /** Appending bytes appends to what is read, unless the stream was already corrupt. */
  lemma {:induction false} ParseAppend(a: seq<byte>, b: seq<byte>)
    ensures Parse(a + b) == if Parse(a).corrupt then Parse(a) else Prepend(Parse(a).frames, Parse(Parse(a).rest + b))
    decreases |a|
  {
    if CorruptHeader(a) {
      HeadIsStable(a, b);
    } else if HasFrame(a) {
      var f, later := ParseAppendStep(a, b);
      ParseAppend(later, b);
      PrependTwice([f], Parse(later).frames, Parse(Parse(later).rest + b));
    } else {
      assert Parse(a) == Parsed([], a, false);
    }
  }

  /** Feeding the chunks one after another, up to the first InvalidLength. */
  function FeedAll(pending: seq<byte>, chunks: seq<seq<byte>>): Parsed
    decreases |chunks|
  {
    if chunks == [] then Parsed([], pending, false)
    else
      var p := Parse(pending + chunks[0]);
      if p.corrupt then p else Prepend(p.frames, FeedAll(p.rest, chunks[1..]))
  }

  function Concat(chunks: seq<seq<byte>>): seq<byte> {
    if chunks == [] then [] else chunks[0] + Concat(chunks[1..])
  }

  /** Every way of cutting a stream into reads yields what one read of the whole yields. */
  lemma {:induction false} SplitNeverMatters(pending: seq<byte>, chunks: seq<seq<byte>>)
    requires Incomplete(pending)
    decreases |chunks|
    ensures FeedAll(pending, chunks) == Parse(pending + Concat(chunks))
  {
    if chunks == [] {
      assert pending + Concat(chunks) == pending;
    } else {
      var a := pending + chunks[0];
      assert pending + Concat(chunks) == a + Concat(chunks[1..]);
      var tail := ParseSound(a);
      ParseAppend(a, Concat(chunks[1..]));
      if !Parse(a).corrupt {
        SplitNeverMatters(Parse(a).rest, chunks[1..]);
      }
    }
  }

  /** What one side encodes, the other side reads back, however the bytes arrive. */
  lemma StreamRoundTrip(frames: seq<Frame>, chunks: seq<seq<byte>>)
    requires AllEncodable(frames)
    requires Concat(chunks) == EncodeAll(frames)
    ensures FeedAll([], chunks) == Parsed(frames, [], false)
  {
    SplitNeverMatters([], chunks);
    assert [] + Concat(chunks) == EncodeAll(frames) + [];
    ParseIsDecomposition(EncodeAll(frames) + [], frames, []);
  }
}
