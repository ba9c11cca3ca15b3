/**
 The wire format of the TCP transport: `[kind][u32 big-endian length][payload]`
 frames, the bounded frame reader, and the layout of message frames.
 */
module Framing {
  import opened Wrappers

  const FRAME_HELLO: byte := 1
  const FRAME_MESSAGE: byte := 2
  const FRAME_ACK: byte := 3
  const FRAME_ACTION: byte := 4
  const FRAME_BINARY: byte := 5
  const FRAME_IDENTITY: byte := 6
  const FRAME_EPHEMERAL: byte := 7
  const FRAME_KEEPALIVE: byte := 8

  const MESSAGE_ID_LEN: nat := 8
  const MAX_FRAME_SIZE: nat := 64 * 1024
  const U32_MAX: nat := 0xFFFF_FFFF

  // ---------------------------------------------------------------- integers

  function Pow256(width: nat): (p: nat)
    ensures p > 0
  {
    if width == 0 then 1 else 256 * Pow256(width - 1)
  }

  function BigEndian(width: nat, value: nat): (b: seq<byte>)
    ensures |b| == width
  {
    if width == 0 then [] else BigEndian(width - 1, value / 256) + [value % 256]
  }

  function FromBigEndian(b: seq<byte>): nat {
    if b == [] then 0 else 256 * FromBigEndian(b[..|b| - 1]) + b[|b| - 1]
  }

  lemma {:induction false} BigEndianRoundTrip(width: nat, value: nat)
    requires value < Pow256(width)
    ensures FromBigEndian(BigEndian(width, value)) == value
  {
    if width > 0 {
      var b := BigEndian(width, value);
      assert b[..|b| - 1] == BigEndian(width - 1, value / 256);
      BigEndianRoundTrip(width - 1, value / 256);
    }
  }

  lemma {:induction false} FromBigEndianRoundTrip(b: seq<byte>)
    ensures FromBigEndian(b) < Pow256(|b|)
    ensures BigEndian(|b|, FromBigEndian(b)) == b
  {
    if b != [] {
      FromBigEndianRoundTrip(b[..|b| - 1]);
      assert b == b[..|b| - 1] + [b[|b| - 1]];
    }
  }

  // ------------------------------------------------------------------ frames

  datatype Frame = Frame(kind: byte, payload: seq<byte>)

  /** Why a reader stopped before a clean end of stream. */
  datatype ReadError = Truncated | Oversized

  /** How one attempt to read a frame from a finite stream ends. */
  datatype Parsed = Got(frame: Frame, rest: seq<byte>) | CleanEnd | Failed(error: ReadError)

  function EncodeFrame(f: Frame): seq<byte> {
    var length := if |f.payload| <= U32_MAX then |f.payload| else U32_MAX;
    [f.kind] + BigEndian(4, length) + f.payload
  }

  function ParseFrame(s: seq<byte>): Parsed {
    if s == [] then CleanEnd
    else if |s| < 5 then Failed(Truncated)
    else
      var length := FromBigEndian(s[1..5]);
      if length > MAX_FRAME_SIZE then Failed(Oversized)
      else if |s| < 5 + length then Failed(Truncated)
      else Got(Frame(s[0], s[5..5 + length]), s[5 + length..])
  }

  ghost predicate Fits(f: Frame) {
    |f.payload| <= MAX_FRAME_SIZE
  }

  lemma HeaderParts(f: Frame, rest: seq<byte>)
    ensures var s := EncodeFrame(f) + rest;
      && |s| == 5 + |f.payload| + |rest| && s[0] == f.kind
      && FromBigEndian(s[1..5]) == (if |f.payload| <= U32_MAX then |f.payload| else U32_MAX)
      && s[5..5 + |f.payload|] == f.payload
      && s[5 + |f.payload|..] == rest
  {
    var length := if |f.payload| <= U32_MAX then |f.payload| else U32_MAX;
    var s := EncodeFrame(f) + rest;
    assert s[1..5] == BigEndian(4, length);
    assert Pow256(4) == 0x1_0000_0000 by { assert Pow256(2) == 65536; assert Pow256(3) == 16777216; }
    BigEndianRoundTrip(4, length);
  }

  /**
   A frame read back from the front of a stream is the frame that was written, and
   what follows it is untouched, exactly when its payload respects the limit. Any
   larger payload, however large, is refused as oversized.
   */
  lemma FrameReadsBackIff(f: Frame, rest: seq<byte>)
    ensures ParseFrame(EncodeFrame(f) + rest) == Got(f, rest) <==> Fits(f)
    ensures !Fits(f) ==> ParseFrame(EncodeFrame(f) + rest) == Failed(Oversized)
  {
    HeaderParts(f, rest);
  }

  /** A frame cut anywhere after its kind byte is an error, never a shorter frame. */
  lemma CutFrameFails(f: Frame, k: nat)
    requires Fits(f) && k < |EncodeFrame(f)|
    ensures ParseFrame(EncodeFrame(f)[..k]) == if k == 0 then CleanEnd else Failed(Truncated)
  {
    HeaderParts(f, []);
    assert EncodeFrame(f) + [] == EncodeFrame(f);
    if k >= 5 { assert EncodeFrame(f)[..k][1..5] == EncodeFrame(f)[1..5]; }
  }

  /** What a parsed frame occupied on the wire is its own encoding. */
  lemma ParsedIsEncoded(s: seq<byte>)
    requires ParseFrame(s).Got?
    ensures Fits(ParseFrame(s).frame)
    ensures s == EncodeFrame(ParseFrame(s).frame) + ParseFrame(s).rest
    ensures |ParseFrame(s).rest| < |s|
  {
    var length := FromBigEndian(s[1..5]);
    FromBigEndianRoundTrip(s[1..5]);
    assert s == [s[0]] + s[1..5] + s[5..5 + length] + s[5 + length..];
  }

  // ------------------------------------------------------------ whole streams

  /** The frames of a stream up to its end, and how that end was reached. */
  datatype Stream = Stream(frames: seq<Frame>, end: Parsed)

  function ParseAll(s: seq<byte>): Stream
    decreases |s|
  {
    var p := ParseFrame(s);
    match p
    case Got(f, rest) =>
      ParsedIsEncoded(s);
      var tail := ParseAll(rest);
      Stream([f] + tail.frames, tail.end)
    case _ => Stream([], p)
  }

  function EncodeAll(fs: seq<Frame>): seq<byte> {
    if fs == [] then [] else EncodeFrame(fs[0]) + EncodeAll(fs[1..])
  }

  ghost predicate AllFit(fs: seq<Frame>) {
    forall i :: 0 <= i < |fs| ==> Fits(fs[i])
  }

  /** Every list of frames within the limit survives the wire exactly. */
  lemma {:induction false} StreamReadsBack(fs: seq<Frame>)
    requires AllFit(fs)
    ensures ParseAll(EncodeAll(fs)) == Stream(fs, CleanEnd)
  {
    if fs != [] {
      FrameReadsBackIff(fs[0], EncodeAll(fs[1..]));
      StreamReadsBack(fs[1..]);
      assert fs == [fs[0]] + fs[1..];
    }
  }

  lemma LeadingFrame(f: Frame, rest: seq<byte>)
    requires Fits(f)
    ensures ParseAll(EncodeFrame(f) + rest) == Stream([f] + ParseAll(rest).frames, ParseAll(rest).end)
  {
    FrameReadsBackIff(f, rest);
  }

  lemma CutFirstFrame(fs: seq<Frame>, k: nat)
    requires fs != [] && AllFit(fs) && k < |EncodeFrame(fs[0])|
    ensures k < |EncodeAll(fs[..1])|
    ensures ParseAll(EncodeAll(fs)[..k]) == Stream([], if k == 0 then CleanEnd else Failed(Truncated))
  {
    assert EncodeAll(fs)[..k] == EncodeFrame(fs[0])[..k];
    CutFrameFails(fs[0], k);
    assert fs[..1] == [fs[0]] && fs[..1][1..] == [];
  }

  /** The first `k` bytes of the encoded frames hold exactly the first `n` whole frames. */
  ghost predicate CutYields(fs: seq<Frame>, k: nat, n: nat) {
    && k <= |EncodeAll(fs)| && n <= |fs|
    && |EncodeAll(fs[..n])| <= k
    && (n < |fs| ==> k < |EncodeAll(fs[..n + 1])|)
    && ParseAll(EncodeAll(fs)[..k])
       == Stream(fs[..n], if k == |EncodeAll(fs[..n])| then CleanEnd else Failed(Truncated))
  }

  lemma PrefixEncoding(fs: seq<Frame>, n: nat)
    requires 0 < n <= |fs|
    ensures EncodeAll(fs[..n]) == EncodeFrame(fs[0]) + EncodeAll(fs[1..][..n - 1])
  {
    assert fs[..n][1..] == fs[1..][..n - 1];
  }

  lemma CutAfterFirst(fs: seq<Frame>, k: nat, m: nat)
    requires fs != [] && AllFit(fs) && k >= |EncodeFrame(fs[0])|
    requires CutYields(fs[1..], k - |EncodeFrame(fs[0])|, m)
    ensures CutYields(fs, k, m + 1)
  {
    var head, tail := EncodeFrame(fs[0]), EncodeAll(fs[1..]);
    assert EncodeAll(fs)[..k] == head + tail[..k - |head|];
    LeadingFrame(fs[0], tail[..k - |head|]);
    PrefixEncoding(fs, m + 1);
    if m + 1 < |fs| { PrefixEncoding(fs, m + 2); }
    assert fs[..m + 1] == [fs[0]] + fs[1..][..m];
  }

  /**
   A stream cut after any number of bytes yields the frames that are whole before
   the cut and nothing else. The end is clean only when the cut falls between frames.
   */
  lemma {:induction false} CutStream(fs: seq<Frame>, k: nat) returns (n: nat)
    requires AllFit(fs) && k <= |EncodeAll(fs)|
    ensures CutYields(fs, k, n)
  {
    if fs == [] {
      n := 0;
    } else if k < |EncodeFrame(fs[0])| {
      n := 0;
      CutFirstFrame(fs, k);
    } else {
      var m := CutStream(fs[1..], k - |EncodeFrame(fs[0])|);
      CutAfterFirst(fs, k, m);
      n := m + 1;
    }
  }

  /**
   Whatever bytes a peer sends, the frames read from them are within the limit and
   their encoding is what was consumed. A clean end means the stream is exactly that
   encoding, so no two frame lists share a stream.
   */
  lemma {:induction false} ParseIsFaithful(s: seq<byte>)
    ensures var r := ParseAll(s);
      && AllFit(r.frames) && !r.end.Got? && EncodeAll(r.frames) <= s
      && (r.end == CleanEnd <==> EncodeAll(r.frames) == s)
    decreases |s|
  {
    var r := ParseAll(s);
    match ParseFrame(s)
    case Got(f, rest) =>
      ParsedIsEncoded(s);
      ParseIsFaithful(rest);
      assert r.frames[1..] == ParseAll(rest).frames;
      assert EncodeAll(r.frames) == EncodeFrame(f) + EncodeAll(ParseAll(rest).frames);
    case CleanEnd =>
    case Failed(_) =>
  }

  /** The read half of a connection: the bytes that have not been consumed yet. */
  class Reader {
    var remaining: seq<byte>

    constructor (bytes: seq<byte>)
      ensures remaining == bytes
    {
      remaining := bytes;
    }

    /** Takes `n` bytes, or fails at the end of the stream having taken what there was. */
    method ReadExact(n: nat) returns (r: Option<seq<byte>>)
      modifies this
      ensures n <= |old(remaining)| ==> r == Some(old(remaining)[..n]) && remaining == old(remaining)[n..]
      ensures n > |old(remaining)| ==> r == None && remaining == []
    {
      if n <= |remaining| {
        r := Some(remaining[..n]);
        remaining := remaining[n..];
      } else {
        r := None;
        remaining := [];
      }
    }

    method ReadFrame() returns (r: Parsed)
      modifies this
      ensures r == ParseFrame(old(remaining))
      ensures r.Got? ==> remaining == r.rest
    {
      var kind := ReadExact(1);
      if kind == None {
        return CleanEnd;
      }
      var header := ReadExact(4);
      if header == None {
        return Failed(Truncated);
      }
      assert header.value == old(remaining)[1..5];
      var length := FromBigEndian(header.value);
      // The bound is checked before anything is allocated for the payload.
      if length > MAX_FRAME_SIZE {
        return Failed(Oversized);
      }
      var payload := ReadExact(length);
      if payload == None {
        return Failed(Truncated);
      }
      r := Got(Frame(kind.value[0], payload.value), remaining);
    }

    /** Reads frames until the stream ends, as the connection's read loop does. */
    method ReadAll() returns (frames: seq<Frame>, end: Parsed)
      modifies this
      ensures Stream(frames, end) == ParseAll(old(remaining))
    {
      frames := [];
      ghost var start := remaining;
      while true
        invariant ParseAll(start)
               == Stream(frames + ParseAll(remaining).frames, ParseAll(remaining).end)
        decreases |remaining|
      {
        ghost var before := remaining;
        var p := ReadFrame();
        if !p.Got? {
          assert frames + [] == frames;
          return frames, p;
        }
        ParsedIsEncoded(before);
        assert frames + ([p.frame] + ParseAll(remaining).frames)
            == (frames + [p.frame]) + ParseAll(remaining).frames;
        frames := frames + [p.frame];
      }
    }
  }

  // ---------------------------------------------------------------- messages

  datatype MessageKind = TextMessage | Action

  datatype ContentType = TextContent | Binary

  datatype Message = Message(id: nat, ciphertext: seq<byte>, kind: MessageKind, content: ContentType)

  function FrameKindOf(kind: MessageKind, content: ContentType): byte {
    match (kind, content)
    case (TextMessage, TextContent) => FRAME_MESSAGE
    case (Action, _) => FRAME_ACTION
    case (TextMessage, Binary) => FRAME_BINARY
  }

  function MessageAttributesOf(kind: byte): Option<(MessageKind, ContentType)> {
    if kind == FRAME_MESSAGE then Some((TextMessage, TextContent))
    else if kind == FRAME_ACTION then Some((Action, TextContent))
    else if kind == FRAME_BINARY then Some((TextMessage, Binary))
    else None
  }

  function EncodeMessage(m: Message): Frame {
    Frame(FrameKindOf(m.kind, m.content), BigEndian(8, m.id) + m.ciphertext)
  }

  function DecodeMessageId(payload: seq<byte>): Option<nat> {
    if |payload| < MESSAGE_ID_LEN then None else Some(FromBigEndian(payload[..MESSAGE_ID_LEN]))
  }

  /** The message a received frame carries, if it is a message frame with an id. */
  function DecodeMessage(f: Frame): Option<Message> {
    match (MessageAttributesOf(f.kind), DecodeMessageId(f.payload))
    case (Some(a), Some(id)) => Some(Message(id, f.payload[MESSAGE_ID_LEN..], a.0, a.1))
    case _ => None
  }

  ghost predicate IsU64(n: nat) {
    n < Pow256(8)
  }

  /**
   A message is received with its id, kind, content type and ciphertext intact unless
   it is the action/binary pair, which arrives as a text action.
   */
  lemma MessageSurvivesIff(m: Message)
    requires IsU64(m.id)
    ensures DecodeMessage(EncodeMessage(m)) == Some(m) <==> !(m.kind == Action && m.content == Binary)
    ensures DecodeMessage(EncodeMessage(m)).Some?
    ensures DecodeMessage(EncodeMessage(m)).value.id == m.id
    ensures DecodeMessage(EncodeMessage(m)).value.ciphertext == m.ciphertext
  {
    var payload := EncodeMessage(m).payload;
    assert payload[..8] == BigEndian(8, m.id) && payload[8..] == m.ciphertext;
    BigEndianRoundTrip(8, m.id);
  }

  /**
   End to end: a message put on the wire in front of any other bytes is read and
   decoded to itself exactly when its ciphertext leaves room for the id within the
   frame limit and it is not an action with binary content.
   */
  lemma MessageCrossesTheWireIff(m: Message, rest: seq<byte>)
    requires IsU64(m.id)
    ensures (var p := ParseFrame(EncodeFrame(EncodeMessage(m)) + rest);
             p.Got? && p.rest == rest && DecodeMessage(p.frame) == Some(m))
       <==> |m.ciphertext| <= MAX_FRAME_SIZE - MESSAGE_ID_LEN && !(m.kind == Action && m.content == Binary)
  {
    FrameReadsBackIff(EncodeMessage(m), rest);
    MessageSurvivesIff(m);
  }
}
