/** Which frames of a connection the peer's frame reader takes, and runs in which it takes them all. */
module LinkSizes {
  import opened Wrappers
  import opened Text
  import opened Keys
  import opened PeerLink
  import Framing

  const MESSAGE_LIMIT: nat := Framing.MAX_FRAME_SIZE - Framing.MESSAGE_ID_LEN

  /** The frame a queued frame is written as. */
  function WireFrame(c: Crypto, f: LinkFrame): Framing.Frame {
    match f
    case Hello(text) => Framing.Frame(Framing.FRAME_HELLO, c.p.utf8(text))
    case Identity(text) => Framing.Frame(Framing.FRAME_IDENTITY, c.p.utf8(text))
    case Ephemeral(text) => Framing.Frame(Framing.FRAME_EPHEMERAL, c.p.utf8(text))
    case Message(id, ciphertext) =>
      Framing.EncodeMessage(Framing.Message(id, ciphertext, Framing.TextMessage, Framing.TextContent))
    case Ack(id) => Framing.Frame(Framing.FRAME_ACK, Framing.BigEndian(Framing.MESSAGE_ID_LEN, id))
    case Keepalive => Framing.Frame(Framing.FRAME_KEEPALIVE, [])
  }

  /**
   A queued frame is read back from the front of the stream exactly when it is readable, and
   a message is exactly when its ciphertext leaves room for the id.
   */
  lemma ReadableIff(c: Crypto, f: LinkFrame, rest: seq<byte>)
    ensures Framing.ParseFrame(Framing.EncodeFrame(WireFrame(c, f)) + rest) == Framing.Got(WireFrame(c, f), rest)
       <==> Readable(c, f)
    ensures f.Message? ==> (Readable(c, f) <==> |f.ciphertext| <= MESSAGE_LIMIT)
  {
    Framing.FrameReadsBackIff(WireFrame(c, f), rest);
    assert |WireFrame(c, f).payload| == PayloadSize(c, f);
  }

  ghost predicate Utf8IsShort(p: Primitives) {
    forall s: string :: |p.utf8(s)| <= 4 * |s|
  }

  ghost predicate SmallEntries(entries: seq<Buffered>) {
    forall i :: 0 <= i < |entries| ==> |entries[i].ciphertext| <= MESSAGE_LIMIT
  }

  ghost predicate AllReadable(c: Crypto, frames: seq<LinkFrame>) {
    forall i :: 0 <= i < |frames| ==> Readable(c, frames[i])
  }

  /** Nothing an end has queued, buffered or will announce is larger than a frame may be. */
  ghost predicate Small(c: Crypto, e: End) {
    && AllReadable(c, e.out) && |c.p.utf8(e.nickname)| <= Framing.MAX_FRAME_SIZE
    && forall key :: key in e.outbox ==> SmallEntries(e.outbox[key])
  }

  /** What the caller of a step keeps within the limit: the nickname it sets, the message it sends. */
  ghost predicate SmallEvent(c: Crypto, l: Link, ev: Event) {
    match ev
    case SetsNickname(nickname) => |c.p.utf8(nickname)| <= Framing.MAX_FRAME_SIZE
    case Sends(name, plaintext, nonce, _) =>
      |c.EncryptWith(SealingKey(c, l.x, ToAsciiLower(Trim(name))), nonce, plaintext)| <= MESSAGE_LIMIT
    case Broadcasts(plaintext, nonce, _) => |c.EncryptWith(c.session, nonce, plaintext)| <= MESSAGE_LIMIT
    case _ => true
  }

  ghost predicate SmallRun(c: Crypto, l: Link, run: seq<Turn>)
    decreases |run|
  {
    run != [] ==> SmallEvent(c, TurnOf(l, run[0]), run[0].event) && SmallRun(c, Next(c, l, run[0]), run[1..])
  }

  lemma KeyTextIsReadable(c: Crypto, k: Key)
    requires Utf8IsShort(c.p)
    ensures Readable(c, Identity(PublicHex(k))) && Readable(c, Ephemeral(PublicHex(k))) && Readable(c, Identity(""))
  {
    assert |PublicHex(k)| == 2 * KEY_LENGTH;
    assert |c.p.utf8(PublicHex(k))| <= 4 * |PublicHex(k)| && |c.p.utf8("")| <= 0;
  }

  lemma DispatchStaysSmall(c: Crypto, e: End, f: LinkFrame, room: nat)
    requires Small(c, e)
    ensures Small(c, Dispatch(c, e, f, room))
  {
  }

  lemma SendStaysSmall(c: Crypto, e: End, name: string, plaintext: seq<byte>, nonce: seq<byte>, room: bool)
    requires Small(c, e)
    requires |c.EncryptWith(SealingKey(c, e, ToAsciiLower(Trim(name))), nonce, plaintext)| <= MESSAGE_LIMIT
    ensures Small(c, SendToPeer(c, e, name, plaintext, nonce, room))
  {
  }

  lemma StepStaysSmall(c: Crypto, l: Link, ev: Event)
    requires Utf8IsShort(c.p) && Small(c, l.x) && Small(c, l.y) && SmallEvent(c, l, ev)
    ensures Small(c, Apply(c, l, ev).x) && Small(c, Apply(c, l, ev).y)
  {
    match ev
    case Registers =>
      KeyTextIsReadable(c, l.x.ephemeral.public);
      if l.x.own.Some? { KeyTextIsReadable(c, l.x.own.value.public); }
    case SetsIdentity(secret) => KeyTextIsReadable(c, FromSecret(c.p, secret).public);
    case Sends(name, plaintext, nonce, room) => SendStaysSmall(c, l.x, name, plaintext, nonce, room);
    case Delivers(room) => if l.y.out != [] { DispatchStaysSmall(c, l.x, l.y.out[0], room); }
    case _ =>
  }

  /**
   In every run whose callers keep to the size limit, the frame reader takes every queued
   frame: reading goes on as long as a registered end has a frame waiting.
   */
  lemma {:induction false} SmallRunsNeverStall(c: Crypto, l: Link, run: seq<Turn>, room: nat)
    requires Utf8IsShort(c.p) && Small(c, l.x) && Small(c, l.y) && SmallRun(c, l, run)
    ensures var l' := After(c, l, run);
      && Small(c, l'.x) && Small(c, l'.y)
      && (Enabled(c, l', Delivers(room)) <==> l'.x.registered && l'.y.out != [])
    decreases |run|
  {
    if run != [] {
      StepStaysSmall(c, TurnOf(l, run[0]), run[0].event);
      SmallRunsNeverStall(c, Next(c, l, run[0]), run[1..], room);
    }
  }
}
