/** From one end's queue to what the other end takes in: the frames cross the wire, and what they teach. */
module LinkWire {
  import opened Wrappers
  import opened Text
  import opened Keys
  import opened PeerLink
  import opened LinkSizes
  import opened Addressing
  import Framing

  // ------------------------------------------------------------------- the wire

  /** How received bytes are read as text; what was encoded is read back. */
  ghost predicate ReadsTexts(c: Crypto, decode: seq<byte> -> string) {
    forall s: string :: decode(c.p.utf8(s)) == s
  }

  /** What a received frame is taken for; a kind that is not known is ignored. */
  function Received(decode: seq<byte> -> string, f: Framing.Frame): Option<LinkFrame> {
    if f.kind == 1 then Some(Hello(decode(f.payload)))
    else if f.kind == 6 then Some(Identity(decode(f.payload)))
    else if f.kind == 7 then Some(Ephemeral(decode(f.payload)))
    else if f.kind == 8 then Some(Keepalive)
    else if f.kind == 3 then
      match Framing.DecodeMessageId(f.payload)
      case Some(id) => Some(Ack(id))
      case None => None
    else
      match Framing.DecodeMessage(f)
      case Some(m) => Some(Message(m.id, m.ciphertext))
      case None => None
  }

  ghost predicate HasWireId(f: LinkFrame) {
    (f.Message? ==> Framing.IsU64(f.id)) && (f.Ack? ==> Framing.IsU64(f.acked))
  }

  /** Every frame an end queues is taken for what it is. */
  lemma FrameIsUnderstood(c: Crypto, decode: seq<byte> -> string, f: LinkFrame)
    requires ReadsTexts(c, decode) && HasWireId(f)
    ensures Received(decode, WireFrame(c, f)) == Some(f)
  {
    match f
    case Message(id, ciphertext) =>
      Framing.MessageSurvivesIff(Framing.Message(id, ciphertext, Framing.TextMessage, Framing.TextContent));
    case Ack(id) =>
      Framing.BigEndianRoundTrip(8, id);
      var payload := WireFrame(c, f).payload;
      assert payload[..8] == payload;
    case _ =>
  }

  function WireFrames(c: Crypto, queue: seq<LinkFrame>): (r: seq<Framing.Frame>)
    ensures |r| == |queue| && forall i :: 0 <= i < |r| ==> r[i] == WireFrame(c, queue[i])
  {
    seq(|queue|, i requires 0 <= i < |queue| => WireFrame(c, queue[i]))
  }

  /**
   Written out frame after frame, a queue is read back as the same frames, and each is taken for
   what it is: the connection of the model is the byte stream of the program.
   */
  lemma QueueCrossesTheWire(c: Crypto, decode: seq<byte> -> string, queue: seq<LinkFrame>)
    requires ReadsTexts(c, decode)
    requires forall i :: 0 <= i < |queue| ==> Readable(c, queue[i]) && HasWireId(queue[i])
    ensures var stream := Framing.ParseAll(Framing.EncodeAll(WireFrames(c, queue)));
      && stream.end == Framing.CleanEnd && |stream.frames| == |queue|
      && forall i :: 0 <= i < |queue| ==> Received(decode, stream.frames[i]) == Some(queue[i])
  {
    var frames := WireFrames(c, queue);
    forall i | 0 <= i < |queue| ensures Framing.Fits(frames[i]) && Received(decode, frames[i]) == Some(queue[i]) {
      assert |frames[i].payload| == PayloadSize(c, queue[i]);
      FrameIsUnderstood(c, decode, queue[i]);
    }
    Framing.StreamReadsBack(frames);
  }

  // ----------------------------------------------------------- what is learned

  predicate NamesPeer(f: LinkFrame) {
    f.Hello? && PeerLabel(f.nickname).Some?
  }

  predicate OffersKey(f: LinkFrame) {
    f.Ephemeral? && PublicKeyFromHex(f.text).Some?
  }

  /** The last greeting that may be printed gives the name. */
  ghost predicate NameTold(name: Option<string>, frames: seq<LinkFrame>) {
    match name
    case None => forall i :: 0 <= i < |frames| ==> !NamesPeer(frames[i])
    case Some(n) =>
      exists i :: 0 <= i < |frames| && NamesPeer(frames[i]) && n == Trim(frames[i].nickname)
                  && forall j :: i < j < |frames| ==> !NamesPeer(frames[j])
  }

  /** The last identity frame gives the identity; a blank one takes it back. */
  ghost predicate IdentityTold(identity: Option<string>, frames: seq<LinkFrame>) {
    || (identity == None && forall i :: 0 <= i < |frames| ==> !frames[i].Identity?)
    || exists i :: 0 <= i < |frames| && frames[i].Identity? && (forall j :: i < j < |frames| ==> !frames[j].Identity?)
                   && identity == if Trim(frames[i].text) == "" then None else Some(Trim(frames[i].text))
  }

  /** The first usable ephemeral gives the key of the connection, and no later one replaces it. */
  ghost predicate KeyTold(ephemeral: Option<string>, frames: seq<LinkFrame>) {
    match ephemeral
    case None => forall i :: 0 <= i < |frames| ==> !OffersKey(frames[i])
    case Some(text) =>
      exists i :: 0 <= i < |frames| && OffersKey(frames[i]) && (forall j :: 0 <= j < i ==> !OffersKey(frames[j]))
                  && text == PublicHex(PublicKeyFromHex(frames[i].text).value)
  }

  ghost predicate KeepaliveTold(seen: bool, frames: seq<LinkFrame>) {
    seen <==> exists i :: 0 <= i < |frames| && frames[i].Keepalive?
  }

  ghost predicate Told(view: Peer, frames: seq<LinkFrame>) {
    && NameTold(view.nickname, frames) && IdentityTold(view.identity, frames)
    && KeyTold(view.remoteEphemeral, frames) && KeepaliveTold(view.keepaliveSeen, frames)
  }

  lemma OneMoreName(view: Peer, frames: seq<LinkFrame>, f: LinkFrame)
    requires NameTold(view.nickname, frames)
    ensures NameTold(Learn(view, f).nickname, frames + [f])
  {
    var all := frames + [f];
    if NamesPeer(f) {
      GreetingIsAcceptedIff(f.nickname);
      assert all[|frames|] == f;
    } else if view.nickname.Some? {
      var i :| 0 <= i < |frames| && NamesPeer(frames[i]) && view.nickname.value == Trim(frames[i].nickname)
        && forall j :: i < j < |frames| ==> !NamesPeer(frames[j]);
      assert all[i] == frames[i];
    }
  }

  lemma OneMoreIdentity(view: Peer, frames: seq<LinkFrame>, f: LinkFrame)
    requires IdentityTold(view.identity, frames)
    ensures IdentityTold(Learn(view, f).identity, frames + [f])
  {
    var all := frames + [f];
    if f.Identity? {
      assert all[|frames|] == f;
    } else if exists i :: 0 <= i < |frames| && frames[i].Identity? {
      var i :| 0 <= i < |frames| && frames[i].Identity? && (forall j :: i < j < |frames| ==> !frames[j].Identity?)
        && view.identity == if Trim(frames[i].text) == "" then None else Some(Trim(frames[i].text));
      assert all[i] == frames[i];
    }
  }

  lemma TrimmedKey(text: string)
    ensures PublicKeyFromHex(Trim(text)) == PublicKeyFromHex(text)
  {
    TrimIdempotent(text);
  }

  lemma OneMoreKey(view: Peer, frames: seq<LinkFrame>, f: LinkFrame)
    requires KeyTold(view.remoteEphemeral, frames)
    ensures KeyTold(Learn(view, f).remoteEphemeral, frames + [f])
  {
    var all := frames + [f];
    if f.Ephemeral? { TrimmedKey(f.text); }
    match view.remoteEphemeral
    case None =>
      if OffersKey(f) { assert all[|frames|] == f; }
    case Some(text) =>
      var i :| 0 <= i < |frames| && OffersKey(frames[i]) && (forall j :: 0 <= j < i ==> !OffersKey(frames[j]))
        && text == PublicHex(PublicKeyFromHex(frames[i].text).value);
      assert all[i] == frames[i];
  }

  lemma OneMoreKeepalive(view: Peer, frames: seq<LinkFrame>, f: LinkFrame)
    requires KeepaliveTold(view.keepaliveSeen, frames)
    ensures KeepaliveTold(Learn(view, f).keepaliveSeen, frames + [f])
  {
    var all := frames + [f];
    assert all[|frames|] == f;
    if exists i :: 0 <= i < |frames| && frames[i].Keepalive? {
      var i :| 0 <= i < |frames| && frames[i].Keepalive?;
      assert all[i].Keepalive?;
    }
  }

  lemma {:induction false} ViewGrows(view: Peer, frames: seq<LinkFrame>, f: LinkFrame)
    ensures ViewAfter(view, frames + [f]) == Learn(ViewAfter(view, frames), f)
    decreases |frames|
  {
    if frames == [] {
      assert [] + [f] == [f] && [f][1..] == [];
    } else {
      assert (frames + [f])[1..] == frames[1..] + [f];
      ViewGrows(Learn(view, frames[0]), frames[1..], f);
    }
  }

  /**
   Whatever a peer sends, honest or not: it is called by its last greeting that may be printed,
   has the identity it announced last, the first usable ephemeral of the connection and no later
   one, and counts as probing exactly when it sent a keepalive.
   */
  lemma {:induction false} FramesTell(frames: seq<LinkFrame>)
    ensures Told(ViewAfter(BLANK, frames), frames)
    decreases |frames|
  {
    if frames != [] {
      var (init, f) := (frames[..|frames| - 1], frames[|frames| - 1]);
      assert frames == init + [f];
      FramesTell(init);
      var view := ViewAfter(BLANK, init);
      ViewGrows(BLANK, init, f);
      OneMoreName(view, init, f);
      OneMoreIdentity(view, init, f);
      OneMoreKey(view, init, f);
      OneMoreKeepalive(view, init, f);
    }
  }
}
