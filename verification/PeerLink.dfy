/**
 One TCP connection between two instances: the greeting, the choice of key for a
 directed message, the outbox flush, and the receiver's ladder of candidate keys.

 Each end keeps the frames it has queued and its peer has not read yet, so the two
 queues are the two FIFO directions of the connection. A run interleaves the steps of
 both ends in any order. The fields below `nextId` are history: they record what was
 handed to the connection and what came out of it, and no step reads them.
 */
module PeerLink {
  import opened Wrappers
  import opened Text
  import opened Keys
  import Framing
  import Outbox

  const MAX_NICKNAME_LEN: nat := 64

  datatype LinkFrame =
    | Hello(nickname: string)
    | Identity(text: string)
    | Ephemeral(text: string)
    | Message(id: nat, ciphertext: seq<byte>)
    | Ack(acked: nat)
    | Keepalive

  /** What an end has learned about its peer on this connection. */
  datatype Peer = Peer(
    nickname: Option<string>,
    identity: Option<string>,
    remoteEphemeral: Option<string>,
    keepaliveSeen: bool)

  const BLANK: Peer := Peer(None, None, None, false)

  datatype Note = Note(id: nat, plaintext: seq<byte>)

  /** A message kept for an absent nickname. The note is history. */
  datatype Buffered = Buffered(ciphertext: seq<byte>, note: Note)

  datatype End = End(
    own: Option<KeyPair>,
    nickname: string,
    ephemeral: KeyPair,
    registered: bool,
    peer: Peer,
    out: seq<LinkFrame>,
    outbox: map<string, seq<Buffered>>,
    nextId: nat,
    sent: seq<Note>,
    received: seq<Note>,
    failures: nat,
    confirmed: seq<nat>)

  // ---------------------------------------------------------------- the steps

  predicate IsControl(c: char) {
    (c as int) < 0x20 || 0x7F <= c as int <= 0x9F
  }

  /** The nickname rule: 1 to 64 characters once trimmed, and no control character. */
  function PeerLabel(announced: string): Option<string> {
    var name := Trim(announced);
    if name == "" || |name| > MAX_NICKNAME_LEN || exists i :: 0 <= i < |name| && IsControl(name[i])
    then None else Some(name)
  }

  function IdentityText(own: Option<KeyPair>): string {
    if own.Some? then PublicHex(own.value.public) else ""
  }

  /** Inserts the peer and queues the three greeting frames. */
  function Register(e: End): End {
    e.(registered := true,
       peer := BLANK,
       out := e.out + [Hello(e.nickname), Identity(IdentityText(e.own)), Ephemeral(PublicHex(e.ephemeral.public))])
  }

  function SetIdentity(e: End, own: KeyPair): End {
    e.(own := Some(own), out := if e.registered then e.out + [Identity(PublicHex(own.public))] else e.out)
  }

  function SetNickname(e: End, nickname: string): End {
    e.(nickname := nickname, out := if e.registered then e.out + [Hello(nickname)] else e.out)
  }

  predicate IsAddressed(e: End, wanted: string) {
    e.registered && e.peer.nickname.Some? && ToAsciiLower(e.peer.nickname.value) == wanted
  }

  /** The pair's keys as one end sees them, narrowest first; none without both identities. */
  function CandidateKeys(c: Crypto, own: Option<KeyPair>, ephemeral: KeyPair, peer: Peer): seq<Key> {
    if own.None? || peer.identity.None? then []
    else PairKeys(c.p, c.session, own.value, ephemeral, peer.identity.value, peer.remoteEphemeral)
  }

  /** The key a directed message is sealed under: the narrowest candidate, else the session key. */
  function SealingKey(c: Crypto, e: End, wanted: string): Key {
    var keys := if IsAddressed(e, wanted) then CandidateKeys(c, e.own, e.ephemeral, e.peer) else [];
    if keys == [] then c.session else keys[0]
  }

  /** Hands a message to the connection's queue; a full queue sheds it. */
  function Transmit(e: End, ciphertext: seq<byte>, plaintext: seq<byte>, room: bool): End {
    if room then
      e.(nextId := e.nextId + 1,
         out := e.out + [Message(e.nextId, ciphertext)],
         sent := e.sent + [Note(e.nextId, plaintext)])
    else e.(nextId := e.nextId + 1)
  }

  function Buffer(e: End, wanted: string, ciphertext: seq<byte>, plaintext: seq<byte>): End {
    var queue := if wanted in e.outbox then e.outbox[wanted] else [];
    if |queue| >= Outbox.OUTBOX_CAPACITY then e.(nextId := e.nextId + 1)
    else e.(nextId := e.nextId + 1,
            outbox := e.outbox[wanted := queue + [Buffered(ciphertext, Note(e.nextId, plaintext))]])
  }

  function SendToPeer(c: Crypto, e: End, name: string, plaintext: seq<byte>, nonce: seq<byte>, room: bool): End {
    var wanted := ToAsciiLower(Trim(name));
    var ciphertext := c.EncryptWith(SealingKey(c, e, wanted), nonce, plaintext);
    if wanted == "" then e
    else if IsAddressed(e, wanted) then Transmit(e, ciphertext, plaintext, room)
    else Buffer(e, wanted, ciphertext, plaintext)
  }

  function Broadcast(c: Crypto, e: End, plaintext: seq<byte>, nonce: seq<byte>, room: bool): End {
    Transmit(e, c.EncryptWith(c.session, nonce, plaintext), plaintext, e.registered && room)
  }

  /** A keepalive goes to a peer that has greeted; a full queue sheds it. */
  function Probe(e: End, room: bool): End {
    if e.registered && e.peer.nickname.Some? && room then e.(out := e.out + [Keepalive]) else e
  }

  function MessageFrames(entries: seq<Buffered>): seq<LinkFrame> {
    seq(|entries|, i requires 0 <= i < |entries| => Message(entries[i].note.id, entries[i].ciphertext))
  }

  function Notes(entries: seq<Buffered>): seq<Note> {
    seq(|entries|, i requires 0 <= i < |entries| => entries[i].note)
  }

  /** Sends what was buffered for a name until the connection's queue refuses a frame. */
  function Flush(e: End, key: string, room: nat): End {
    if key !in e.outbox then e
    else
      var entries := e.outbox[key];
      var k := if room < |entries| then room else |entries|;
      e.(out := e.out + MessageFrames(entries[..k]),
         sent := e.sent + Notes(entries[..k]),
         outbox := if k < |entries| then e.outbox[key := entries[k..]] else e.outbox - {key})
  }

  /** A buffered message outlives its time to live and is dropped. */
  function Expire(e: End, key: string, i: nat): End {
    if key in e.outbox && i < |e.outbox[key]|
    then e.(outbox := e.outbox[key := e.outbox[key][..i] + e.outbox[key][i + 1..]])
    else e
  }

  /** What an announcement teaches; only the first usable ephemeral of a connection counts. */
  function Learn(peer: Peer, f: LinkFrame): Peer {
    match f
    case Hello(text) =>
      if PeerLabel(text).Some? then peer.(nickname := PeerLabel(text)) else peer
    case Identity(text) =>
      peer.(identity := if Trim(text) == "" then None else Some(Trim(text)))
    case Ephemeral(text) =>
      if peer.remoteEphemeral.Some? then peer
      else
        var parsed := PublicKeyFromHex(Trim(text));
        peer.(remoteEphemeral := if parsed.Some? then Some(PublicHex(parsed.value)) else None)
    case Keepalive => peer.(keepaliveSeen := true)
    case Message(_, _) => peer
    case Ack(_) => peer
  }

  /** Handles one inbound frame. `room` bounds what the outgoing queue still takes. */
  function Dispatch(c: Crypto, e: End, f: LinkFrame, room: nat): End {
    match f
    case Hello(text) =>
      var greeted := e.(peer := Learn(e.peer, f));
      if PeerLabel(text).Some? then Flush(greeted, ToAsciiLower(PeerLabel(text).value), room) else greeted
    case Identity(_) => e.(peer := Learn(e.peer, f))
    case Ephemeral(_) => e.(peer := Learn(e.peer, f))
    case Keepalive => e.(peer := Learn(e.peer, f))
    case Message(id, ciphertext) =>
      (match c.TryKeys(CandidateKeys(c, e.own, e.ephemeral, e.peer), ciphertext)
       case Some(plaintext) =>
         e.(received := e.received + [Note(id, plaintext)],
            out := if room > 0 then e.out + [Ack(id)] else e.out)
       case None => e.(failures := e.failures + 1))
    case Ack(id) => e.(confirmed := e.confirmed + [id])
  }

  // ------------------------------------------------------------------ the wire

  /** How many payload bytes a queued frame is written with. */
  function PayloadSize(c: Crypto, f: LinkFrame): nat {
    match f
    case Hello(text) => |c.p.utf8(text)|
    case Identity(text) => |c.p.utf8(text)|
    case Ephemeral(text) => |c.p.utf8(text)|
    case Message(_, ciphertext) => Framing.MESSAGE_ID_LEN + |ciphertext|
    case Ack(_) => Framing.MESSAGE_ID_LEN
    case Keepalive => 0
  }

  /** Whether the peer's frame reader takes the frame; it ends the connection otherwise. */
  predicate Readable(c: Crypto, f: LinkFrame) {
    PayloadSize(c, f) <= Framing.MAX_FRAME_SIZE
  }

  // ------------------------------------------------------------------ the runs

  datatype Event =
    | Registers
    | SetsIdentity(secret: Key)
    | SetsNickname(nickname: string)
    | Sends(name: string, plaintext: seq<byte>, nonce: seq<byte>, room: bool)
    | Broadcasts(plaintext: seq<byte>, nonce: seq<byte>, room: bool)
    | Probes(room: bool)
    | Expires(key: string, index: nat)
    | Delivers(outRoom: nat)

  /** The end that acts, and its peer. */
  datatype Link = Link(x: End, y: End) {
    function Swap(): Link {
      Link(y, x)
    }
  }

  /**
   When the left end may take a step. The stream has one greeting per connection, and
   reading needs a registered connection with a frame waiting that the frame reader takes.
   */
  ghost predicate Enabled(c: Crypto, l: Link, ev: Event) {
    match ev
    case Registers => !l.x.registered
    case SetsIdentity(_) => true
    case SetsNickname(_) => true
    case Sends(_, _, nonce, _) => |nonce| == NONCE_LENGTH
    case Broadcasts(_, nonce, _) => |nonce| == NONCE_LENGTH
    case Probes(_) => true
    case Expires(_, _) => true
    case Delivers(_) => l.x.registered && l.y.out != [] && Readable(c, l.y.out[0])
  }

  /** The effect of one step of the left end; only delivery touches the peer's queue. */
  function Apply(c: Crypto, l: Link, ev: Event): Link {
    match ev
    case Registers => l.(x := Register(l.x))
    case SetsIdentity(secret) => l.(x := SetIdentity(l.x, FromSecret(c.p, secret)))
    case SetsNickname(nickname) => l.(x := SetNickname(l.x, nickname))
    case Sends(name, plaintext, nonce, room) => l.(x := SendToPeer(c, l.x, name, plaintext, nonce, room))
    case Broadcasts(plaintext, nonce, room) => l.(x := Broadcast(c, l.x, plaintext, nonce, room))
    case Probes(room) => l.(x := Probe(l.x, room))
    case Expires(key, index) => l.(x := Expire(l.x, key, index))
    case Delivers(room) =>
      if l.y.out == [] then l
      else Link(Dispatch(c, l.x, l.y.out[0], room), l.y.(out := l.y.out[1..]))
  }

  datatype Turn = Turn(left: bool, event: Event)

  function TurnOf(l: Link, t: Turn): Link {
    if t.left then l else l.Swap()
  }

  function Next(c: Crypto, l: Link, t: Turn): Link {
    if t.left then Apply(c, l, t.event) else Apply(c, l.Swap(), t.event).Swap()
  }

  ghost predicate ValidRun(c: Crypto, l: Link, run: seq<Turn>)
    decreases |run|
  {
    run != [] ==> Enabled(c, TurnOf(l, run[0]), run[0].event) && ValidRun(c, Next(c, l, run[0]), run[1..])
  }

  function After(c: Crypto, l: Link, run: seq<Turn>): Link
    decreases |run|
  {
    if run == [] then l else After(c, Next(c, l, run[0]), run[1..])
  }

  lemma {:induction false} RunsJoin(c: Crypto, l: Link, a: seq<Turn>, b: seq<Turn>)
    requires ValidRun(c, l, a) && ValidRun(c, After(c, l, a), b)
    ensures ValidRun(c, l, a + b) && After(c, l, a + b) == After(c, After(c, l, a), b)
    decreases |a|
  {
    if a == [] {
      assert a + b == b;
    } else {
      assert (a + b)[1..] == a[1..] + b;
      RunsJoin(c, Next(c, l, a[0]), a[1..], b);
    }
  }

  /** Everything kept for absent names was sealed under the session key. */
  ghost predicate OutboxSealed(c: Crypto, e: End) {
    forall key, i | key in e.outbox && 0 <= i < |e.outbox[key]| ::
      SealedUnder(c, c.session, e.outbox[key][i].ciphertext, e.outbox[key][i].note.plaintext)
  }

  ghost predicate SealedUnder(c: Crypto, key: Key, ciphertext: seq<byte>, plaintext: seq<byte>) {
    exists nonce: seq<byte> ::
      |nonce| == NONCE_LENGTH && ciphertext == c.EncryptWith(key, nonce, plaintext)
  }

  ghost predicate WellFormed(c: Crypto, e: End) {
    && e.ephemeral == FromSecret(c.p, e.ephemeral.secret)
    && (e.own.Some? ==> e.own.value == FromSecret(c.p, e.own.value.secret))
    && OutboxSealed(c, e)
  }

  /** A new connection: nothing registered, queued or learned; the outboxes may hold anything. */
  ghost predicate Initial(c: Crypto, l: Link) {
    Fresh(c, l.x) && Fresh(c, l.y)
  }

  ghost predicate Fresh(c: Crypto, e: End) {
    && WellFormed(c, e) && !e.registered && e.peer == BLANK
    && e.out == [] && e.sent == [] && e.received == [] && e.failures == 0 && e.confirmed == []
  }

  // ------------------------------------------------------- what a peer knows

  /** What is known about the sender is what the sender really has. */
  ghost predicate Truthful(view: Peer, s: End) {
    && (view.identity.Some? ==> s.own.Some? && view.identity.value == PublicHex(s.own.value.public))
    && (view.remoteEphemeral.Some? ==> view.remoteEphemeral.value == PublicHex(s.ephemeral.public))
  }

  /** The receiver knows everything a registered sender has announced. */
  ghost predicate Complete(view: Peer, s: End) {
    s.registered ==>
      && view.identity == (if s.own.Some? then Some(PublicHex(s.own.value.public)) else None)
      && view.remoteEphemeral == Some(PublicHex(s.ephemeral.public))
      && (PeerLabel(s.nickname).Some? ==> view.nickname == PeerLabel(s.nickname))
  }

  /** The view after every announcement among `frames`. */
  function ViewAfter(view: Peer, frames: seq<LinkFrame>): Peer
    decreases |frames|
  {
    if frames == [] then view else ViewAfter(Learn(view, frames[0]), frames[1..])
  }

  function MessagesIn(frames: seq<LinkFrame>): nat
    decreases |frames|
  {
    if frames == [] then 0 else (if frames[0].Message? then 1 else 0) + MessagesIn(frames[1..])
  }

  /** The part of `Dispatch` that concerns the frame itself, before anything is queued. */
  function Absorb(c: Crypto, e: End, f: LinkFrame): End {
    match f
    case Message(id, ciphertext) =>
      (match c.TryKeys(CandidateKeys(c, e.own, e.ephemeral, e.peer), ciphertext)
       case Some(plaintext) => e.(received := e.received + [Note(id, plaintext)])
       case None => e.(failures := e.failures + 1))
    case Ack(id) => e.(confirmed := e.confirmed + [id])
    case _ => e.(peer := Learn(e.peer, f))
  }

  // ------------------------------------------------------------ the key ladder

  /** Whatever key the sender picks, the receiver holds it once it has read that far. */
  lemma SealingKeyIsHeld(c: Crypto, s: End, r: End, view: Peer, wanted: string)
    requires Commutes(c.p) && WellFormed(c, s) && WellFormed(c, r)
    requires s.own.Some? && r.own.Some? ==> s.own.value.public != r.own.value.public
    requires s.registered && Truthful(s.peer, r) && Complete(view, s)
    ensures SealingKey(c, s, wanted) == c.session
         || SealingKey(c, s, wanted) in CandidateKeys(c, r.own, r.ephemeral, view)
  {
    var keys := CandidateKeys(c, s.own, s.ephemeral, s.peer);
    if IsAddressed(s, wanted) && keys != [] {
      var (a, b) := (s.own.value, r.own.value);
      PublicHexReadsBack(a.public);
      PublicHexReadsBack(b.public);
      PublicHexReadsBack(s.ephemeral.public);
      PublicHexReadsBack(r.ephemeral.public);
      PairKeyIsShared(c.p, c.session, a.secret, s.ephemeral.secret, b.secret, r.ephemeral.secret);
      ContactKeyIsSymmetric(c.p, c.session, PublicHex(a.public), PublicHex(b.public));
      LadderShape(c, a, s.ephemeral, b.public, s.peer);
      LadderShape(c, b, r.ephemeral, a.public, view);
    }
  }

  /** The candidates one end holds for a peer whose identity it knows. */
  lemma LadderShape(c: Crypto, own: KeyPair, ephemeral: KeyPair, peerStatic: Key, peer: Peer)
    requires peer.identity == Some(PublicHex(peerStatic))
    ensures var keys := CandidateKeys(c, Some(own), ephemeral, peer);
      && ContactKey(c.p, c.session, PublicHex(own.public), PublicHex(peerStatic)).Some?
      && ContactKey(c.p, c.session, PublicHex(own.public), PublicHex(peerStatic)).value in keys
      && (peer.remoteEphemeral == None ==>
            keys == [ContactKey(c.p, c.session, PublicHex(own.public), PublicHex(peerStatic)).value])
      && (forall k: Key | peer.remoteEphemeral == Some(PublicHex(k)) ::
            keys[0] == PairKey(c.p, c.session, own, ephemeral, peerStatic, k))
  {
    PublicHexReadsBack(own.public);
    PublicHexReadsBack(peerStatic);
    forall k: Key | peer.remoteEphemeral == Some(PublicHex(k))
      ensures CandidateKeys(c, Some(own), ephemeral, peer)[0]
           == PairKey(c.p, c.session, own, ephemeral, peerStatic, k)
    {
      PublicHexReadsBack(k);
    }
  }
}
