/**
 The mutable end of a connection: the fields the transport updates in place, with each
 method tied to the step of the protocol it performs.
 */
module Endpoints {
  import opened Wrappers
  import opened Text
  import opened Keys
  import opened PeerLink
  import Outbox

  class Endpoint {
    const ephemeral: KeyPair
    var own: Option<KeyPair>
    var nickname: string
    var registered: bool
    var peerNickname: Option<string>
    var peerIdentity: Option<string>
    var peerEphemeral: Option<string>
    var keepaliveSeen: bool
    var out: seq<LinkFrame>
    var outbox: map<string, seq<Buffered>>
    var nextId: nat
    ghost var sent: seq<Note>
    ghost var received: seq<Note>
    ghost var failures: nat
    ghost var confirmed: seq<nat>

    ghost function State(): End
      reads this
    {
      End(own, nickname, ephemeral, registered, Peer(peerNickname, peerIdentity, peerEphemeral, keepaliveSeen),
          out, outbox, nextId, sent, received, failures, confirmed)
    }

    constructor (nickname: string, ephemeral: KeyPair)
      ensures State() == End(None, nickname, ephemeral, false, BLANK, [], map[], 1, [], [], 0, [])
    {
      this.ephemeral, this.nickname := ephemeral, nickname;
      own, registered := None, false;
      peerNickname, peerIdentity, peerEphemeral, keepaliveSeen := None, None, None, false;
      out, outbox, nextId := [], map[], 1;
      sent, received, failures, confirmed := [], [], 0, [];
    }

    method InsertPeer()
      modifies this`registered, this`peerNickname, this`peerIdentity, this`peerEphemeral, this`keepaliveSeen
      ensures State() == old(State()).(registered := true, peer := BLANK)
    {
      registered := true;
      peerNickname, peerIdentity, peerEphemeral, keepaliveSeen := None, None, None, false;
    }

    method Greet()
      modifies this`out
      ensures State() == old(State()).(out := old(out)
        + [Hello(nickname), Identity(IdentityText(own)), Ephemeral(PublicHex(ephemeral.public))])
    {
      var greeting := [Hello(nickname)];
      greeting := greeting + [Identity(IdentityText(own))];
      greeting := greeting + [Ephemeral(PublicHex(ephemeral.public))];
      out := out + greeting;
    }

    method Register()
      modifies this
      ensures State() == PeerLink.Register(old(State()))
    {
      InsertPeer();
      Greet();
    }

    method SetIdentity(identity: KeyPair)
      modifies this
      ensures State() == PeerLink.SetIdentity(old(State()), identity)
    {
      own := Some(identity);
      if registered {
        out := out + [Identity(PublicHex(identity.public))];
      }
    }

    method SetNickname(name: string)
      modifies this
      ensures State() == PeerLink.SetNickname(old(State()), name)
    {
      nickname := name;
      if registered {
        out := out + [Hello(name)];
      }
    }

    /** The key for a directed message; `None` means the session key. */
    method ContactKeyFor(c: Crypto, name: string) returns (key: Option<Key>)
      ensures SealingKey(c, State(), ToAsciiLower(Trim(name))) == if key.Some? then key.value else c.session
      ensures key.Some? <==> IsAddressed(State(), ToAsciiLower(Trim(name)))
                             && CandidateKeys(c, own, ephemeral, State().peer) != []
    {
      var wanted := ToAsciiLower(Trim(name));
      if !registered || peerNickname.None? || ToAsciiLower(peerNickname.value) != wanted {
        return None;
      }
      if own.None? || peerIdentity.None? {
        return None;
      }
      var keys := PairKeys(c.p, c.session, own.value, ephemeral, peerIdentity.value, peerEphemeral);
      key := if keys == [] then None else Some(keys[0]);
    }

    method Transmit(ciphertext: seq<byte>, plaintext: seq<byte>, room: bool)
      modifies this`nextId, this`out, this`sent
      ensures State() == PeerLink.Transmit(old(State()), ciphertext, plaintext, room)
    {
      var id := nextId;
      nextId := nextId + 1;
      if room {
        out := out + [Message(id, ciphertext)];
        sent := sent + [Note(id, plaintext)];
      }
    }

    method Buffer(wanted: string, ciphertext: seq<byte>, plaintext: seq<byte>)
      modifies this`nextId, this`outbox
      ensures State() == PeerLink.Buffer(old(State()), wanted, ciphertext, plaintext)
    {
      var id := nextId;
      nextId := nextId + 1;
      var queue := if wanted in outbox then outbox[wanted] else [];
      if |queue| < Outbox.OUTBOX_CAPACITY {
        outbox := outbox[wanted := queue + [Buffered(ciphertext, Note(id, plaintext))]];
      }
    }

    method SendToPeer(c: Crypto, name: string, plaintext: seq<byte>, nonce: seq<byte>, room: bool)
      modifies this
      ensures State() == PeerLink.SendToPeer(c, old(State()), name, plaintext, nonce, room)
    {
      var key := ContactKeyFor(c, name);
      var ciphertext := c.EncryptWith(if key.Some? then key.value else c.session, nonce, plaintext);
      var wanted := ToAsciiLower(Trim(name));
      if wanted == "" {
        return;
      }
      if registered && peerNickname.Some? && ToAsciiLower(peerNickname.value) == wanted {
        Transmit(ciphertext, plaintext, room);
      } else {
        Buffer(wanted, ciphertext, plaintext);
      }
    }

    method AcceptIdentity(text: string)
      modifies this`peerIdentity
      ensures State() == old(State()).(peer := Learn(old(State()).peer, Identity(text)))
    {
      var identity := Trim(text);
      peerIdentity := if identity == "" then None else Some(identity);
    }

    method AcceptEphemeral(text: string)
      modifies this`peerEphemeral
      ensures State() == old(State()).(peer := Learn(old(State()).peer, Ephemeral(text)))
    {
      var parsed := PublicKeyFromHex(Trim(text));
      // A second announcement would re-key a connection the peer still uses the first key on.
      if peerEphemeral.None? && parsed.Some? {
        peerEphemeral := Some(PublicHex(parsed.value));
      }
    }

    method Post(entry: Buffered)
      modifies this`out, this`sent
      ensures State() == old(State()).(out := old(out) + [Message(entry.note.id, entry.ciphertext)],
                                       sent := old(sent) + [entry.note])
    {
      out := out + [Message(entry.note.id, entry.ciphertext)];
      sent := sent + [entry.note];
    }

    /** Sends entries until the queue refuses one; returns how many went. */
    method PostWhileRoom(entries: seq<Buffered>, room: nat) returns (i: nat)
      modifies this`out, this`sent
      ensures i == if room < |entries| then room else |entries|
      ensures State() == old(State()).(out := old(out) + MessageFrames(entries[..i]),
                                       sent := old(sent) + Notes(entries[..i]))
    {
      i := 0;
      while i < |entries| && i < room
        invariant i <= |entries| && i <= room
        invariant State() == old(State()).(out := old(out) + MessageFrames(entries[..i]),
                                           sent := old(sent) + Notes(entries[..i]))
      {
        assert MessageFrames(entries[..i + 1])
            == MessageFrames(entries[..i]) + [Message(entries[i].note.id, entries[i].ciphertext)];
        assert Notes(entries[..i + 1]) == Notes(entries[..i]) + [entries[i].note];
        Post(entries[i]);
        i := i + 1;
      }
    }

    method FlushOutbox(key: string, room: nat)
      modifies this
      ensures State() == Flush(old(State()), key, room)
    {
      if key !in outbox {
        return;
      }
      var entries := outbox[key];
      outbox := outbox - {key};
      var i := PostWhileRoom(entries, room);
      if i < |entries| {
        outbox := outbox[key := entries[i..]];
        assert outbox == old(outbox)[key := entries[i..]];
      }
    }

    /** Queues a keepalive for a peer that has greeted. */
    method SendKeepalive(room: bool)
      modifies this
      ensures State() == Probe(old(State()), room)
    {
      if registered && peerNickname.Some? && room {
        out := out + [Keepalive];
      }
    }

    /** The candidate keys for what this peer sends. */
    method Candidates(c: Crypto) returns (keys: seq<Key>)
      ensures keys == CandidateKeys(c, own, ephemeral, State().peer)
    {
      keys := [];
      if own.Some? && peerIdentity.Some? {
        keys := PairKeys(c.p, c.session, own.value, ephemeral, peerIdentity.value, peerEphemeral);
      }
    }

    method Refuse()
      modifies this`failures
      ensures State() == old(State()).(failures := old(failures) + 1)
    {
      failures := failures + 1;
    }

    method Accept(note: Note, room: nat)
      modifies this`received, this`out
      ensures State() == old(State()).(received := old(received) + [note],
                                       out := if room > 0 then old(out) + [Ack(note.id)] else old(out))
    {
      received := received + [note];
      if room > 0 {
        out := out + [Ack(note.id)];
      }
    }

    method ReceiveMessage(c: Crypto, id: nat, ciphertext: seq<byte>, room: nat)
      modifies this
      ensures State() == PeerLink.Dispatch(c, old(State()), Message(id, ciphertext), room)
    {
      var keys := Candidates(c);
      var plaintext := c.DecryptFrom(keys, ciphertext);
      if plaintext.None? {
        Refuse();
      } else {
        Accept(Note(id, plaintext.value), room);
      }
    }

    method ReceiveHello(c: Crypto, text: string, room: nat)
      modifies this
      ensures State() == PeerLink.Dispatch(c, old(State()), Hello(text), room)
    {
      var name := PeerLabel(text);
      if name.None? {
        return;
      }
      peerNickname := name;
      FlushOutbox(ToAsciiLower(name.value), room);
    }

    method Dispatch(c: Crypto, f: LinkFrame, room: nat)
      modifies this
      ensures State() == PeerLink.Dispatch(c, old(State()), f, room)
    {
      match f {
        case Hello(text) =>
          ReceiveHello(c, text, room);
        case Identity(text) =>
          AcceptIdentity(text);
        case Ephemeral(text) =>
          AcceptEphemeral(text);
        case Keepalive =>
          keepaliveSeen := true;
        case Message(id, ciphertext) =>
          ReceiveMessage(c, id, ciphertext, room);
        case Ack(id) =>
          confirmed := confirmed + [id];
      }
    }
  }
}
