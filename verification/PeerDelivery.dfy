/**
 Which messages of a connection are read and which are lost, in every run: its ends send,
 announce, and replace their identities as often as they like and with any key.
 */
module PeerDelivery {
  import opened Wrappers
  import opened Text
  import opened Keys
  import opened PeerLink

  /** What a message was sealed for: every session, or the two identities its sender knew. */
  datatype Seal = ForSession | ForPair(from: string, to: string, key: Key)

  /** What a reader had when it read a message: its own identity and its candidate keys. */
  datatype Reading = Reading(own: Option<string>, keys: seq<Key>)

  function KeyOf(c: Crypto, seal: Seal): Key {
    match seal
    case ForSession => c.session
    case ForPair(_, _, key) => key
  }

  function SealFor(c: Crypto, e: End, wanted: string): Seal {
    if IsAddressed(e, wanted) && CandidateKeys(c, e.own, e.ephemeral, e.peer) != []
    then ForPair(PublicHex(e.own.value.public), e.peer.identity.value, SealingKey(c, e, wanted))
    else ForSession
  }

  /** The reader has the key of the message. */
  predicate Opens(c: Crypto, seal: Seal, reading: Reading) {
    !c.enabled || KeyOf(c, seal) == c.session || KeyOf(c, seal) in reading.keys
  }

  /** The reader still is who the message was sealed for, and that is not the sender's own identity. */
  predicate Meant(seal: Seal, reading: Reading) {
    seal.ForSession? || (reading.own == Some(seal.to) && seal.from != seal.to)
  }

  // ------------------------------------------------------------------ the runs

  /** A connection, how each end's messages were sealed, and what each end read messages with. */
  datatype Trace = Trace(link: Link, xSeals: seq<Seal>, ySeals: seq<Seal>, xReads: seq<Reading>, yReads: seq<Reading>) {
    function Swap(): Trace {
      Trace(link.Swap(), ySeals, xSeals, yReads, xReads)
    }
  }

  function Began(l: Link): Trace {
    Trace(l, [], [], [], [])
  }

  function SealOf(c: Crypto, e: End, ev: Event): Seal {
    if ev.Sends? then SealFor(c, e, ToAsciiLower(Trim(ev.name))) else ForSession
  }

  /** One seal for every message the step hands to the connection. */
  function NewSeals(e: End, e': End, seal: Seal): seq<Seal> {
    if |e.sent| <= |e'.sent| then seq(|e'.sent| - |e.sent|, _ => seal) else []
  }

  function ReadingOf(c: Crypto, e: End): Reading {
    Reading(if e.own.Some? then Some(PublicHex(e.own.value.public)) else None,
            CandidateKeys(c, e.own, e.ephemeral, e.peer))
  }

  function NewReads(c: Crypto, l: Link, ev: Event): seq<Reading> {
    if ev.Delivers? && l.y.out != [] && l.y.out[0].Message? then [ReadingOf(c, l.x)] else []
  }

  function Record(c: Crypto, t: Trace, ev: Event): Trace {
    var l' := Apply(c, t.link, ev);
    t.(link := l', xSeals := t.xSeals + NewSeals(t.link.x, l'.x, SealOf(c, t.link.x, ev)),
       xReads := t.xReads + NewReads(c, t.link, ev))
  }

  function TraceOf(t: Trace, turn: Turn): Trace {
    if turn.left then t else t.Swap()
  }

  function Onward(c: Crypto, t: Trace, turn: Turn): Trace {
    if turn.left then Record(c, t, turn.event) else Record(c, t.Swap(), turn.event).Swap()
  }

  function Traced(c: Crypto, t: Trace, run: seq<Turn>): Trace
    decreases |run|
  {
    if run == [] then t else Traced(c, Onward(c, t, run[0]), run[1..])
  }

  // ------------------------------------------------------------- the invariant

  /** Whoever has the identity the seal is for holds its key once it has `view`. */
  ghost predicate Fits(c: Crypto, ephemeral: KeyPair, view: Peer, seal: Seal) {
    seal.ForPair? && seal.from != seal.to ==>
      forall own: KeyPair | own == FromSecret(c.p, own.secret) && PublicHex(own.public) == seal.to ::
        HeldBy(c, own, ephemeral, view, seal.key)
  }

  predicate HeldBy(c: Crypto, own: KeyPair, ephemeral: KeyPair, view: Peer, key: Key) {
    key == c.session || key in CandidateKeys(c, Some(own), ephemeral, view)
  }

  ghost predicate IsKeyText(text: string) {
    exists k: Key :: text == PublicHex(k)
  }

  /** The view names some identity the sender may have had, and its one ephemeral key. */
  ghost predicate Plausible(view: Peer, s: End) {
    && (view.identity.Some? ==> IsKeyText(view.identity.value))
    && (view.remoteEphemeral.Some? ==> view.remoteEphemeral.value == PublicHex(s.ephemeral.public))
  }

  ghost predicate Announced(f: LinkFrame, s: End) {
    match f
    case Identity(text) => text == "" || IsKeyText(text)
    case Ephemeral(text) => text == PublicHex(s.ephemeral.public)
    case _ => true
  }

  ghost predicate Carries(c: Crypto, ephemeral: KeyPair, view: Peer, f: LinkFrame, note: Note, seal: Seal)
    requires f.Message?
  {
    note.id == f.id && SealedUnder(c, KeyOf(c, seal), f.ciphertext, note.plaintext) && Fits(c, ephemeral, view, seal)
  }

  /** The frames carry exactly these notes, so sealed, and lead to knowing all that `s` announced. */
  ghost predicate WillRead(c: Crypto, s: End, ephemeral: KeyPair, view: Peer, frames: seq<LinkFrame>,
                           notes: seq<Note>, seals: seq<Seal>)
    decreases |frames|
  {
    if frames == [] then notes == [] && seals == [] && Complete(view, s)
    else
      && Announced(frames[0], s)
      && (if frames[0].Message? then
            && notes != [] && seals != [] && Carries(c, ephemeral, view, frames[0], notes[0], seals[0])
            && WillRead(c, s, ephemeral, view, frames[1..], notes[1..], seals[1..])
          else WillRead(c, s, ephemeral, Learn(view, frames[0]), frames[1..], notes, seals))
  }

  /** The notes whose messages were read with the right key, in order. */
  function Opened(c: Crypto, notes: seq<Note>, seals: seq<Seal>, readings: seq<Reading>): (out: seq<Note>)
    requires |readings| <= |notes| && |readings| <= |seals|
    ensures |out| <= |readings|
    decreases |readings|
  {
    if readings == [] then []
    else
      var n := |readings| - 1;
      Opened(c, notes, seals, readings[..n]) + if Opens(c, seals[n], readings[n]) then [notes[n]] else []
  }

  ghost predicate MeantIsOpened(c: Crypto, seals: seq<Seal>, readings: seq<Reading>) {
    forall j :: 0 <= j < |readings| && j < |seals| && Meant(seals[j], readings[j]) ==> Opens(c, seals[j], readings[j])
  }

  /** What came out of the connection, for what was read of it. */
  ghost predicate Accounts(c: Crypto, s: End, seals: seq<Seal>, r: End, readings: seq<Reading>) {
    && |seals| == |s.sent| && |readings| <= |s.sent|
    && r.received == Opened(c, s.sent, seals, readings) && |r.received| + r.failures == |readings|
    && MeantIsOpened(c, seals, readings)
  }

  ghost predicate Flows(c: Crypto, s: End, seals: seq<Seal>, r: End, readings: seq<Reading>) {
    && WellFormed(c, s)
    && (!s.registered ==> s.out == [] && r.peer == BLANK)
    && (!r.registered ==> r.peer == BLANK)
    && Plausible(r.peer, s) && Accounts(c, s, seals, r, readings)
    && WillRead(c, s, r.ephemeral, r.peer, s.out, s.sent[|readings|..], seals[|readings|..])
  }

  ghost predicate BothFlow(c: Crypto, t: Trace) {
    && Flows(c, t.link.x, t.xSeals, t.link.y, t.yReads)
    && Flows(c, t.link.y, t.ySeals, t.link.x, t.xReads)
  }

  // --------------------------------------------------------- reading and growing

  lemma LearnPlausible(view: Peer, f: LinkFrame, s: End)
    requires Plausible(view, s) && Announced(f, s)
    ensures Plausible(Learn(view, f), s)
  {
    if f.Identity? && f.text != "" {
      var k: Key :| f.text == PublicHex(k);
      PublicHexReadsBack(k);
    }
    if f.Ephemeral? { PublicHexReadsBack(s.ephemeral.public); }
  }

  lemma {:induction false} EndOfFrames(c: Crypto, s: End, ephemeral: KeyPair, view: Peer, frames: seq<LinkFrame>,
                                       notes: seq<Note>, seals: seq<Seal>)
    requires WillRead(c, s, ephemeral, view, frames, notes, seals) && Plausible(view, s)
    ensures Plausible(ViewAfter(view, frames), s) && Complete(ViewAfter(view, frames), s)
    ensures |notes| == MessagesIn(frames)
    decreases |frames|
  {
    if frames != [] {
      LearnPlausible(view, frames[0], s);
      if frames[0].Message? {
        EndOfFrames(c, s, ephemeral, view, frames[1..], notes[1..], seals[1..]);
      } else {
        EndOfFrames(c, s, ephemeral, Learn(view, frames[0]), frames[1..], notes, seals);
      }
    }
  }

  lemma {:induction false} ReadingKept(c: Crypto, s: End, s': End, ephemeral: KeyPair, view: Peer,
                                       frames: seq<LinkFrame>, notes: seq<Note>, seals: seq<Seal>)
    requires WillRead(c, s, ephemeral, view, frames, notes, seals)
    requires s'.own == s.own && s'.ephemeral == s.ephemeral && s'.registered == s.registered
    requires s'.nickname == s.nickname
    ensures WillRead(c, s', ephemeral, view, frames, notes, seals)
    decreases |frames|
  {
    if frames != [] {
      if frames[0].Message? {
        ReadingKept(c, s, s', ephemeral, view, frames[1..], notes[1..], seals[1..]);
      } else {
        ReadingKept(c, s, s', ephemeral, Learn(view, frames[0]), frames[1..], notes, seals);
      }
    }
  }

  lemma {:induction false} ReadingAppends(c: Crypto, s: End, s': End, ephemeral: KeyPair, view: Peer,
                                          frames: seq<LinkFrame>, notes: seq<Note>, seals: seq<Seal>,
                                          more: seq<LinkFrame>, moreNotes: seq<Note>, moreSeals: seq<Seal>)
    requires WillRead(c, s, ephemeral, view, frames, notes, seals) && s'.ephemeral == s.ephemeral
    requires WillRead(c, s', ephemeral, ViewAfter(view, frames), more, moreNotes, moreSeals)
    ensures WillRead(c, s', ephemeral, view, frames + more, notes + moreNotes, seals + moreSeals)
    decreases |frames|
  {
    if frames == [] {
      assert frames + more == more && notes + moreNotes == moreNotes && seals + moreSeals == moreSeals;
    } else {
      assert (frames + more)[1..] == frames[1..] + more;
      if frames[0].Message? {
        ReadingAppends(c, s, s', ephemeral, view, frames[1..], notes[1..], seals[1..], more, moreNotes, moreSeals);
        assert (notes + moreNotes)[1..] == notes[1..] + moreNotes;
        assert (seals + moreSeals)[1..] == seals[1..] + moreSeals;
      } else {
        ReadingAppends(c, s, s', ephemeral, Learn(view, frames[0]), frames[1..], notes, seals,
                       more, moreNotes, moreSeals);
      }
    }
  }

  /** Frames that are no messages only have to be true. */
  lemma {:induction false} AnnouncementsRead(c: Crypto, s: End, ephemeral: KeyPair, view: Peer,
                                             frames: seq<LinkFrame>)
    requires forall i :: 0 <= i < |frames| ==> !frames[i].Message? && Announced(frames[i], s)
    requires Complete(ViewAfter(view, frames), s)
    ensures WillRead(c, s, ephemeral, view, frames, [], [])
    decreases |frames|
  {
    if frames != [] { AnnouncementsRead(c, s, ephemeral, Learn(view, frames[0]), frames[1..]); }
  }

  lemma {:induction false} OpenedEarlier(c: Crypto, notes: seq<Note>, seals: seq<Seal>,
                                         more: seq<Note>, moreSeals: seq<Seal>, readings: seq<Reading>)
    requires |readings| <= |notes| && |readings| <= |seals|
    ensures Opened(c, notes + more, seals + moreSeals, readings) == Opened(c, notes, seals, readings)
    decreases |readings|
  {
    if readings != [] { OpenedEarlier(c, notes, seals, more, moreSeals, readings[..|readings| - 1]); }
  }

  /** The end queues `more`, and nothing it has read or learned changes. */
  ghost predicate Grows(x: End, x': End, more: seq<LinkFrame>, notes: seq<Note>) {
    && x'.ephemeral == x.ephemeral && (x.registered ==> x'.registered)
    && x'.peer == x.peer && x'.received == x.received && x'.failures == x.failures
    && x'.out == x.out + more && x'.sent == x.sent + notes && (!x'.registered ==> more == [])
  }

  lemma AccountsGrow(c: Crypto, x: End, seals: seq<Seal>, y: End, readings: seq<Reading>, x': End,
                     notes: seq<Note>, more: seq<Seal>)
    requires Accounts(c, x, seals, y, readings) && x'.sent == x.sent + notes && |more| == |notes|
    ensures Accounts(c, x', seals + more, y, readings)
  {
    OpenedEarlier(c, x.sent, seals, notes, more, readings);
    assert forall j :: 0 <= j < |readings| ==> (seals + more)[j] == seals[j];
  }

  lemma RestGrows<T>(a: seq<T>, b: seq<T>, n: nat)
    requires n <= |a|
    ensures (a + b)[n..] == a[n..] + b
  {
  }

  lemma OutgoingGrows(c: Crypto, x: End, seals: seq<Seal>, y: End, readings: seq<Reading>, x': End,
                      more: seq<LinkFrame>, notes: seq<Note>, moreSeals: seq<Seal>)
    requires Flows(c, x, seals, y, readings) && Grows(x, x', more, notes) && WellFormed(c, x') && |moreSeals| == |notes|
    requires WillRead(c, x', y.ephemeral, ViewAfter(y.peer, x.out), more, notes, moreSeals)
    ensures Flows(c, x', seals + moreSeals, y, readings)
  {
    var n := |readings|;
    ReadingAppends(c, x, x', y.ephemeral, y.peer, x.out, x.sent[n..], seals[n..], more, notes, moreSeals);
    RestGrows(x.sent, notes, n);
    RestGrows(seals, moreSeals, n);
    AccountsGrow(c, x, seals, y, readings, x', notes, moreSeals);
  }

  /** The trace after its left end became `x'`, which sealed its new messages so. */
  function Grown(t: Trace, x': End, seals: seq<Seal>): Trace {
    t.(link := Link(x', t.link.y), xSeals := t.xSeals + seals)
  }

  lemma GrowthFlows(c: Crypto, t: Trace, x': End, more: seq<LinkFrame>, notes: seq<Note>, seals: seq<Seal>)
    requires BothFlow(c, t) && Grows(t.link.x, x', more, notes) && WellFormed(c, x') && |seals| == |notes|
    requires WillRead(c, x', t.link.y.ephemeral, ViewAfter(t.link.y.peer, t.link.x.out), more, notes, seals)
    ensures BothFlow(c, Grown(t, x', seals))
  {
    OutgoingGrows(c, t.link.x, t.xSeals, t.link.y, t.yReads, x', more, notes, seals);
  }

  /** Where the peer's view of the left end stands once it has read everything queued. */
  lemma Outlook(c: Crypto, t: Trace) returns (view: Peer)
    requires BothFlow(c, t)
    ensures view == ViewAfter(t.link.y.peer, t.link.x.out)
    ensures Plausible(view, t.link.x) && Complete(view, t.link.x)
  {
    var (x, y, n) := (t.link.x, t.link.y, |t.yReads|);
    view := ViewAfter(y.peer, x.out);
    EndOfFrames(c, x, y.ephemeral, y.peer, x.out, x.sent[n..], t.xSeals[n..]);
  }

  // ------------------------------------------------- every step keeps the invariant

  lemma AnnouncingFlows(c: Crypto, t: Trace, x': End, more: seq<LinkFrame>)
    requires BothFlow(c, t) && Grows(t.link.x, x', more, []) && WellFormed(c, x')
    requires forall i :: 0 <= i < |more| ==> !more[i].Message? && Announced(more[i], x')
    requires Complete(ViewAfter(ViewAfter(t.link.y.peer, t.link.x.out), more), x')
    ensures BothFlow(c, Grown(t, x', []))
  {
    AnnouncementsRead(c, x', t.link.y.ephemeral, ViewAfter(t.link.y.peer, t.link.x.out), more);
    GrowthFlows(c, t, x', more, [], []);
  }

  lemma OneView(view: Peer, f: LinkFrame)
    ensures ViewAfter(view, [f]) == Learn(view, f)
  {
    assert [f][1..] == [];
  }

  lemma GreetingFlows(c: Crypto, t: Trace)
    requires BothFlow(c, t) && !t.link.x.registered
    ensures BothFlow(c, Grown(t, Register(t.link.x), []))
  {
    var (x, y) := (t.link.x, t.link.y);
    var x' := Register(x);
    var (hello, identity, ephemeral) :=
      (Hello(x.nickname), Identity(IdentityText(x.own)), Ephemeral(PublicHex(x.ephemeral.public)));
    var more := [hello, identity, ephemeral];
    if x.own.Some? { PublicHexReadsBack(x.own.value.public); }
    PublicHexReadsBack(x.ephemeral.public);
    assert more[1..] == [identity, ephemeral] && more[1..][1..] == [ephemeral];
    OneView(Learn(Learn(y.peer, hello), identity), ephemeral);
    assert ViewAfter(y.peer, more) == Learn(Learn(Learn(y.peer, hello), identity), ephemeral);
    AnnouncingFlows(c, t, x', more);
  }

  /** A new identity is announced behind everything sealed for the old one. */
  lemma IdentityFlows(c: Crypto, t: Trace, secret: Key)
    requires BothFlow(c, t)
    ensures BothFlow(c, Grown(t, SetIdentity(t.link.x, FromSecret(c.p, secret)), []))
  {
    var own := FromSecret(c.p, secret);
    var view := Outlook(c, t);
    var f := Identity(PublicHex(own.public));
    PublicHexReadsBack(own.public);
    OneView(view, f);
    AnnouncingFlows(c, t, SetIdentity(t.link.x, own), if t.link.x.registered then [f] else []);
  }

  lemma QuietFlows(c: Crypto, t: Trace, x': End, more: seq<LinkFrame>)
    requires BothFlow(c, t) && Grows(t.link.x, x', more, []) && WellFormed(c, x')
    requires x'.own == t.link.x.own && x'.registered == t.link.x.registered
    requires || more == [Hello(x'.nickname)]
             || (!x'.registered && more == [])
             || (x'.nickname == t.link.x.nickname
                 && (more == [] || (|more| == 1 && (more[0].Ack? || more[0].Keepalive?))))
    ensures BothFlow(c, Grown(t, x', []))
  {
    var view := Outlook(c, t);
    if more != [] {
      assert more == [more[0]];
      OneView(view, more[0]);
    }
    AnnouncingFlows(c, t, x', more);
  }

  /** Nothing is queued. */
  lemma StillFlows(c: Crypto, t: Trace, x': End)
    requires BothFlow(c, t) && OutboxSealed(c, x')
    requires x' == t.link.x.(outbox := x'.outbox, nextId := x'.nextId)
    ensures BothFlow(c, Grown(t, x', []))
  {
    assert x'.out == t.link.x.out + [] && x'.sent == t.link.x.sent + [];
    QuietFlows(c, t, x', []);
  }

  /** The key a sender picks fits the identities it picked it for. */
  lemma SealFits(c: Crypto, s: End, r: End, view: Peer, wanted: string)
    requires Commutes(c.p) && WellFormed(c, s) && WellFormed(c, r)
    requires s.registered && Plausible(s.peer, r) && Complete(view, s)
    ensures Fits(c, r.ephemeral, view, SealFor(c, s, wanted))
  {
    var seal := SealFor(c, s, wanted);
    if seal.ForPair? && seal.from != seal.to {
      forall own: KeyPair | own == FromSecret(c.p, own.secret) && PublicHex(own.public) == seal.to
        ensures HeldBy(c, own, r.ephemeral, view, seal.key)
      {
        SealingKeyIsHeld(c, s, r.(own := Some(own)), view, wanted);
      }
    }
  }

  lemma MessageReads(c: Crypto, s: End, ephemeral: KeyPair, view: Peer, f: LinkFrame, note: Note, seal: Seal)
    requires f.Message? && Carries(c, ephemeral, view, f, note, seal) && Complete(view, s)
    ensures WillRead(c, s, ephemeral, view, [f], [note], [seal])
  {
    assert [f][1..] == [] && [note][1..] == [] && [seal][1..] == [];
    assert WillRead(c, s, ephemeral, view, [], [], []);
  }

  lemma TransmitFlows(c: Crypto, t: Trace, seal: Seal, plaintext: seq<byte>, nonce: seq<byte>)
    requires BothFlow(c, t) && |nonce| == NONCE_LENGTH && t.link.x.registered
    requires Fits(c, t.link.y.ephemeral, ViewAfter(t.link.y.peer, t.link.x.out), seal)
    ensures var box := c.EncryptWith(KeyOf(c, seal), nonce, plaintext);
      BothFlow(c, Grown(t, Transmit(t.link.x, box, plaintext, true), [seal]))
  {
    var (x, box) := (t.link.x, c.EncryptWith(KeyOf(c, seal), nonce, plaintext));
    var x' := Transmit(x, box, plaintext, true);
    var (f, note) := (Message(x.nextId, box), Note(x.nextId, plaintext));
    var view := Outlook(c, t);
    assert SealedUnder(c, KeyOf(c, seal), box, plaintext);
    MessageReads(c, x', t.link.y.ephemeral, view, f, note, seal);
    GrowthFlows(c, t, x', [f], [note], [seal]);
  }

  lemma AddressedSendFlows(c: Crypto, t: Trace, wanted: string, plaintext: seq<byte>, nonce: seq<byte>)
    requires Commutes(c.p) && BothFlow(c, t) && |nonce| == NONCE_LENGTH && IsAddressed(t.link.x, wanted)
    ensures var box := c.EncryptWith(SealingKey(c, t.link.x, wanted), nonce, plaintext);
      BothFlow(c, Grown(t, Transmit(t.link.x, box, plaintext, true), [SealFor(c, t.link.x, wanted)]))
  {
    var view := Outlook(c, t);
    SealFits(c, t.link.x, t.link.y, view, wanted);
    TransmitFlows(c, t, SealFor(c, t.link.x, wanted), plaintext, nonce);
  }

  lemma BufferedSendFlows(c: Crypto, t: Trace, wanted: string, plaintext: seq<byte>, nonce: seq<byte>)
    requires BothFlow(c, t) && |nonce| == NONCE_LENGTH && !IsAddressed(t.link.x, wanted)
    ensures var box := c.EncryptWith(SealingKey(c, t.link.x, wanted), nonce, plaintext);
      BothFlow(c, Grown(t, Buffer(t.link.x, wanted, box, plaintext), []))
  {
    var box := c.EncryptWith(c.session, nonce, plaintext);
    assert SealedUnder(c, c.session, box, plaintext);
    StillFlows(c, t, Buffer(t.link.x, wanted, box, plaintext));
  }

  lemma {:induction false} EntriesRead(c: Crypto, s: End, ephemeral: KeyPair, view: Peer, entries: seq<Buffered>)
    requires Complete(view, s)
    requires forall i :: 0 <= i < |entries| ==>
      SealedUnder(c, c.session, entries[i].ciphertext, entries[i].note.plaintext)
    ensures WillRead(c, s, ephemeral, view, MessageFrames(entries), Notes(entries), seq(|entries|, _ => ForSession))
    decreases |entries|
  {
    if entries != [] {
      var rest := entries[1..];
      EntriesRead(c, s, ephemeral, view, rest);
      assert MessageFrames(entries)[1..] == MessageFrames(rest) && Notes(entries)[1..] == Notes(rest);
      assert seq(|entries|, _ => ForSession)[1..] == seq(|rest|, _ => ForSession);
      assert Carries(c, ephemeral, view, MessageFrames(entries)[0], Notes(entries)[0], ForSession);
    }
  }

  lemma FlushStaysSealed(c: Crypto, e: End, key: string, room: nat)
    requires OutboxSealed(c, e)
    ensures OutboxSealed(c, Flush(e, key, room))
  {
    if key in e.outbox {
      var (e', entries) := (Flush(e, key, room), e.outbox[key]);
      var k := if room < |entries| then room else |entries|;
      forall n, i | n in e'.outbox && 0 <= i < |e'.outbox[n]|
        ensures SealedUnder(c, c.session, e'.outbox[n][i].ciphertext, e'.outbox[n][i].note.plaintext)
      {
        assert e'.outbox[n][i] == e.outbox[n][if n == key then i + k else i];
      }
    }
  }

  lemma FlushFlows(c: Crypto, t: Trace, key: string, room: nat)
    requires BothFlow(c, t) && t.link.x.registered
    ensures var x' := Flush(t.link.x, key, room);
      |t.link.x.sent| <= |x'.sent| && BothFlow(c, Grown(t, x', NewSeals(t.link.x, x', ForSession)))
  {
    var x := t.link.x;
    var x' := Flush(x, key, room);
    FlushStaysSealed(c, x, key, room);
    if key in x.outbox {
      var k := if room < |x.outbox[key]| then room else |x.outbox[key]|;
      var sent := x.outbox[key][..k];
      var view := Outlook(c, t);
      EntriesRead(c, x', t.link.y.ephemeral, view, sent);
      assert NewSeals(x, x', ForSession) == seq(|sent|, _ => ForSession);
      GrowthFlows(c, t, x', MessageFrames(sent), Notes(sent), NewSeals(x, x', ForSession));
    } else {
      StillFlows(c, t, x);
    }
  }

  // ------------------------------------------------------------------ delivery

  /** The trace after the left end took the first waiting frame, before it queues anything. */
  function Took(c: Crypto, t: Trace, room: nat): Trace
    requires t.link.y.out != []
  {
    t.(link := Link(Absorb(c, t.link.x, t.link.y.out[0]), t.link.y.(out := t.link.y.out[1..])),
       xReads := t.xReads + NewReads(c, t.link, Delivers(room)))
  }

  /** A message is read exactly when the reader has its key, and then unaltered. */
  lemma ReadingIsExact(c: Crypto, r: End, f: LinkFrame, note: Note, seal: Seal)
    requires IdealAead(c.p) && WellFormed(c, r) && f.Message? && Carries(c, r.ephemeral, r.peer, f, note, seal)
    ensures c.TryKeys(CandidateKeys(c, r.own, r.ephemeral, r.peer), f.ciphertext)
         == if Opens(c, seal, ReadingOf(c, r)) then Some(note.plaintext) else None
    ensures Meant(seal, ReadingOf(c, r)) ==> Opens(c, seal, ReadingOf(c, r))
  {
    var key := KeyOf(c, seal);
    var nonce: seq<byte> :| |nonce| == NONCE_LENGTH && f.ciphertext == c.EncryptWith(key, nonce, note.plaintext);
    c.LadderOpensIff(CandidateKeys(c, r.own, r.ephemeral, r.peer), key, nonce, note.plaintext);
    if seal.ForPair? && Meant(seal, ReadingOf(c, r)) {
      assert HeldBy(c, r.own.value, r.ephemeral, r.peer, key);
    }
  }

  lemma OneMoreRead(c: Crypto, notes: seq<Note>, seals: seq<Seal>, readings: seq<Reading>, reading: Reading)
    requires |readings| < |notes| && |readings| < |seals|
    ensures Opened(c, notes, seals, readings + [reading])
         == Opened(c, notes, seals, readings) + if Opens(c, seals[|readings|], reading) then [notes[|readings|]] else []
  {
    assert (readings + [reading])[..|readings|] == readings;
  }

  lemma MessageAccounts(c: Crypto, t: Trace)
    requires IdealAead(c.p) && BothFlow(c, t) && t.link.y.out != [] && t.link.y.out[0].Message?
    ensures Accounts(c, t.link.y, t.ySeals, Absorb(c, t.link.x, t.link.y.out[0]), t.xReads + [ReadingOf(c, t.link.x)])
  {
    var (x, y, n) := (t.link.x, t.link.y, |t.xReads|);
    assert y.sent[n..][0] == y.sent[n] && t.ySeals[n..][0] == t.ySeals[n];
    ReadingIsExact(c, x, y.out[0], y.sent[n], t.ySeals[n]);
    OneMoreRead(c, y.sent, t.ySeals, t.xReads, ReadingOf(c, x));
    var readings := t.xReads + [ReadingOf(c, x)];
    forall j | 0 <= j < |readings| && Meant(t.ySeals[j], readings[j]) ensures Opens(c, t.ySeals[j], readings[j]) {
      if j < n { assert readings[j] == t.xReads[j]; }
    }
  }

  lemma MessageFlowsIn(c: Crypto, t: Trace)
    requires IdealAead(c.p) && BothFlow(c, t) && t.link.x.registered
    requires t.link.y.out != [] && t.link.y.out[0].Message?
    ensures Flows(c, t.link.y.(out := t.link.y.out[1..]), t.ySeals, Absorb(c, t.link.x, t.link.y.out[0]),
                  t.xReads + [ReadingOf(c, t.link.x)])
  {
    var (x, y, n) := (t.link.x, t.link.y, |t.xReads|);
    var y' := y.(out := y.out[1..]);
    MessageAccounts(c, t);
    assert y.sent[n..][1..] == y.sent[n + 1..] && t.ySeals[n..][1..] == t.ySeals[n + 1..];
    ReadingKept(c, y, y', x.ephemeral, x.peer, y'.out, y.sent[n + 1..], t.ySeals[n + 1..]);
  }

  lemma AnnouncementFlowsIn(c: Crypto, t: Trace)
    requires BothFlow(c, t) && t.link.x.registered && t.link.y.out != [] && !t.link.y.out[0].Message?
    ensures Flows(c, t.link.y.(out := t.link.y.out[1..]), t.ySeals, Absorb(c, t.link.x, t.link.y.out[0]), t.xReads)
  {
    var (x, y, n) := (t.link.x, t.link.y, |t.xReads|);
    var y' := y.(out := y.out[1..]);
    LearnPlausible(x.peer, y.out[0], y);
    ReadingKept(c, y, y', x.ephemeral, Learn(x.peer, y.out[0]), y'.out, y.sent[n..], t.ySeals[n..]);
  }

  lemma TakingFlowsOut(c: Crypto, t: Trace)
    requires BothFlow(c, t) && t.link.x.registered && t.link.y.out != []
    ensures Flows(c, Absorb(c, t.link.x, t.link.y.out[0]), t.xSeals, t.link.y.(out := t.link.y.out[1..]), t.yReads)
  {
    var (x, y, n) := (t.link.x, t.link.y, |t.yReads|);
    ReadingKept(c, x, Absorb(c, x, y.out[0]), y.ephemeral, y.peer, x.out, x.sent[n..], t.xSeals[n..]);
  }

  lemma TakingFlows(c: Crypto, t: Trace, room: nat)
    requires IdealAead(c.p) && BothFlow(c, t) && t.link.x.registered && t.link.y.out != []
    ensures BothFlow(c, Took(c, t, room))
  {
    TakingFlowsOut(c, t);
    if t.link.y.out[0].Message? {
      MessageFlowsIn(c, t);
    } else {
      AnnouncementFlowsIn(c, t);
      assert t.xReads + [] == t.xReads;
    }
  }

  lemma AckFlows(c: Crypto, t: Trace, id: nat)
    requires BothFlow(c, t) && t.link.x.registered
    ensures BothFlow(c, Grown(t, t.link.x.(out := t.link.x.out + [Ack(id)]), []))
  {
    assert t.link.x.sent == t.link.x.sent + [];
    QuietFlows(c, t, t.link.x.(out := t.link.x.out + [Ack(id)]), [Ack(id)]);
  }

  /** What a delivery queues is queued after the frame was taken. */
  lemma DeliveryInTwo(c: Crypto, t: Trace, room: nat)
    requires t.link.y.out != []
    ensures var (mid, x', f) := (Took(c, t, room), Apply(c, t.link, Delivers(room)).x, t.link.y.out[0]);
      && mid.link.x.registered == t.link.x.registered
      && Record(c, t, Delivers(room)) == Grown(mid, x', NewSeals(t.link.x, x', ForSession))
      && NewSeals(t.link.x, x', ForSession) == NewSeals(mid.link.x, x', ForSession)
      && x' == if f.Hello? && PeerLabel(f.nickname).Some?
               then Flush(mid.link.x, ToAsciiLower(PeerLabel(f.nickname).value), room)
               else if f.Message? && room > 0 && |mid.link.x.received| > |t.link.x.received|
               then mid.link.x.(out := mid.link.x.out + [Ack(f.id)])
               else mid.link.x
  {
  }

  lemma NoNewSeals(e: End, e': End, seal: Seal)
    requires e'.sent == e.sent
    ensures NewSeals(e, e', seal) == []
  {
  }

  lemma DeliveryFlows(c: Crypto, t: Trace, room: nat)
    requires IdealAead(c.p) && BothFlow(c, t) && t.link.x.registered && t.link.y.out != []
    ensures BothFlow(c, Record(c, t, Delivers(room)))
  {
    var (mid, f) := (Took(c, t, room), t.link.y.out[0]);
    var x' := Apply(c, t.link, Delivers(room)).x;
    DeliveryInTwo(c, t, room);
    TakingFlows(c, t, room);
    if f.Hello? && PeerLabel(f.nickname).Some? {
      FlushFlows(c, mid, ToAsciiLower(PeerLabel(f.nickname).value), room);
    } else {
      NoNewSeals(mid.link.x, x', ForSession);
      if x' == mid.link.x {
        StillFlows(c, mid, x');
      } else {
        AckFlows(c, mid, f.id);
      }
    }
  }

  // --------------------------------------------------------------- any one step

  /** A step that sends nothing is recorded as the change of its end. */
  lemma QuietRecord(c: Crypto, t: Trace, ev: Event, x': End)
    requires !ev.Delivers? && Apply(c, t.link, ev) == Link(x', t.link.y) && x'.sent == t.link.x.sent
    ensures Record(c, t, ev) == Grown(t, x', [])
  {
    NoNewSeals(t.link.x, x', SealOf(c, t.link.x, ev));
    assert t.xReads + [] == t.xReads;
  }

  lemma SendingRecord(c: Crypto, t: Trace, ev: Event, x': End, note: Note)
    requires !ev.Delivers? && Apply(c, t.link, ev) == Link(x', t.link.y) && x'.sent == t.link.x.sent + [note]
    ensures Record(c, t, ev) == Grown(t, x', [SealOf(c, t.link.x, ev)])
  {
    assert NewSeals(t.link.x, x', SealOf(c, t.link.x, ev)) == [SealOf(c, t.link.x, ev)];
    assert t.xReads + [] == t.xReads;
  }

  /** What became of the sender: nothing, an id spent, a message buffered, or a message queued. */
  lemma SendFlows(c: Crypto, t: Trace, ev: Event)
    requires Commutes(c.p) && BothFlow(c, t) && ev.Sends? && |ev.nonce| == NONCE_LENGTH
    ensures BothFlow(c, Record(c, t, ev))
  {
    var (x, wanted) := (t.link.x, ToAsciiLower(Trim(ev.name)));
    var x' := SendToPeer(c, x, ev.name, ev.plaintext, ev.nonce, ev.room);
    if wanted != "" && IsAddressed(x, wanted) && ev.room {
      AddressedSendFlows(c, t, wanted, ev.plaintext, ev.nonce);
      SendingRecord(c, t, ev, x', Note(x.nextId, ev.plaintext));
    } else {
      QuietRecord(c, t, ev, x');
      if wanted != "" && !IsAddressed(x, wanted) {
        BufferedSendFlows(c, t, wanted, ev.plaintext, ev.nonce);
      } else {
        StillFlows(c, t, x');
      }
    }
  }

  lemma BroadcastFlows(c: Crypto, t: Trace, ev: Event)
    requires BothFlow(c, t) && ev.Broadcasts? && |ev.nonce| == NONCE_LENGTH
    ensures BothFlow(c, Record(c, t, ev))
  {
    var x := t.link.x;
    var x' := Broadcast(c, x, ev.plaintext, ev.nonce, ev.room);
    if x.registered && ev.room {
      TransmitFlows(c, t, ForSession, ev.plaintext, ev.nonce);
      SendingRecord(c, t, ev, x', Note(x.nextId, ev.plaintext));
    } else {
      QuietRecord(c, t, ev, x');
      StillFlows(c, t, x');
    }
  }

  lemma NicknameFlows(c: Crypto, t: Trace, name: string)
    requires BothFlow(c, t)
    ensures BothFlow(c, Grown(t, SetNickname(t.link.x, name), []))
  {
    var x := t.link.x;
    assert x.out == x.out + [] && x.sent == x.sent + [];
    QuietFlows(c, t, SetNickname(x, name), if x.registered then [Hello(name)] else []);
  }

  lemma ProbeFlows(c: Crypto, t: Trace, room: bool)
    requires BothFlow(c, t)
    ensures BothFlow(c, Grown(t, Probe(t.link.x, room), []))
  {
    var x := t.link.x;
    assert x.out == x.out + [] && x.sent == x.sent + [];
    QuietFlows(c, t, Probe(x, room), if Probe(x, room) == x then [] else [Keepalive]);
  }

  lemma AnnouncingStepFlows(c: Crypto, t: Trace, ev: Event)
    requires BothFlow(c, t) && Enabled(c, t.link, ev) && !ev.Sends? && !ev.Broadcasts? && !ev.Delivers?
    ensures BothFlow(c, Record(c, t, ev))
  {
    QuietRecord(c, t, ev, Apply(c, t.link, ev).x);
    match ev
    case Registers => GreetingFlows(c, t);
    case SetsIdentity(secret) => IdentityFlows(c, t, secret);
    case SetsNickname(name) => NicknameFlows(c, t, name);
    case Probes(room) => ProbeFlows(c, t, room);
    case Expires(key, index) => StillFlows(c, t, Expire(t.link.x, key, index));
  }

  lemma StepFlows(c: Crypto, t: Trace, ev: Event)
    requires Commutes(c.p) && IdealAead(c.p) && BothFlow(c, t) && Enabled(c, t.link, ev)
    ensures BothFlow(c, Record(c, t, ev))
  {
    match ev
    case Sends(_, _, _, _) => SendFlows(c, t, ev);
    case Broadcasts(_, _, _) => BroadcastFlows(c, t, ev);
    case Delivers(room) => DeliveryFlows(c, t, room);
    case _ => AnnouncingStepFlows(c, t, ev);
  }

  // ----------------------------------------------------------- acknowledgements

  ghost predicate WasReceived(e: End, id: nat) {
    exists i :: 0 <= i < |e.received| && e.received[i].id == id
  }

  ghost predicate AcksHonest(s: End, r: End) {
    && (forall i :: 0 <= i < |s.out| && s.out[i].Ack? ==> WasReceived(s, s.out[i].acked))
    && (forall i :: 0 <= i < |r.confirmed| ==> WasReceived(s, r.confirmed[i]))
  }

  ghost predicate BothAckHonestly(l: Link) {
    AcksHonest(l.x, l.y) && AcksHonest(l.y, l.x)
  }

  lemma AcksAfterQueueing(l: Link, x': End)
    requires BothAckHonestly(l)
    requires x'.received == l.x.received && x'.confirmed == l.x.confirmed && l.x.out <= x'.out
    requires forall i :: |l.x.out| <= i < |x'.out| && x'.out[i].Ack? ==> WasReceived(l.x, x'.out[i].acked)
    ensures BothAckHonestly(Link(x', l.y))
  {
    forall id | WasReceived(l.x, id) ensures WasReceived(x', id) { }
  }

  lemma AcksAfterAbsorb(c: Crypto, l: Link)
    requires BothAckHonestly(l) && l.y.out != []
    ensures BothAckHonestly(Link(Absorb(c, l.x, l.y.out[0]), l.y.(out := l.y.out[1..])))
  {
    var (x, y) := (l.x, l.y);
    var (x', y') := (Absorb(c, x, y.out[0]), y.(out := y.out[1..]));
    forall id | WasReceived(x, id) ensures WasReceived(x', id) {
      var i :| 0 <= i < |x.received| && x.received[i].id == id;
      assert x'.received[i] == x.received[i];
    }
    forall id | WasReceived(y, id) ensures WasReceived(y', id) { }
    forall i | 0 <= i < |x'.confirmed| ensures WasReceived(y', x'.confirmed[i]) {
      if i < |x.confirmed| {
        assert x'.confirmed[i] == x.confirmed[i];
      } else {
        assert WasReceived(y, y.out[0].acked);
      }
    }
  }

  lemma AcksAfterDelivery(c: Crypto, l: Link, room: nat)
    requires BothAckHonestly(l) && l.y.out != []
    ensures BothAckHonestly(Apply(c, l, Delivers(room)))
  {
    var (f, x') := (l.y.out[0], Apply(c, l, Delivers(room)).x);
    var mid := Link(Absorb(c, l.x, f), l.y.(out := l.y.out[1..]));
    AcksAfterAbsorb(c, l);
    if f.Message? && x' != mid.x {
      assert mid.x.received[|l.x.received|].id == f.id;
    }
    AcksAfterQueueing(mid, x');
  }

  lemma AcksStayHonest(c: Crypto, l: Link, ev: Event)
    requires BothAckHonestly(l) && (ev.Delivers? ==> l.y.out != [])
    ensures BothAckHonestly(Apply(c, l, ev))
  {
    match ev
    case Delivers(room) => AcksAfterDelivery(c, l, room);
    case _ => AcksAfterQueueing(l, Apply(c, l, ev).x);
  }

  // ------------------------------------------------------------------ whole runs

  lemma {:induction false} RunFlows(c: Crypto, t: Trace, run: seq<Turn>)
    requires Commutes(c.p) && IdealAead(c.p) && BothFlow(c, t) && BothAckHonestly(t.link) && ValidRun(c, t.link, run)
    ensures BothFlow(c, Traced(c, t, run)) && BothAckHonestly(Traced(c, t, run).link)
    ensures Traced(c, t, run).link == After(c, t.link, run)
    decreases |run|
  {
    if run != [] {
      StepFlows(c, TraceOf(t, run[0]), run[0].event);
      AcksStayHonest(c, TraceOf(t, run[0]).link, run[0].event);
      RunFlows(c, Onward(c, t, run[0]), run[1..]);
    }
  }

  // ------------------------------------------------------------- main results

  /** What one direction of any connection promises. */
  ghost predicate ReadByKey(c: Crypto, s: End, seals: seq<Seal>, r: End, readings: seq<Reading>) {
    && Accounts(c, s, seals, r, readings) && |s.sent| == |readings| + MessagesIn(s.out)
    && (forall i :: 0 <= i < |r.confirmed| ==> WasReceived(s, r.confirmed[i]))
  }

  /**
   However often the ends replace their identities: each message is read in turn, comes out
   unaltered if the reader then has the key it was sealed under and is refused otherwise, and
   a reader that still has the identity the message was sealed for has that key. Nothing is
   confirmed that was not received.
   */
  lemma MessagesAreReadByKey(c: Crypto, l: Link, run: seq<Turn>)
    requires Commutes(c.p) && IdealAead(c.p) && Initial(c, l) && ValidRun(c, l, run)
    ensures var t := Traced(c, Began(l), run);
      && t.link == After(c, l, run)
      && ReadByKey(c, t.link.x, t.xSeals, t.link.y, t.yReads)
      && ReadByKey(c, t.link.y, t.ySeals, t.link.x, t.xReads)
  {
    RunFlows(c, Began(l), run);
    var t := Traced(c, Began(l), run);
    var (x, y) := (t.link.x, t.link.y);
    EndOfFrames(c, x, y.ephemeral, y.peer, x.out, x.sent[|t.yReads|..], t.xSeals[|t.yReads|..]);
    EndOfFrames(c, y, x.ephemeral, x.peer, y.out, y.sent[|t.xReads|..], t.ySeals[|t.xReads|..]);
  }

  ghost predicate AllOpen(c: Crypto, seals: seq<Seal>, readings: seq<Reading>) {
    forall j :: 0 <= j < |readings| && j < |seals| ==> Opens(c, seals[j], readings[j])
  }

  lemma {:induction false} AllOpenIff(c: Crypto, notes: seq<Note>, seals: seq<Seal>, readings: seq<Reading>)
    requires |readings| <= |notes| && |readings| <= |seals|
    ensures Opened(c, notes, seals, readings) == notes[..|readings|] || |Opened(c, notes, seals, readings)| < |readings|
    ensures AllOpen(c, seals, readings) <==> |Opened(c, notes, seals, readings)| == |readings|
    decreases |readings|
  {
    if readings != [] {
      var n := |readings| - 1;
      AllOpenIff(c, notes, seals, readings[..n]);
      assert forall j :: 0 <= j < n ==> readings[..n][j] == readings[j];
      assert notes[..n + 1] == notes[..n] + [notes[n]];
    }
  }

  /** No message is lost exactly when each was read with its key; then all come out, in order. */
  lemma NothingIsLostIff(c: Crypto, l: Link, run: seq<Turn>)
    requires Commutes(c.p) && IdealAead(c.p) && Initial(c, l) && ValidRun(c, l, run)
    ensures var t := Traced(c, Began(l), run);
      && (t.link.y.failures == 0 <==> AllOpen(c, t.xSeals, t.yReads))
      && (t.link.y.failures == 0 ==> t.link.y.received <= t.link.x.sent)
      && (t.link.x.failures == 0 <==> AllOpen(c, t.ySeals, t.xReads))
      && (t.link.x.failures == 0 ==> t.link.x.received <= t.link.y.sent)
  {
    MessagesAreReadByKey(c, l, run);
    var t := Traced(c, Began(l), run);
    AllOpenIff(c, t.link.x.sent, t.xSeals, t.yReads);
    AllOpenIff(c, t.link.y.sent, t.ySeals, t.xReads);
  }

  /** Whoever loses a message had not the identity it was sealed for, or shared the sender's. */
  lemma LossNeedsAnotherIdentity(c: Crypto, l: Link, run: seq<Turn>) returns (j: nat)
    requires Commutes(c.p) && IdealAead(c.p) && Initial(c, l) && ValidRun(c, l, run)
    requires Traced(c, Began(l), run).link.y.failures > 0
    ensures var t := Traced(c, Began(l), run);
      && j < |t.yReads| <= |t.xSeals| && t.xSeals[j].ForPair?
      && (t.yReads[j].own != Some(t.xSeals[j].to) || t.xSeals[j].from == t.xSeals[j].to)
  {
    MessagesAreReadByKey(c, l, run);
    NothingIsLostIff(c, l, run);
    var t := Traced(c, Began(l), run);
    j :| 0 <= j < |t.yReads| && j < |t.xSeals| && !Opens(c, t.xSeals[j], t.yReads[j]);
  }
}
