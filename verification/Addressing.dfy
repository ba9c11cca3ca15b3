/**
 Whom a message goes to: a directed message leaves only on a connection whose peer announced the
 name it was asked for, and waits under exactly that name otherwise.
 */
module Addressing {
  import opened Wrappers
  import opened Text
  import opened Keys
  import opened PeerLink

  // -------------------------------------------------------------------- names

  /** A name a front-end may print: 1 to 64 characters, no control character, no space around it. */
  ghost predicate Displayable(name: string) {
    && 1 <= |name| <= 64 && Trim(name) == name
    && forall i :: 0 <= i < |name| ==> (0x20 <= name[i] as int < 0x7F || 0xA0 <= name[i] as int)
  }

  /** A greeting names its peer exactly when its text, trimmed, may be printed. */
  lemma GreetingIsAcceptedIff(text: string)
    ensures PeerLabel(text).Some? <==> Displayable(Trim(text))
    ensures PeerLabel(text).Some? ==> PeerLabel(text).value == Trim(text)
  {
    TrimIdempotent(text);
  }

  // -------------------------------------------------------------- one directed send

  function KeptFor(e: End, key: string): seq<Buffered> {
    if key in e.outbox then e.outbox[key] else []
  }

  /** The end has a connection, and the peer on it announced this name. */
  ghost predicate Reaches(e: End, name: string) {
    e.registered && e.peer.nickname.Some? && SameName(e.peer.nickname.value, Trim(name))
  }

  /** The key the two ends of the connection have for each other, as far as they know each other. */
  ghost predicate KeyOfThePair(c: Crypto, e: End, key: Key) {
    if e.own.None? || e.peer.identity.None? then key == c.session
    else
      forall pk: Key | e.peer.identity.value == PublicHex(pk) ::
        && (e.peer.remoteEphemeral == None ==>
              ContactKey(c.p, c.session, PublicHex(e.own.value.public), PublicHex(pk)) == Some(key))
        && (forall ek: Key | e.peer.remoteEphemeral == Some(PublicHex(ek)) ::
              key == PairKey(c.p, c.session, e.own.value, e.ephemeral, pk, ek))
  }

  /** The message went to the peer, sealed for it, or was shed by a full queue. */
  ghost predicate SentToThePeer(c: Crypto, e: End, e': End, plaintext: seq<byte>, nonce: seq<byte>, room: bool) {
    exists key: Key ::
      && KeyOfThePair(c, e, key)
      && e' == e.(nextId := e.nextId + 1,
                  out := e.out + if room then [Message(e.nextId, c.EncryptWith(key, nonce, plaintext))] else [],
                  sent := e.sent + if room then [Note(e.nextId, plaintext)] else [])
  }

  /** The message waits under this name, sealed for the session, or was dropped by a full queue. */
  ghost predicate KeptUnder(c: Crypto, e: End, e': End, key: string, plaintext: seq<byte>, nonce: seq<byte>) {
    var entry := Buffered(c.EncryptWith(c.session, nonce, plaintext), Note(e.nextId, plaintext));
    e' == e.(nextId := e.nextId + 1,
             outbox := if |KeptFor(e, key)| < 32 then e.outbox[key := KeptFor(e, key) + [entry]] else e.outbox)
  }

  lemma SealedForThePair(c: Crypto, e: End, wanted: string)
    requires e.registered && e.peer.nickname.Some? && ToAsciiLower(e.peer.nickname.value) == wanted
    ensures KeyOfThePair(c, e, SealingKey(c, e, wanted))
  {
    if e.own.Some? && e.peer.identity.Some? {
      forall pk: Key | e.peer.identity.value == PublicHex(pk)
        ensures e.peer.remoteEphemeral == None ==>
          ContactKey(c.p, c.session, PublicHex(e.own.value.public), PublicHex(pk)) == Some(SealingKey(c, e, wanted))
        ensures forall ek: Key | e.peer.remoteEphemeral == Some(PublicHex(ek)) ::
          SealingKey(c, e, wanted) == PairKey(c.p, c.session, e.own.value, e.ephemeral, pk, ek)
      {
        LadderShape(c, e.own.value, e.ephemeral, pk, e.peer);
      }
    }
  }

  /**
   A directed message goes to the peer only if that peer announced the name asked for, whatever
   the case of its letters and the space around it; otherwise it waits under exactly that name.
   A blank name sends nothing.
   */
  lemma SendGoesWhereItWasAsked(c: Crypto, e: End, name: string, plaintext: seq<byte>, nonce: seq<byte>, room: bool)
    ensures var e' := SendToPeer(c, e, name, plaintext, nonce, room);
      if Trim(name) == "" then e' == e
      else if Reaches(e, name) then SentToThePeer(c, e, e', plaintext, nonce, room)
      else KeptUnder(c, e, e', ToAsciiLower(Trim(name)), plaintext, nonce)
  {
    var wanted := ToAsciiLower(Trim(name));
    if e.peer.nickname.Some? { LowerIsSameNameIff(e.peer.nickname.value, Trim(name)); }
    if Trim(name) != "" {
      if Reaches(e, name) {
        SealedForThePair(c, e, wanted);
        var e' := SendToPeer(c, e, name, plaintext, nonce, room);
        assert e.out + [] == e.out && e.sent + [] == e.sent;
        assert e' == e.(nextId := e.nextId + 1,
          out := e.out + if room then [Message(e.nextId, c.EncryptWith(SealingKey(c, e, wanted), nonce, plaintext))]
                         else [],
          sent := e.sent + if room then [Note(e.nextId, plaintext)] else []);
      }
    }
  }

  ghost predicate FramesFollow(out: seq<LinkFrame>, out': seq<LinkFrame>, kept: seq<Buffered>, n: nat) {
    && n <= |kept| && |out'| == |out| + n && out <= out'
    && forall i :: 0 <= i < n ==> out'[|out| + i] == Message(kept[i].note.id, kept[i].ciphertext)
  }

  ghost predicate NotesFollow(sent: seq<Note>, sent': seq<Note>, kept: seq<Buffered>, n: nat) {
    && n <= |kept| && |sent'| == |sent| + n && sent <= sent'
    && forall i :: 0 <= i < n ==> sent'[|sent| + i] == kept[i].note
  }

  ghost predicate OthersWait(e: End, e': End, key: string, n: nat) {
    forall k :: KeptFor(e', k) == if k == key && n <= |KeptFor(e, key)| then KeptFor(e, key)[n..] else KeptFor(e, k)
  }

  /** Handing over what waited under a name, as far as the queue takes it. */
  ghost predicate HandedOver(e: End, e': End, key: string, room: nat) {
    var kept := KeptFor(e, key);
    var n := if room < |kept| then room else |kept|;
    FramesFollow(e.out, e'.out, kept, n) && NotesFollow(e.sent, e'.sent, kept, n) && OthersWait(e, e', key, n)
  }

  lemma EntriesFollow(out: seq<LinkFrame>, sent: seq<Note>, kept: seq<Buffered>, n: nat)
    requires n <= |kept|
    ensures FramesFollow(out, out + MessageFrames(kept[..n]), kept, n)
    ensures NotesFollow(sent, sent + Notes(kept[..n]), kept, n)
  {
  }

  lemma NothingFollows(e: End, key: string)
    requires key !in e.outbox
    ensures FramesFollow(e.out, e.out, KeptFor(e, key), 0) && NotesFollow(e.sent, e.sent, KeptFor(e, key), 0)
    ensures OthersWait(e, e, key, 0)
  {
  }

  lemma FlushLeaves(e: End, key: string, room: nat)
    requires key in e.outbox
    ensures OthersWait(e, Flush(e, key, room), key, if room < |e.outbox[key]| then room else |e.outbox[key]|)
  {
  }

  lemma FlushHandsOver(e: End, key: string, room: nat)
    ensures HandedOver(e, Flush(e, key, room), key, room) && Flush(e, key, room).peer == e.peer
  {
    if key in e.outbox {
      var kept := e.outbox[key];
      EntriesFollow(e.out, e.sent, kept, if room < |kept| then room else |kept|);
      FlushLeaves(e, key, room);
    } else {
      NothingFollows(e, key);
    }
  }

  /** Nothing but the view of the peer differs. */
  lemma ViewDoesNotMatter(e: End, greeted: End, e': End, key: string, n: nat)
    requires OthersWait(greeted, e', key, n) && greeted.outbox == e.outbox
    ensures OthersWait(e, e', key, n)
  {
    forall k ensures KeptFor(greeted, k) == KeptFor(e, k) { }
  }

  /** A greeting that may be printed names the peer and brings it what waited under that name. */
  lemma GreetingBringsWhatWaited(c: Crypto, e: End, text: string, room: nat)
    ensures var e' := Dispatch(c, e, Hello(text), room);
      if Displayable(Trim(text)) then
        e'.peer.nickname == Some(Trim(text)) && HandedOver(e, e', ToAsciiLower(Trim(text)), room)
      else e' == e
  {
    var greeted := e.(peer := Learn(e.peer, Hello(text)));
    GreetingIsAcceptedIff(text);
    if PeerLabel(text).Some? {
      var (key, kept) := (ToAsciiLower(Trim(text)), KeptFor(e, ToAsciiLower(Trim(text))));
      FlushHandsOver(greeted, key, room);
      assert KeptFor(greeted, key) == kept;
      ViewDoesNotMatter(e, greeted, Flush(greeted, key, room), key, if room < |kept| then room else |kept|);
    }
  }

  // ----------------------------------------------------------------- whole runs

  datatype Ask = Directed(name: string) | ToAll

  /** A message handed to the connection, with the nicknames its peer had announced by then. */
  datatype Handing = Handing(id: nat, names: seq<string>)

  /** One end's history: what was asked of it, by id; the nicknames it announced; what it handed over. */
  datatype Book = Book(asks: map<nat, Ask>, announced: seq<string>, handed: seq<Handing>)

  datatype Ledger = Ledger(link: Link, xBook: Book, yBook: Book) {
    function Swap(): Ledger {
      Ledger(link.Swap(), yBook, xBook)
    }
  }

  function Asked(e: End, asks: map<nat, Ask>, ev: Event): map<nat, Ask> {
    if ev.Sends? && Trim(ev.name) != "" then asks[e.nextId := Directed(ev.name)]
    else if ev.Broadcasts? then asks[e.nextId := ToAll]
    else asks
  }

  function Announcing(e: End, ev: Event): seq<string> {
    if ev.Registers? then [e.nickname]
    else if ev.SetsNickname? && e.registered then [ev.nickname]
    else []
  }

  function NewHandings(e: End, e': End, names: seq<string>): seq<Handing> {
    if |e.sent| <= |e'.sent| then
      seq(|e'.sent| - |e.sent|, i requires 0 <= i < |e'.sent| - |e.sent| => Handing(e'.sent[|e.sent| + i].id, names))
    else []
  }

  function Entered(c: Crypto, t: Ledger, ev: Event): Ledger {
    var (x, l') := (t.link.x, Apply(c, t.link, ev));
    Ledger(l',
           Book(Asked(x, t.xBook.asks, ev), t.xBook.announced + Announcing(x, ev),
                t.xBook.handed + NewHandings(x, l'.x, t.yBook.announced)),
           t.yBook)
  }

  function LedgerOf(t: Ledger, turn: Turn): Ledger {
    if turn.left then t else t.Swap()
  }

  function Onward(c: Crypto, t: Ledger, turn: Turn): Ledger {
    if turn.left then Entered(c, t, turn.event) else Entered(c, t.Swap(), turn.event).Swap()
  }

  function Kept(c: Crypto, t: Ledger, run: seq<Turn>): Ledger
    decreases |run|
  {
    if run == [] then t else Kept(c, Onward(c, t, run[0]), run[1..])
  }

  // ------------------------------------------------------------- the invariant

  /** One of these announcements is the name, as a greeting is read. */
  ghost predicate CalledBy(names: seq<string>, name: string) {
    exists a :: a in names && Displayable(Trim(a)) && SameName(Trim(a), Trim(name))
  }

  ghost predicate IsNamed(names: seq<string>, called: string) {
    exists a :: a in names && Displayable(Trim(a)) && Trim(a) == called
  }

  /** What waits under a name was asked for under that name. */
  ghost predicate FiledAt(asks: map<nat, Ask>, key: string, kept: seq<Buffered>) {
    forall i :: 0 <= i < |kept| ==>
      && kept[i].note.id in asks && asks[kept[i].note.id].Directed?
      && ToAsciiLower(Trim(asks[kept[i].note.id].name)) == key
  }

  ghost predicate Filed(e: End, asks: map<nat, Ask>) {
    && (forall id :: id in asks ==> id < e.nextId)
    && forall key :: FiledAt(asks, key, KeptFor(e, key))
  }

  /** The message was asked for under a name the peer had announced by then, or for everybody. */
  ghost predicate WellAddressed(asks: map<nat, Ask>, h: Handing) {
    h.id in asks && (asks[h.id].Directed? ==> CalledBy(h.names, asks[h.id].name))
  }

  ghost predicate HandedWell(e: End, book: Book) {
    && |book.handed| == |e.sent|
    && (forall i :: 0 <= i < |e.sent| ==> book.handed[i].id == e.sent[i].id)
    && (forall i :: 0 <= i < |e.sent| ==> WellAddressed(book.asks, book.handed[i]))
  }

  /** What `e` believes its peer is called, and what it is about to hear, was announced. */
  ghost predicate HeardFrom(e: End, peer: End, announced: seq<string>) {
    && (e.peer.nickname.Some? ==> IsNamed(announced, e.peer.nickname.value))
    && (forall i :: 0 <= i < |peer.out| && peer.out[i].Hello? ==> peer.out[i].nickname in announced)
  }

  ghost predicate InOrder(t: Ledger) {
    && Filed(t.link.x, t.xBook.asks) && HandedWell(t.link.x, t.xBook)
    && Filed(t.link.y, t.yBook.asks) && HandedWell(t.link.y, t.yBook)
    && HeardFrom(t.link.x, t.link.y, t.yBook.announced)
    && HeardFrom(t.link.y, t.link.x, t.xBook.announced)
  }

  // ----------------------------------------------------- what the steps do to it

  lemma NameIsCalled(names: seq<string>, called: string, name: string)
    requires IsNamed(names, called) && SameName(called, Trim(name))
    ensures CalledBy(names, name)
  {
    var a :| a in names && Displayable(Trim(a)) && Trim(a) == called;
  }

  lemma NamesGrow(names: seq<string>, more: seq<string>, called: string)
    requires IsNamed(names, called)
    ensures IsNamed(names + more, called)
  {
    var a :| a in names && Displayable(Trim(a)) && Trim(a) == called;
    assert a in names + more;
  }

  /** Asking adds an entry under a new id; the others stay. */
  lemma AskingKeeps(e: End, asks: map<nat, Ask>, ev: Event, id: nat)
    requires forall i :: i in asks ==> i < e.nextId
    requires id in asks
    ensures id in Asked(e, asks, ev) && Asked(e, asks, ev)[id] == asks[id]
  {
  }

  lemma FilingKeeps(e: End, asks: map<nat, Ask>, ev: Event, key: string, kept: seq<Buffered>)
    requires (forall i :: i in asks ==> i < e.nextId) && FiledAt(asks, key, kept)
    ensures FiledAt(Asked(e, asks, ev), key, kept)
  {
    forall i | 0 <= i < |kept|
      ensures kept[i].note.id in Asked(e, asks, ev)
           && Asked(e, asks, ev)[kept[i].note.id] == asks[kept[i].note.id]
    {
      AskingKeeps(e, asks, ev, kept[i].note.id);
    }
  }

  /** The messages of a step are handed over to a peer that is called what they were asked for. */
  ghost predicate NewlyWell(e: End, e': End, asks: map<nat, Ask>, names: seq<string>) {
    && e.sent <= e'.sent
    && forall i :: |e.sent| <= i < |e'.sent| ==> WellAddressed(asks, Handing(e'.sent[i].id, names))
  }

  lemma HandingsStayWell(e: End, e': End, book: Book, ev: Event, names: seq<string>, announced: seq<string>)
    requires HandedWell(e, book) && (forall id :: id in book.asks ==> id < e.nextId)
    requires NewlyWell(e, e', Asked(e, book.asks, ev), names)
    ensures HandedWell(e', Book(Asked(e, book.asks, ev), announced, book.handed + NewHandings(e, e', names)))
  {
    var (asks, handed) := (Asked(e, book.asks, ev), book.handed + NewHandings(e, e', names));
    forall i | 0 <= i < |e'.sent| ensures handed[i].id == e'.sent[i].id && WellAddressed(asks, handed[i]) {
      if i < |e.sent| {
        assert handed[i] == book.handed[i] && e'.sent[i] == e.sent[i] && WellAddressed(book.asks, handed[i]);
        AskingKeeps(e, book.asks, ev, handed[i].id);
      } else {
        assert handed[i] == Handing(e'.sent[i].id, names);
      }
    }
  }

  lemma FilesStay(e: End, book: Book, ev: Event)
    requires Filed(e, book.asks)
    ensures forall key :: FiledAt(Asked(e, book.asks, ev), key, KeptFor(e, key))
    ensures ev.Sends? || ev.Broadcasts? ==> forall id :: id in Asked(e, book.asks, ev) ==> id <= e.nextId
  {
    forall key ensures FiledAt(Asked(e, book.asks, ev), key, KeptFor(e, key)) {
      assert FiledAt(book.asks, key, KeptFor(e, key));
      FilingKeeps(e, book.asks, ev, key, KeptFor(e, key));
    }
  }

  lemma KeepingFiles(c: Crypto, e: End, e': End, book: Book, ev: Event)
    requires Filed(e, book.asks) && ev.Sends? && Trim(ev.name) != ""
    requires KeptUnder(c, e, e', ToAsciiLower(Trim(ev.name)), ev.plaintext, ev.nonce)
    ensures Filed(e', Asked(e, book.asks, ev))
  {
    var asks := Asked(e, book.asks, ev);
    FilesStay(e, book, ev);
    forall key ensures FiledAt(asks, key, KeptFor(e', key)) {
      assert FiledAt(asks, key, KeptFor(e, key));
    }
  }

  lemma SendingFiles(c: Crypto, e: End, e': End, book: Book, ev: Event, names: seq<string>)
    requires Filed(e, book.asks) && ev.Sends? && Trim(ev.name) != "" && Reaches(e, ev.name)
    requires IsNamed(names, e.peer.nickname.value) && SentToThePeer(c, e, e', ev.plaintext, ev.nonce, ev.room)
    ensures Filed(e', Asked(e, book.asks, ev)) && NewlyWell(e, e', Asked(e, book.asks, ev), names)
  {
    var asks := Asked(e, book.asks, ev);
    FilesStay(e, book, ev);
    NameIsCalled(names, e.peer.nickname.value, ev.name);
    forall key ensures FiledAt(asks, key, KeptFor(e', key)) { assert FiledAt(asks, key, KeptFor(e, key)); }
  }

  lemma SendFiles(c: Crypto, e: End, book: Book, ev: Event, names: seq<string>)
    requires ev.Sends? && Filed(e, book.asks)
    requires e.peer.nickname.Some? ==> IsNamed(names, e.peer.nickname.value)
    ensures var e' := SendToPeer(c, e, ev.name, ev.plaintext, ev.nonce, ev.room);
      Filed(e', Asked(e, book.asks, ev)) && NewlyWell(e, e', Asked(e, book.asks, ev), names)
  {
    var e' := SendToPeer(c, e, ev.name, ev.plaintext, ev.nonce, ev.room);
    SendGoesWhereItWasAsked(c, e, ev.name, ev.plaintext, ev.nonce, ev.room);
    if Trim(ev.name) != "" {
      if Reaches(e, ev.name) {
        SendingFiles(c, e, e', book, ev, names);
      } else {
        KeepingFiles(c, e, e', book, ev);
      }
    }
  }

  lemma GreetingFiles(c: Crypto, e: End, book: Book, text: string, room: nat, names: seq<string>)
    requires Filed(e, book.asks) && text in names
    ensures var e' := Dispatch(c, e, Hello(text), room);
      Filed(e', book.asks) && NewlyWell(e, e', book.asks, names)
  {
    var (e', key) := (Dispatch(c, e, Hello(text), room), ToAsciiLower(Trim(text)));
    GreetingBringsWhatWaited(c, e, text, room);
    if Displayable(Trim(text)) {
      var kept := KeptFor(e, key);
      assert FiledAt(book.asks, key, kept);
      forall k ensures FiledAt(book.asks, k, KeptFor(e', k)) { assert FiledAt(book.asks, k, KeptFor(e, k)); }
      forall i | |e.sent| <= i < |e'.sent| ensures WellAddressed(book.asks, Handing(e'.sent[i].id, names)) {
        var id := kept[i - |e.sent|].note.id;
        assert e'.sent[|e.sent| + (i - |e.sent|)] == kept[i - |e.sent|].note;
        LowerIsSameNameIff(Trim(text), Trim(book.asks[id].name));
        assert IsNamed(names, Trim(text));
        NameIsCalled(names, Trim(text), book.asks[id].name);
      }
    }
  }

  /** A step that moves no message from or to the outbox. */
  lemma OtherStepFiles(e: End, e': End, book: Book, ev: Event, names: seq<string>)
    requires Filed(e, book.asks) && !ev.Sends? && !ev.Broadcasts?
    requires e'.nextId >= e.nextId && e'.sent == e.sent && (e'.outbox == e.outbox || ev.Expires?)
    requires ev.Expires? ==> e' == Expire(e, ev.key, ev.index)
    ensures Filed(e', Asked(e, book.asks, ev)) && NewlyWell(e, e', Asked(e, book.asks, ev), names)
  {
    forall key ensures FiledAt(book.asks, key, KeptFor(e', key)) { assert FiledAt(book.asks, key, KeptFor(e, key)); }
  }

  lemma BroadcastFiles(c: Crypto, e: End, book: Book, ev: Event, names: seq<string>)
    requires Filed(e, book.asks) && ev.Broadcasts?
    ensures var e' := Broadcast(c, e, ev.plaintext, ev.nonce, ev.room);
      Filed(e', Asked(e, book.asks, ev)) && NewlyWell(e, e', Asked(e, book.asks, ev), names)
  {
    var e' := Broadcast(c, e, ev.plaintext, ev.nonce, ev.room);
    forall key ensures FiledAt(Asked(e, book.asks, ev), key, KeptFor(e', key)) {
      assert FiledAt(book.asks, key, KeptFor(e, key));
      FilingKeeps(e, book.asks, ev, key, KeptFor(e, key));
    }
  }

  lemma StepFiles(c: Crypto, t: Ledger, ev: Event)
    requires InOrder(t) && Enabled(c, t.link, ev)
    ensures var (x, x') := (t.link.x, Apply(c, t.link, ev).x);
      Filed(x', Asked(x, t.xBook.asks, ev)) && NewlyWell(x, x', Asked(x, t.xBook.asks, ev), t.yBook.announced)
  {
    var (x, x', names) := (t.link.x, Apply(c, t.link, ev).x, t.yBook.announced);
    match ev
    case Sends(_, _, _, _) => SendFiles(c, x, t.xBook, ev, names);
    case Broadcasts(_, _, _) => BroadcastFiles(c, x, t.xBook, ev, names);
    case Delivers(room) =>
      if t.link.y.out[0].Hello? {
        GreetingFiles(c, x, t.xBook, t.link.y.out[0].nickname, room, names);
      } else {
        OtherStepFiles(x, x', t.xBook, ev, names);
      }
    case _ => OtherStepFiles(x, x', t.xBook, ev, names);
  }

  /** What the end queues beyond messages and acknowledgements is what it announces. */
  lemma StepAnnounces(c: Crypto, l: Link, ev: Event)
    requires Enabled(c, l, ev)
    ensures var (x, x') := (l.x, Apply(c, l, ev).x);
      && x.out <= x'.out
      && (forall i :: |x.out| <= i < |x'.out| && x'.out[i].Hello? ==> x'.out[i].nickname in Announcing(x, ev))
  {
    if ev.Delivers? && l.y.out[0].Hello? { GreetingBringsWhatWaited(c, l.x, l.y.out[0].nickname, ev.outRoom); }
  }

  lemma ListenersHear(c: Crypto, t: Ledger, ev: Event)
    requires InOrder(t) && Enabled(c, t.link, ev)
    ensures HeardFrom(t.link.y.(out := Apply(c, t.link, ev).y.out), Apply(c, t.link, ev).x,
                      t.xBook.announced + Announcing(t.link.x, ev))
  {
    var (x, y, more) := (t.link.x, t.link.y, Announcing(t.link.x, ev));
    var x' := Apply(c, t.link, ev).x;
    StepAnnounces(c, t.link, ev);
    if y.peer.nickname.Some? { NamesGrow(t.xBook.announced, more, y.peer.nickname.value); }
    forall i | 0 <= i < |x'.out| && x'.out[i].Hello? ensures x'.out[i].nickname in t.xBook.announced + more {
      if i < |x.out| { assert x'.out[i] == x.out[i]; }
    }
  }

  lemma SpeakersAreHeard(c: Crypto, t: Ledger, ev: Event)
    requires InOrder(t) && Enabled(c, t.link, ev)
    ensures HeardFrom(Apply(c, t.link, ev).x, Apply(c, t.link, ev).y, t.yBook.announced)
  {
    var (x, y) := (t.link.x, t.link.y);
    var l' := Apply(c, t.link, ev);
    if ev.Delivers? {
      if y.out[0].Hello? {
        GreetingBringsWhatWaited(c, x, y.out[0].nickname, ev.outRoom);
        assert y.out[0].nickname in t.yBook.announced;
      }
      forall i | 0 <= i < |l'.y.out| && l'.y.out[i].Hello? ensures l'.y.out[i].nickname in t.yBook.announced {
        assert l'.y.out[i] == y.out[i + 1];
      }
    }
  }

  lemma PeerKeepsItsBook(y: End, y': End, book: Book)
    requires Filed(y, book.asks) && HandedWell(y, book) && y' == y.(out := y'.out)
    ensures Filed(y', book.asks) && HandedWell(y', book)
  {
    forall key ensures FiledAt(book.asks, key, KeptFor(y', key)) { assert FiledAt(book.asks, key, KeptFor(y, key)); }
  }

  lemma StepStaysInOrder(c: Crypto, t: Ledger, ev: Event)
    requires InOrder(t) && Enabled(c, t.link, ev)
    ensures InOrder(Entered(c, t, ev))
  {
    var (x, l') := (t.link.x, Apply(c, t.link, ev));
    StepFiles(c, t, ev);
    HandingsStayWell(x, l'.x, t.xBook, ev, t.yBook.announced, t.xBook.announced + Announcing(x, ev));
    ListenersHear(c, t, ev);
    SpeakersAreHeard(c, t, ev);
    PeerKeepsItsBook(t.link.y, l'.y, t.yBook);
  }

  lemma {:induction false} RunStaysInOrder(c: Crypto, t: Ledger, run: seq<Turn>)
    requires InOrder(t) && ValidRun(c, t.link, run)
    ensures InOrder(Kept(c, t, run)) && Kept(c, t, run).link == After(c, t.link, run)
    decreases |run|
  {
    if run != [] {
      StepStaysInOrder(c, LedgerOf(t, run[0]), run[0].event);
      RunStaysInOrder(c, Onward(c, t, run[0]), run[1..]);
    }
  }

  // --------------------------------------------------------------- main result

  /** The books of a new connection, with what was asked before for those who were away. */
  function Opened(l: Link, xAsks: map<nat, Ask>, yAsks: map<nat, Ask>): Ledger {
    Ledger(l, Book(xAsks, [], []), Book(yAsks, [], []))
  }

  /**
   In every run each message an end hands to the connection, at once or from what waited, was
   asked for everybody or under a name that the peer had announced by then; what still waits
   under a name was asked for under that name; and an end calls its peer only what the peer
   announced and what may be printed.
   */
  lemma MessagesGoToWhomTheyWereFor(c: Crypto, l: Link, run: seq<Turn>, xAsks: map<nat, Ask>, yAsks: map<nat, Ask>)
    requires Initial(c, l) && ValidRun(c, l, run) && Filed(l.x, xAsks) && Filed(l.y, yAsks)
    ensures var t := Kept(c, Opened(l, xAsks, yAsks), run);
      && t.link == After(c, l, run)
      && HandedWell(t.link.x, t.xBook) && HandedWell(t.link.y, t.yBook)
      && Filed(t.link.x, t.xBook.asks) && Filed(t.link.y, t.yBook.asks)
      && (t.link.x.peer.nickname.Some? ==> IsNamed(t.yBook.announced, t.link.x.peer.nickname.value))
      && (t.link.y.peer.nickname.Some? ==> IsNamed(t.xBook.announced, t.link.y.peer.nickname.value))
  {
    RunStaysInOrder(c, Opened(l, xAsks, yAsks), run);
  }
}
