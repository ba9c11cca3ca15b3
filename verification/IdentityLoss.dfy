/** A message in flight while its reader replaces its identity: when it is lost, and a run that loses it. */
module IdentityLoss {
  import opened Wrappers
  import opened Text
  import opened Keys
  import opened PeerLink
  import opened PeerDelivery

  /** The left end sends, the right end replaces its identity, and then reads. */
  function InFlight(name: string, plaintext: seq<byte>, nonce: seq<byte>, secret: Key, room: nat): seq<Turn> {
    [Turn(true, Sends(name, plaintext, nonce, true)), Turn(false, SetsIdentity(secret)), Turn(false, Delivers(room))]
  }

  /** The key the left end seals under is none that the right end tries once its identity is `own`. */
  predicate IsLocked(c: Crypto, l: Link, wanted: string, own: KeyPair) {
    var key := SealingKey(c, l.x, wanted);
    c.enabled && key != c.session && key !in CandidateKeys(c, Some(own), l.y.ephemeral, l.y.peer)
  }

  lemma AfterInFlight(c: Crypto, l: Link, name: string, plaintext: seq<byte>, nonce: seq<byte>, secret: Key, room: nat)
    requires var wanted := ToAsciiLower(Trim(name)); wanted != "" && IsAddressed(l.x, wanted)
    requires l.x.out == []
    ensures var box := c.EncryptWith(SealingKey(c, l.x, ToAsciiLower(Trim(name))), nonce, plaintext);
      After(c, l, InFlight(name, plaintext, nonce, secret, room)).y
      == Dispatch(c, SetIdentity(l.y, FromSecret(c.p, secret)), Message(l.x.nextId, box), room)
  {
    var run := InFlight(name, plaintext, nonce, secret, room);
    var l1 := Next(c, l, run[0]);
    var l2 := Next(c, l1, run[1]);
    var l3 := Next(c, l2, run[2]);
    assert run[1..] == [run[1], run[2]] && [run[1], run[2]][1..] == [run[2]] && [run[2]][1..] == [];
    assert After(c, l3, []) == l3;
    assert After(c, l2, [run[2]]) == l3;
    assert After(c, l1, [run[1], run[2]]) == l3;
    var box := c.EncryptWith(SealingKey(c, l.x, ToAsciiLower(Trim(name))), nonce, plaintext);
    assert l1.x.out == [Message(l.x.nextId, box)];
    assert l2 == Link(l1.x, SetIdentity(l.y, FromSecret(c.p, secret)));
  }

  lemma InFlightIsEnabled(c: Crypto, l: Link, name: string, plaintext: seq<byte>, nonce: seq<byte>,
                          secret: Key, room: nat)
    requires var wanted := ToAsciiLower(Trim(name)); wanted != "" && IsAddressed(l.x, wanted)
    requires l.x.out == [] && l.y.registered && |nonce| == NONCE_LENGTH
    requires var box := c.EncryptWith(SealingKey(c, l.x, ToAsciiLower(Trim(name))), nonce, plaintext);
      Readable(c, Message(l.x.nextId, box))
    ensures ValidRun(c, l, InFlight(name, plaintext, nonce, secret, room))
  {
    var run := InFlight(name, plaintext, nonce, secret, room);
    var l1 := Next(c, l, run[0]);
    var l2 := Next(c, l1, run[1]);
    assert run[1..] == [run[1], run[2]] && [run[1], run[2]][1..] == [run[2]] && [run[2]][1..] == [];
    assert l2.x == l1.x && l2.y.registered;
    assert ValidRun(c, Next(c, l2, run[2]), []);
    assert ValidRun(c, l2, [run[2]]);
    assert ValidRun(c, l1, [run[1], run[2]]);
  }

  /** The message is lost exactly when its key is none the reader tries under its new identity. */
  lemma ReplacementLosesIff(c: Crypto, l: Link, name: string, plaintext: seq<byte>, nonce: seq<byte>,
                            secret: Key, room: nat)
    requires IdealAead(c.p) && |nonce| == NONCE_LENGTH && l.x.out == []
    requires var wanted := ToAsciiLower(Trim(name)); wanted != "" && IsAddressed(l.x, wanted)
    ensures var y := After(c, l, InFlight(name, plaintext, nonce, secret, room)).y;
      var lost := IsLocked(c, l, ToAsciiLower(Trim(name)), FromSecret(c.p, secret));
      && y.failures == l.y.failures + (if lost then 1 else 0)
      && y.received == l.y.received + (if lost then [] else [Note(l.x.nextId, plaintext)])
  {
    AfterInFlight(c, l, name, plaintext, nonce, secret, room);
    var own := FromSecret(c.p, secret);
    c.LadderOpensIff(CandidateKeys(c, Some(own), l.y.ephemeral, l.y.peer),
                     SealingKey(c, l.x, ToAsciiLower(Trim(name))), nonce, plaintext);
  }

  // ------------------------------------------------------- a run that loses a message

  const CIPHER: Crypto := Crypto(AdditivePrimitives(), true, Repeated(9))

  function Party(nickname: string, secret: byte, ephemeral: byte): End {
    End(Some(FromSecret(CIPHER.p, Repeated(secret))), nickname, FromSecret(CIPHER.p, Repeated(ephemeral)),
        false, BLANK, [], map[], 1, [], [], 0, [])
  }

  lemma PublicIsSecret(b: byte)
    ensures FromSecret(CIPHER.p, Repeated(b)) == KeyPair(Repeated(b), Repeated(b))
  {
    AddZero(Repeated(b));
  }

  /** A run from `start` to `end`, step by step. */
  ghost predicate Leads(start: Link, run: seq<Turn>, end: Link) {
    ValidRun(CIPHER, start, run) && After(CIPHER, start, run) == end
  }

  lemma LeadsOn(start: Link, run: seq<Turn>, mid: Link, more: seq<Turn>, end: Link)
    requires Leads(start, run, mid) && Leads(mid, more, end)
    ensures Leads(start, run + more, end)
  {
    RunsJoin(CIPHER, start, run, more);
  }

  lemma OneStep(l: Link, turn: Turn)
    requires Enabled(CIPHER, TurnOf(l, turn), turn.event)
    ensures Leads(l, [turn], Next(CIPHER, l, turn))
  {
    var l' := Next(CIPHER, l, turn);
    assert [turn][1..] == [] && ValidRun(CIPHER, l', []) && After(CIPHER, l', []) == l';
  }

  function Swapped(run: seq<Turn>): seq<Turn> {
    seq(|run|, i requires 0 <= i < |run| => Turn(!run[i].left, run[i].event))
  }

  lemma {:induction false} LeadsSwapped(start: Link, run: seq<Turn>, end: Link)
    requires Leads(start, run, end)
    ensures Leads(start.Swap(), Swapped(run), end.Swap())
    decreases |run|
  {
    if run != [] {
      LeadsSwapped(Next(CIPHER, start, run[0]), run[1..], end);
      assert Swapped(run)[1..] == Swapped(run[1..]);
    }
  }

  /** The left end reads an announcement. */
  lemma Hears(l: Link, f: LinkFrame, rest: seq<LinkFrame>)
    requires l.x.registered && l.x.outbox == map[] && l.y.out == [f] + rest
    requires f.Hello? || f.Identity? || f.Ephemeral?
    ensures Leads(l, [Turn(true, Delivers(0))],
                  Link(l.x.(peer := Learn(l.x.peer, f)), l.y.(out := rest)))
  {
    assert l.y.out[1..] == rest;
    OneStep(l, Turn(true, Delivers(0)));
  }

  /** The left end reads its peer's greeting. */
  lemma HearsGreeting(l: Link, a: LinkFrame, b: LinkFrame, d: LinkFrame)
    requires l.x.registered && l.x.outbox == map[] && l.y.out == [a, b, d]
    requires a.Hello? && b.Identity? && d.Ephemeral?
    ensures var read := Turn(true, Delivers(0));
      Leads(l, [read, read, read], Link(l.x.(peer := Learn(Learn(Learn(l.x.peer, a), b), d)), l.y.(out := [])))
  {
    var read := Turn(true, Delivers(0));
    var l1 := Link(l.x.(peer := Learn(l.x.peer, a)), l.y.(out := [b, d]));
    var l2 := Link(l1.x.(peer := Learn(l1.x.peer, b)), l.y.(out := [d]));
    var l3 := Link(l2.x.(peer := Learn(l2.x.peer, d)), l.y.(out := []));
    Hears(l, a, [b, d]);
    Hears(l1, b, [d]);
    Hears(l2, d, []);
    LeadsOn(l, [read], l1, [read], l2);
    LeadsOn(l, [read] + [read], l2, [read], l3);
    assert [read] + [read] + [read] == [read, read, read];
  }

  lemma PlainName(c: char)
    requires 'a' <= c <= 'z'
    ensures PeerLabel([c]) == Some([c]) && Trim([c]) == [c] && ToAsciiLower([c]) == [c]
  {
    assert "" + [c] + "" == [c];
    TrimUnique("", [c], "");
  }

  /** What an end knows once it has read the greeting of a peer with this name and these keys. */
  function Acquainted(nickname: string, identity: Key, ephemeral: Key): Peer {
    Peer(Some(nickname), Some(PublicHex(identity)), Some(PublicHex(ephemeral)), false)
  }

  lemma GreetingTeaches(c: char, identity: Key, ephemeral: Key)
    requires 'a' <= c <= 'z'
    ensures Learn(Learn(Learn(BLANK, Hello([c])), Identity(PublicHex(identity))), Ephemeral(PublicHex(ephemeral)))
         == Acquainted([c], identity, ephemeral)
  {
    PlainName(c);
    PublicHexReadsBack(identity);
    PublicHexReadsBack(ephemeral);
  }

  /** Both ends after both greetings were read. */
  function Met(x: End, y: End): Link
    requires x.own.Some? && y.own.Some?
  {
    Link(x.(registered := true, peer := Acquainted(y.nickname, y.own.value.public, y.ephemeral.public)),
         y.(registered := true, peer := Acquainted(x.nickname, x.own.value.public, x.ephemeral.public)))
  }

  lemma Meet(a: char, x: End, b: char, y: End) returns (run: seq<Turn>)
    requires 'a' <= a <= 'z' && 'a' <= b <= 'z' && x.nickname == [a] && y.nickname == [b]
    requires x == Party([a], 0, 3) && y == Party([b], 1, 4)
    ensures Leads(Link(x, y), run, Met(x, y))
  {
    var l1 := Link(Register(x), y);
    var l2 := Link(Register(x), Register(y));
    OneStep(Link(x, y), Turn(true, Registers));
    OneStep(l1, Turn(false, Registers));
    LeadsOn(Link(x, y), [Turn(true, Registers)], l1, [Turn(false, Registers)], l2);
    run := [Turn(true, Registers)] + [Turn(false, Registers)];
    var read := Turn(true, Delivers(0));
    var theirs := Register(y).out;
    GreetingTeaches(b, y.own.value.public, y.ephemeral.public);
    HearsGreeting(l2, theirs[0], theirs[1], theirs[2]);
    var l3 := Link(Met(x, y).x.(out := Register(x).out), Register(y).(out := []));
    LeadsOn(Link(x, y), run, l2, [read, read, read], l3);
    run := run + [read, read, read];
    var mine := Register(x).out;
    GreetingTeaches(a, x.own.value.public, x.ephemeral.public);
    HearsGreeting(l3.Swap(), mine[0], mine[1], mine[2]);
    LeadsSwapped(l3.Swap(), [read, read, read], Met(x, y).Swap());
    LeadsOn(Link(x, y), run, l3, Swapped([read, read, read]), Met(x, y));
    run := run + Swapped([read, read, read]);
  }

  lemma AdditivePairKey(own: byte, ephemeral: byte, peer: byte, peerEphemeral: Key)
    requires own == 0 || peer == 0
    ensures PairKey(CIPHER.p, CIPHER.session, FromSecret(CIPHER.p, Repeated(own)),
                    FromSecret(CIPHER.p, Repeated(ephemeral)), Repeated(peer), peerEphemeral)
         == Repeated(if own == 0 then peer else own)
  {
    var (a, e) := (FromSecret(CIPHER.p, Repeated(own)), FromSecret(CIPHER.p, Repeated(ephemeral)));
    var info := PairInfo(CIPHER.p, a, e, Repeated(peer), peerEphemeral);
    assert info[..KEY_LENGTH] == AddBytes(Repeated(own), Repeated(peer));
    AddZero(Repeated(own));
    AddZero(Repeated(peer));
  }

  lemma AdditiveContactKey(own: Key, peer: Key)
    ensures ContactKey(CIPHER.p, CIPHER.session, PublicHex(own), PublicHex(peer)) == Some(Repeated(0))
  {
    PublicHexReadsBack(own);
    PublicHexReadsBack(peer);
  }

  /** The candidates of an end that has read the greeting of the peer with key `peer`. */
  lemma AdditiveLadder(own: byte, ephemeral: byte, nickname: string, peer: byte, peerEphemeral: Key)
    requires own == 0 || peer == 0
    ensures CandidateKeys(CIPHER, Some(FromSecret(CIPHER.p, Repeated(own))), FromSecret(CIPHER.p, Repeated(ephemeral)),
                          Acquainted(nickname, Repeated(peer), peerEphemeral))
         == [Repeated(if own == 0 then peer else own), Repeated(0)]
  {
    AdditivePairKey(own, ephemeral, peer, peerEphemeral);
    AdditiveContactKey(FromSecret(CIPHER.p, Repeated(own)).public, Repeated(peer));
    PublicHexReadsBack(Repeated(peer));
    PublicHexReadsBack(peerEphemeral);
  }

  lemma MetAsPublics(x: End, y: End)
    requires x == Party("a", 0, 3) && y == Party("b", 1, 4)
    ensures Met(x, y).x.peer == Acquainted("b", Repeated(1), Repeated(4))
    ensures Met(x, y).y.peer == Acquainted("a", Repeated(0), Repeated(3))
  {
    PublicIsSecret(0);
    PublicIsSecret(1);
    PublicIsSecret(3);
    PublicIsSecret(4);
  }

  /** What the candidates of `AdditiveLadder` come to once both ends have met. */
  ghost predicate MetAsParties(l: Link) {
    && l.x.registered && l.y.registered && l.x.out == [] && l.x.own == Some(FromSecret(CIPHER.p, Repeated(0)))
    && l.x.ephemeral == FromSecret(CIPHER.p, Repeated(3)) && l.x.peer == Acquainted("b", Repeated(1), Repeated(4))
    && l.y.ephemeral == FromSecret(CIPHER.p, Repeated(4)) && l.y.peer == Acquainted("a", Repeated(0), Repeated(3))
  }

  lemma SealedForTheFirst(l: Link)
    requires MetAsParties(l)
    ensures IsAddressed(l.x, "b") && SealingKey(CIPHER, l.x, "b") == Repeated(1)
  {
    PlainName('b');
    AdditiveLadder(0, 3, "b", 1, Repeated(4));
  }

  lemma TriedByTheSecond(l: Link)
    requires MetAsParties(l)
    ensures CandidateKeys(CIPHER, Some(FromSecret(CIPHER.p, Repeated(2))), l.y.ephemeral, l.y.peer)
         == [Repeated(2), Repeated(0)]
  {
    AdditiveLadder(2, 4, "a", 0, Repeated(3));
  }

  lemma LockedOut(l: Link, wanted: string, own: KeyPair)
    requires SealingKey(CIPHER, l.x, wanted) == Repeated(1)
    requires CandidateKeys(CIPHER, Some(own), l.y.ephemeral, l.y.peer) == [Repeated(2), Repeated(0)]
    ensures IsLocked(CIPHER, l, wanted, own)
  {
    RepeatedDiffer(1, 9);
    RepeatedDiffer(1, 0);
    RepeatedDiffer(1, 2);
  }

  lemma RepeatedDiffer(a: byte, b: byte)
    requires a != b
    ensures Repeated(a) != Repeated(b)
  {
    assert Repeated(a)[0] == a && Repeated(b)[0] == b;
  }

  lemma BoxIsReadable(id: nat, key: Key, nonce: seq<byte>)
    requires |nonce| == NONCE_LENGTH
    ensures Readable(CIPHER, Message(id, CIPHER.EncryptWith(key, nonce, [])))
  {
  }

  lemma MessageIsRefused(l: Link) returns (run: seq<Turn>, end: Link)
    requires MetAsParties(l)
    ensures Leads(l, run, end) && end.y.failures == l.y.failures + 1 && end.y.received == l.y.received
  {
    var nonce: seq<byte> := seq(NONCE_LENGTH, _ => 0);
    PlainName('b');
    AdditiveLaws();
    SealedForTheFirst(l);
    TriedByTheSecond(l);
    LockedOut(l, "b", FromSecret(CIPHER.p, Repeated(2)));
    ReplacementLosesIff(CIPHER, l, "b", [], nonce, Repeated(2), 0);
    BoxIsReadable(l.x.nextId, SealingKey(CIPHER, l.x, "b"), nonce);
    InFlightIsEnabled(CIPHER, l, "b", [], nonce, Repeated(2), 0);
    run := InFlight("b", [], nonce, Repeated(2), 0);
    end := After(CIPHER, l, run);
  }

  lemma PartiesAreNew(x: End, y: End)
    requires x == Party("a", 0, 3) && y == Party("b", 1, 4)
    ensures Initial(CIPHER, Link(x, y))
  {
    PublicIsSecret(0);
    PublicIsSecret(1);
    RepeatedDiffer(0, 1);
  }

  lemma PartiesMeet() returns (l: Link, run: seq<Turn>, met: Link)
    ensures Initial(CIPHER, l) && Leads(l, run, met) && MetAsParties(met)
    ensures met.y.failures == 0 && met.y.received == []
  {
    var (x, y) := (Party("a", 0, 3), Party("b", 1, 4));
    l, met := Link(x, y), Met(x, y);
    PartiesAreNew(x, y);
    MetAsPublics(x, y);
    run := Meet('a', x, 'b', y);
  }

  lemma LosingRun() returns (l: Link, run: seq<Turn>, end: Link)
    ensures Initial(CIPHER, l) && Leads(l, run, end) && end.y.failures == 1 && end.y.received == []
  {
    var first, met, last;
    l, first, met := PartiesMeet();
    last, end := MessageIsRefused(met);
    LeadsOn(l, first, met, last, end);
    run := first + last;
  }

  /**
   A message is sealed for an identity its reader replaces before reading it: the run is one
   the program allows, and the message is refused.
   */
  lemma ReplacementLosesAMessage() returns (c: Crypto, l: Link, run: seq<Turn>)
    ensures Commutes(c.p) && IdealAead(c.p) && c.enabled && Initial(c, l) && ValidRun(c, l, run)
    ensures After(c, l, run).y.failures == 1 && After(c, l, run).y.received == []
  {
    var end;
    c := CIPHER;
    l, run, end := LosingRun();
    AdditiveLaws();
  }
}
