/**
 Connections on which each end sets one identity, and the two differ: no message is lost,
 and both ends come to hold the same keys.
 */
module StableIdentities {
  import opened Wrappers
  import opened Text
  import opened Keys
  import opened PeerLink
  import opened PeerDelivery
  import opened KeySeparation

  ghost predicate DistinctStatics(l: Link) {
    l.x.own.Some? && l.y.own.Some? ==> l.x.own.value.public != l.y.own.value.public
  }

  /** An identity is set only once, and not to the peer's. */
  ghost predicate Settles(c: Crypto, l: Link, ev: Event) {
    ev.SetsIdentity? ==>
      && l.x.own.None?
      && (l.y.own.Some? ==> FromSecret(c.p, ev.secret).public != l.y.own.value.public)
  }

  ghost predicate StableRun(c: Crypto, l: Link, run: seq<Turn>)
    decreases |run|
  {
    run != [] ==>
      && Enabled(c, TurnOf(l, run[0]), run[0].event) && Settles(c, TurnOf(l, run[0]), run[0].event)
      && StableRun(c, Next(c, l, run[0]), run[1..])
  }

  lemma {:induction false} StableRunIsValid(c: Crypto, l: Link, run: seq<Turn>)
    requires StableRun(c, l, run)
    ensures ValidRun(c, l, run)
    decreases |run|
  {
    if run != [] { StableRunIsValid(c, Next(c, l, run[0]), run[1..]); }
  }

  // ------------------------------------------------------------- the invariant

  ghost predicate Honest(f: LinkFrame, s: End) {
    match f
    case Identity(text) => text == "" || (s.own.Some? && text == PublicHex(s.own.value.public))
    case Ephemeral(text) => text == PublicHex(s.ephemeral.public)
    case _ => true
  }

  /** A message for the pair was sealed for the two identities there are. */
  ghost predicate ForThese(seal: Seal, s: End, r: End) {
    seal.ForPair? ==>
      && s.own.Some? && seal.from == PublicHex(s.own.value.public)
      && r.own.Some? && seal.to == PublicHex(r.own.value.public)
  }

  ghost predicate AllMeant(seals: seq<Seal>, readings: seq<Reading>) {
    forall j :: 0 <= j < |readings| && j < |seals| ==> Meant(seals[j], readings[j])
  }

  /** What `r` knows of `s` and is going to hear from it is true, and all it read was meant for it. */
  ghost predicate Settled(s: End, seals: seq<Seal>, r: End, readings: seq<Reading>) {
    && Truthful(r.peer, s)
    && (forall i :: 0 <= i < |s.out| ==> Honest(s.out[i], s))
    && (forall j :: 0 <= j < |seals| ==> ForThese(seals[j], s, r))
    && |readings| <= |seals| && AllMeant(seals, readings)
  }

  ghost predicate BothSettled(t: Trace) {
    && DistinctStatics(t.link)
    && Settled(t.link.x, t.xSeals, t.link.y, t.yReads)
    && Settled(t.link.y, t.ySeals, t.link.x, t.xReads)
  }

  lemma LearnTruth(view: Peer, f: LinkFrame, s: End)
    requires Truthful(view, s) && Honest(f, s)
    ensures Truthful(Learn(view, f), s)
  {
    if f.Identity? && f.text != "" { PublicHexReadsBack(s.own.value.public); }
    if f.Ephemeral? { PublicHexReadsBack(s.ephemeral.public); }
  }

  // ------------------------------------------------- every step keeps the invariant

  /** The end queues honest frames, keeps its identity if it has one, and learns nothing. */
  ghost predicate Queues(x: End, x': End) {
    && x'.ephemeral == x.ephemeral && (x.own.Some? ==> x'.own == x.own)
    && (x'.peer == x.peer || x'.peer == BLANK)
    && x.out <= x'.out && forall i :: |x.out| <= i < |x'.out| ==> Honest(x'.out[i], x')
  }

  lemma QueueingSettles(t: Trace, x': End, seals: seq<Seal>)
    requires BothSettled(t) && Queues(t.link.x, x') && DistinctStatics(Link(x', t.link.y))
    requires forall j :: 0 <= j < |seals| ==> ForThese(seals[j], x', t.link.y)
    ensures BothSettled(Grown(t, x', seals))
  {
    var x := t.link.x;
    forall i | 0 <= i < |x'.out| ensures Honest(x'.out[i], x') {
      if i < |x.out| { assert x'.out[i] == x.out[i] && Honest(x.out[i], x); }
    }
    forall j | 0 <= j < |t.xSeals + seals| ensures ForThese((t.xSeals + seals)[j], x', t.link.y) {
      if j < |t.xSeals| { assert ForThese(t.xSeals[j], x, t.link.y); }
    }
    forall j | 0 <= j < |t.ySeals| ensures ForThese(t.ySeals[j], t.link.y, x') {
      assert ForThese(t.ySeals[j], t.link.y, x);
    }
  }

  lemma SealIsForThese(c: Crypto, s: End, r: End, wanted: string)
    requires Truthful(s.peer, r)
    ensures ForThese(SealFor(c, s, wanted), s, r)
  {
  }

  lemma StepQueues(c: Crypto, l: Link, ev: Event)
    requires Enabled(c, l, ev) && Settles(c, l, ev) && DistinctStatics(l) && !ev.Delivers?
    ensures Queues(l.x, Apply(c, l, ev).x) && DistinctStatics(Apply(c, l, ev)) && Apply(c, l, ev).y == l.y
  {
  }

  lemma NewSealsAreForThese(c: Crypto, l: Link, ev: Event, j: nat)
    requires Enabled(c, l, ev) && Truthful(l.x.peer, l.y) && !ev.Delivers?
    requires var x' := Apply(c, l, ev).x; j < |NewSeals(l.x, x', SealOf(c, l.x, ev))|
    ensures var x' := Apply(c, l, ev).x; ForThese(NewSeals(l.x, x', SealOf(c, l.x, ev))[j], x', l.y)
  {
    if ev.Sends? { SealIsForThese(c, l.x, l.y, ToAsciiLower(Trim(ev.name))); }
  }

  /** A step of an end that reads nothing. */
  lemma StepSettles(c: Crypto, t: Trace, ev: Event)
    requires BothSettled(t) && Enabled(c, t.link, ev) && Settles(c, t.link, ev) && !ev.Delivers?
    ensures BothSettled(Record(c, t, ev))
  {
    var x' := Apply(c, t.link, ev).x;
    var seals := NewSeals(t.link.x, x', SealOf(c, t.link.x, ev));
    StepQueues(c, t.link, ev);
    forall j | 0 <= j < |seals| ensures ForThese(seals[j], x', t.link.y) {
      NewSealsAreForThese(c, t.link, ev, j);
    }
    QueueingSettles(t, x', seals);
    assert t.xReads + [] == t.xReads;
  }

  lemma ReadingIsMeant(c: Crypto, t: Trace)
    requires BothSettled(t) && |t.xReads| < |t.ySeals|
    ensures Meant(t.ySeals[|t.xReads|], ReadingOf(c, t.link.x))
  {
    var seal := t.ySeals[|t.xReads|];
    assert ForThese(seal, t.link.y, t.link.x);
    if seal.ForPair? {
      PublicHexReadsBack(t.link.x.own.value.public);
      PublicHexReadsBack(t.link.y.own.value.public);
    }
  }

  lemma ReadingsAreMeant(c: Crypto, t: Trace)
    requires BothSettled(t) && |t.xReads| < |t.ySeals|
    ensures AllMeant(t.ySeals, t.xReads + [ReadingOf(c, t.link.x)])
  {
    var readings := t.xReads + [ReadingOf(c, t.link.x)];
    forall j | 0 <= j < |readings| && j < |t.ySeals| ensures Meant(t.ySeals[j], readings[j]) {
      if j < |t.xReads| {
        assert Meant(t.ySeals[j], t.xReads[j]);
      } else {
        ReadingIsMeant(c, t);
      }
    }
  }

  /** Taking a frame leaves identities, seals and what the reader has queued as they were. */
  lemma TakenKeeps(c: Crypto, t: Trace, room: nat)
    requires t.link.y.out != []
    ensures var t' := Took(c, t, room);
      && t'.link.x == t.link.x.(peer := Learn(t.link.x.peer, t.link.y.out[0]), received := t'.link.x.received,
                                failures := t'.link.x.failures, confirmed := t'.link.x.confirmed)
      && t'.link.y == t.link.y.(out := t.link.y.out[1..])
  {
  }

  lemma SameSeals(seals: seq<Seal>, s: End, r: End, s': End, r': End)
    requires forall j :: 0 <= j < |seals| ==> ForThese(seals[j], s, r)
    requires s'.own == s.own && r'.own == r.own
    ensures forall j :: 0 <= j < |seals| ==> ForThese(seals[j], s', r')
  {
    forall j | 0 <= j < |seals| ensures ForThese(seals[j], s', r') { assert ForThese(seals[j], s, r); }
  }

  lemma TakingSettlesOut(c: Crypto, t: Trace, room: nat)
    requires BothSettled(t) && t.link.y.out != []
    ensures var t' := Took(c, t, room); Settled(t'.link.x, t'.xSeals, t'.link.y, t'.yReads)
  {
    var (x, x') := (t.link.x, Took(c, t, room).link.x);
    TakenKeeps(c, t, room);
    SameSeals(t.xSeals, x, t.link.y, x', Took(c, t, room).link.y);
    forall i | 0 <= i < |x'.out| ensures Honest(x'.out[i], x') { assert Honest(x.out[i], x); }
  }

  lemma TakingSettlesIn(c: Crypto, t: Trace, room: nat)
    requires BothSettled(t) && t.link.y.out != []
    requires t.link.y.out[0].Message? ==> |t.xReads| < |t.ySeals|
    ensures var t' := Took(c, t, room); Settled(t'.link.y, t'.ySeals, t'.link.x, t'.xReads)
  {
    var (y, y') := (t.link.y, Took(c, t, room).link.y);
    TakenKeeps(c, t, room);
    LearnTruth(t.link.x.peer, y.out[0], y);
    SameSeals(t.ySeals, y, t.link.x, y', Took(c, t, room).link.x);
    forall i | 0 <= i < |y'.out| ensures Honest(y'.out[i], y') { assert Honest(y.out[i + 1], y); }
    if y.out[0].Message? {
      ReadingsAreMeant(c, t);
    } else {
      assert t.xReads + [] == t.xReads;
    }
  }

  lemma TakingSettles(c: Crypto, t: Trace, room: nat)
    requires BothSettled(t) && t.link.y.out != []
    requires t.link.y.out[0].Message? ==> |t.xReads| < |t.ySeals|
    ensures BothSettled(Took(c, t, room))
  {
    TakenKeeps(c, t, room);
    TakingSettlesOut(c, t, room);
    TakingSettlesIn(c, t, room);
  }

  lemma DeliverySettles(c: Crypto, t: Trace, room: nat)
    requires BothSettled(t) && t.link.y.out != []
    requires t.link.y.out[0].Message? ==> |t.xReads| < |t.ySeals|
    ensures BothSettled(Record(c, t, Delivers(room)))
  {
    var (mid, x') := (Took(c, t, room), Apply(c, t.link, Delivers(room)).x);
    DeliveryInTwo(c, t, room);
    TakingSettles(c, t, room);
    QueueingSettles(mid, x', NewSeals(mid.link.x, x', ForSession));
  }

  /** A message that waits has a seal. */
  lemma WaitingIsSealed(c: Crypto, t: Trace)
    requires BothFlow(c, t) && t.link.y.out != [] && t.link.y.out[0].Message?
    ensures |t.xReads| < |t.ySeals|
  {
  }

  lemma TurnSettles(c: Crypto, t: Trace, ev: Event)
    requires BothFlow(c, t) && BothSettled(t) && Enabled(c, t.link, ev) && Settles(c, t.link, ev)
    ensures BothSettled(Record(c, t, ev))
  {
    if ev.Delivers? {
      if t.link.y.out[0].Message? { WaitingIsSealed(c, t); }
      DeliverySettles(c, t, ev.outRoom);
    } else {
      StepSettles(c, t, ev);
    }
  }

  lemma {:induction false} RunSettles(c: Crypto, t: Trace, run: seq<Turn>)
    requires Commutes(c.p) && IdealAead(c.p) && BothFlow(c, t) && BothSettled(t) && StableRun(c, t.link, run)
    ensures BothSettled(Traced(c, t, run))
    decreases |run|
  {
    if run != [] {
      StepFlows(c, TraceOf(t, run[0]), run[0].event);
      TurnSettles(c, TraceOf(t, run[0]), run[0].event);
      RunSettles(c, Onward(c, t, run[0]), run[1..]);
    }
  }

  // ------------------------------------------------------------- main results

  /** What one direction promises its user. */
  ghost predicate LosslessInOrder(s: End, r: End) {
    && r.failures == 0
    && r.received <= s.sent
    && |s.sent| == |r.received| + MessagesIn(s.out)
    && (forall i :: 0 <= i < |r.confirmed| ==> WasReceived(s, r.confirmed[i]))
  }

  lemma MeantIsLossless(c: Crypto, s: End, seals: seq<Seal>, r: End, readings: seq<Reading>)
    requires ReadByKey(c, s, seals, r, readings) && AllMeant(seals, readings)
    ensures LosslessInOrder(s, r)
  {
    AllOpenIff(c, s.sent, seals, readings);
  }

  /**
   In every run in which each end sets one identity and the two differ, under whatever keys
   the sender chose, no message fails to open: each end has received, in order and unaltered,
   exactly what its peer sent minus what is still in the queue. Nothing is confirmed that was
   not received.
   */
  lemma EveryMessageOpens(c: Crypto, l: Link, run: seq<Turn>)
    requires Commutes(c.p) && IdealAead(c.p) && Initial(c, l) && DistinctStatics(l) && StableRun(c, l, run)
    ensures var l' := After(c, l, run); LosslessInOrder(l'.x, l'.y) && LosslessInOrder(l'.y, l'.x)
  {
    StableRunIsValid(c, l, run);
    MessagesAreReadByKey(c, l, run);
    RunSettles(c, Began(l), run);
    var t := Traced(c, Began(l), run);
    MeantIsLossless(c, t.link.x, t.xSeals, t.link.y, t.yReads);
    MeantIsLossless(c, t.link.y, t.ySeals, t.link.x, t.xReads);
  }

  /** What each end knows is true; once a registered sender's queue is empty, its peer knows it all. */
  lemma GreetingIsLearned(c: Crypto, l: Link, run: seq<Turn>)
    requires Commutes(c.p) && IdealAead(c.p) && Initial(c, l) && DistinctStatics(l) && StableRun(c, l, run)
    ensures var l' := After(c, l, run);
      && DistinctStatics(l') && WellFormed(c, l'.x) && WellFormed(c, l'.y)
      && Truthful(l'.y.peer, l'.x) && Truthful(l'.x.peer, l'.y)
      && (l'.x.out == [] ==> Complete(l'.y.peer, l'.x))
      && (l'.y.out == [] ==> Complete(l'.x.peer, l'.y))
  {
    StableRunIsValid(c, l, run);
    RunFlows(c, Began(l), run);
    RunSettles(c, Began(l), run);
  }

  /**
   When both greetings are read, two ends that set an identity hold the same candidate
   keys, and the first of them is the key they agreed for this connection.
   */
  lemma KeysAgreeAtRest(c: Crypto, l: Link, run: seq<Turn>)
    requires Commutes(c.p) && IdealAead(c.p) && Initial(c, l) && DistinctStatics(l) && StableRun(c, l, run)
    requires var l' := After(c, l, run);
      && l'.x.registered && l'.y.registered && l'.x.out == [] && l'.y.out == []
      && l'.x.own.Some? && l'.y.own.Some?
    ensures var l' := After(c, l, run);
      && CandidateKeys(c, l'.x.own, l'.x.ephemeral, l'.x.peer)
         == CandidateKeys(c, l'.y.own, l'.y.ephemeral, l'.y.peer)
      && CandidateKeys(c, l'.x.own, l'.x.ephemeral, l'.x.peer) != []
      && CandidateKeys(c, l'.x.own, l'.x.ephemeral, l'.x.peer)[0]
         == PairKey(c.p, c.session, l'.x.own.value, l'.x.ephemeral,
                    l'.y.own.value.public, l'.y.ephemeral.public)
  {
    GreetingIsLearned(c, l, run);
    var l' := After(c, l, run);
    var (a, b) := (l'.x.own.value, l'.y.own.value);
    PublicHexReadsBack(a.public);
    PublicHexReadsBack(b.public);
    PublicHexReadsBack(l'.x.ephemeral.public);
    PublicHexReadsBack(l'.y.ephemeral.public);
    PairKeyIsShared(c.p, c.session, a.secret, l'.x.ephemeral.secret, b.secret, l'.y.ephemeral.secret);
    ContactKeyIsSymmetric(c.p, c.session, PublicHex(a.public), PublicHex(b.public));
  }

  ghost predicate AtRest(c: Crypto, l: Link, run: seq<Turn>) {
    && Initial(c, l) && DistinctStatics(l) && StableRun(c, l, run)
    && var l' := After(c, l, run);
       && l'.x.registered && l'.y.registered && l'.x.out == [] && l'.y.out == []
       && l'.x.own.Some? && l'.y.own.Some?
  }

  /**
   The agreed key belongs to one connection: on two connections between the same identities,
   both at rest, the first keys of the ladders are equal exactly when the sessions are, and
   the ephemerals of both ends contribute the same Diffie-Hellman values.
   */
  lemma ConnectionsHaveTheirOwnKeys(c: Crypto, l: Link, run: seq<Turn>, d: Crypto, m: Link, other: seq<Turn>)
    requires Commutes(c.p) && IdealAead(c.p) && d.p == c.p && AtRest(c, l, run) && AtRest(d, m, other)
    requires var (l', m') := (After(c, l, run), After(d, m, other));
      && l'.x.own == m'.x.own && l'.y.own == m'.y.own
      && var (p, a, b) := (c.p, l'.x.own.value.secret, l'.y.own.value.public);
         KeptApart(p, PairInputs({c.session, d.session},
           {p.x25519(a, b), p.x25519(l'.x.ephemeral.secret, b), p.x25519(a, l'.y.ephemeral.public),
            p.x25519(m'.x.ephemeral.secret, b), p.x25519(a, m'.y.ephemeral.public)}))
    ensures var (x, y, u, v) := (After(c, l, run).x, After(c, l, run).y, After(d, m, other).x, After(d, m, other).y);
      var (k1, k2) := (CandidateKeys(c, x.own, x.ephemeral, x.peer), CandidateKeys(d, u.own, u.ephemeral, u.peer));
      && k1 != [] && k2 != []
      && (k1[0] == k2[0] <==>
            && c.session == d.session
            && c.p.x25519(x.ephemeral.secret, y.own.value.public) == c.p.x25519(u.ephemeral.secret, y.own.value.public)
            && c.p.x25519(x.own.value.secret, y.ephemeral.public) == c.p.x25519(x.own.value.secret, v.ephemeral.public))
  {
    KeysAgreeAtRest(c, l, run);
    KeysAgreeAtRest(d, m, other);
    var (x, y, u, v) := (After(c, l, run).x, After(c, l, run).y, After(d, m, other).x, After(d, m, other).y);
    PairKeyIsOfOneConnection(c.p, x.own.value, y.own.value.public, c.session, x.ephemeral, y.ephemeral.public,
                             d.session, u.ephemeral, v.ephemeral.public);
  }

  function NewEnd(own: KeyPair, ephemeral: KeyPair): End {
    End(Some(own), "", ephemeral, false, BLANK, [], map[], 1, [], [], 0, [])
  }

  /** The laws of the primitives and the conditions on a new connection can be met together. */
  lemma AssumptionsAreMet() returns (c: Crypto, l: Link, run: seq<Turn>)
    ensures Commutes(c.p) && IdealAead(c.p) && Initial(c, l) && DistinctStatics(l) && StableRun(c, l, run)
    ensures c.enabled && After(c, l, run).x.registered && After(c, l, run).y.registered
    ensures l.x.own.Some? && l.y.own.Some?
  {
    var p, a, b := LawsAreConsistent();
    c := Crypto(p, true, a);
    l := Link(NewEnd(FromSecret(p, a), FromSecret(p, b)), NewEnd(FromSecret(p, b), FromSecret(p, a)));
    var (first, second) := (Turn(true, Registers), Turn(false, Registers));
    run := [first, second];
    assert run[1..] == [second] && [second][1..] == [];
    var mid := Next(c, l, first);
    var end := Next(c, mid, second);
    assert After(c, end, []) == end && StableRun(c, end, []);
    assert After(c, mid, [second]) == end && StableRun(c, mid, [second]);
  }
}
